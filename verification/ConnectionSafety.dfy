/** No acknowledged connection change is swallowed. */
module ConnectionSafety {
  import opened Wrappers
  import opened Messaging
  import opened ConnectionProtocol

  /** The device was gone, or already seen strictly later. */
  predicate Superseding(found: Option<Row>, at: int) {
    found.Some? ==> found.value.lastSeen.Some? && found.value.lastSeen.value > at
  }

  ghost predicate SeenSuperseded(s: State, e: Event) {
    exists sighting :: sighting in s.sightings && sighting.event == e && Superseding(sighting.found, e.at)
  }

  /** Why an event may be acknowledged. */
  ghost predicate Explained(s: State, e: Event) {
    e in s.world.published || SeenSuperseded(s, e)
  }

  predicate WillAcknowledge(phase: Phase) {
    phase == Decided(Ack) || phase.Acknowledged?
  }

  ghost predicate AcknowledgementsExplained(s: State) {
    forall id :: id in s.deliveries && WillAcknowledge(s.deliveries[id].phase) ==> Explained(s, s.deliveries[id].event)
  }

  lemma ExplanationsLast(s: State, a: Action, e: Event)
    requires Explained(s, e)
    ensures Explained(Step(s, a), e)
  {
    var t := Step(s, a);
    if e !in s.world.published {
      var sighting :| sighting in s.sightings && sighting.event == e && Superseding(sighting.found, e.at);
      assert sighting in t.sightings;
    }
  }

  lemma StepExplainsNewAcknowledgement(s: State, a: Action, id: nat)
    requires AcknowledgementsExplained(s)
    requires id in Step(s, a).deliveries && WillAcknowledge(Step(s, a).deliveries[id].phase)
    ensures Explained(Step(s, a), Step(s, a).deliveries[id].event)
  {
    var t := Step(s, a);
    var e := t.deliveries[id].event;
    if id in s.deliveries && WillAcknowledge(s.deliveries[id].phase) {
      ExplanationsLast(s, a, e);
    } else if a.UpdateRow? {
      var found := if e.device in s.world.rows then Some(s.world.rows[e.device]) else None;
      assert Sighting(e, found) in t.sightings;
    }
  }

  /** Over every run, whatever is acknowledged was published or found superseded at some attempt. */
  lemma {:induction false} AcknowledgedIsExplained(rows: map<Device, Row>, online: map<Device, int>, acts: seq<Action>)
    ensures AcknowledgementsExplained(Exec(Start(rows, online), acts))
  {
    if acts != [] {
      var before, a := acts[..|acts| - 1], acts[|acts| - 1];
      AcknowledgedIsExplained(rows, online, before);
      var s := Exec(Start(rows, online), before);
      forall id | id in Step(s, a).deliveries && WillAcknowledge(Step(s, a).deliveries[id].phase)
        ensures Explained(Step(s, a), Step(s, a).deliveries[id].event)
      {
        StepExplainsNewAcknowledgement(s, a, id);
      }
    }
  }

  /** The update that matched no row because of what it saw. */
  predicate SawRow(s: State, a: Action, sighting: Sighting) {
    var e := sighting.event;
    && a.UpdateRow? && a.outcome.Done? && In(s, a.id, Called) && s.deliveries[a.id].event == e
    && (sighting.found.Some? <==> e.device in s.world.rows)
    && (e.device in s.world.rows ==> sighting.found.value == s.world.rows[e.device])
  }

  /** Every sighting is what an update of its event really saw. */
  lemma {:induction false} SightingsAreTrue(s: State, acts: seq<Action>, sighting: Sighting)
    requires s.sightings == {} && sighting in Exec(s, acts).sightings
    ensures exists k :: 0 <= k < |acts| && SawRow(Exec(s, acts[..k]), acts[k], sighting)
  {
    var n := |acts| - 1;
    var before := acts[..n];
    if sighting in Exec(s, before).sightings {
      SightingsAreTrue(s, before, sighting);
      var k :| 0 <= k < n && SawRow(Exec(s, before[..k]), before[k], sighting);
      assert before[..k] == acts[..k];
    } else {
      assert SawRow(Exec(s, acts[..n]), acts[n], sighting);
    }
  }

  /**
   * What an acknowledgement means, in terms of the run alone: the event was published, or one of its updates
   * met a device that was gone or had been seen strictly later.
   */
  lemma AcknowledgedWasPublishedOrOvertaken(
      rows: map<Device, Row>, online: map<Device, int>, acts: seq<Action>, id: nat)
    requires In(Exec(Start(rows, online), acts), id, Acknowledged)
    ensures
      var s := Exec(Start(rows, online), acts);
      var e := s.deliveries[id].event;
      || e in s.world.published
      || exists k ::
           && 0 <= k < |acts| && acts[k].UpdateRow?
           && (var found := Exec(Start(rows, online), acts[..k]);
               && In(found, acts[k].id, Called) && found.deliveries[acts[k].id].event == e
               && (|| e.device !in found.world.rows
                   || (found.world.rows[e.device].lastSeen.Some? && found.world.rows[e.device].lastSeen.value > e.at)))
  {
    var s := Exec(Start(rows, online), acts);
    var e := s.deliveries[id].event;
    AcknowledgedIsExplained(rows, online, acts);
    if e !in s.world.published {
      var sighting :| sighting in s.sightings && sighting.event == e && Superseding(sighting.found, e.at);
      SightingsAreTrue(Start(rows, online), acts, sighting);
      var k :| 0 <= k < |acts| && SawRow(Exec(Start(rows, online), acts[..k]), acts[k], sighting);
      assert acts[k].UpdateRow?;
    }
  }

  // ----- the newest event -----

  /** The run delivers nothing newer for the device of `e`, and does not remove the device. */
  predicate NothingNewer(acts: seq<Action>, e: Event) {
    forall i :: 0 <= i < |acts| ==>
      && (acts[i].Deliver? && acts[i].event.device == e.device ==> acts[i].event.at <= e.at)
      && acts[i] != RemoveDevice(e.device)
  }

  ghost predicate NewestHolds(s: State, e: Event) {
    && e.device in s.world.rows
    && Admits(s.world.rows[e.device], e.at)
    && (forall id :: id in s.deliveries && s.deliveries[id].event.device == e.device ==>
         s.deliveries[id].event.at <= e.at)
    && (forall sighting :: sighting in s.sightings ==> sighting.event != e)
  }

  lemma StepKeepsNewest(s: State, a: Action, e: Event)
    requires NewestHolds(s, e) && NothingNewer([a], e)
    ensures NewestHolds(Step(s, a), e)
  {
    assert [a][0] == a;
  }

  lemma {:induction false} RunKeepsNewest(s: State, acts: seq<Action>, e: Event)
    requires NewestHolds(s, e) && NothingNewer(acts, e)
    ensures NewestHolds(Exec(s, acts), e)
  {
    if acts != [] {
      var before, a := acts[..|acts| - 1], acts[|acts| - 1];
      RunKeepsNewest(s, before, e);
      StepKeepsNewest(Exec(s, before), a, e);
    }
  }

  /**
   * The newest event of an existing device is never swallowed: once one of its deliveries is
   * acknowledged, its change has been published, whatever failed, repeated or overtook on the way.
   */
  lemma NewestIsPublished(rows: map<Device, Row>, online: map<Device, int>, acts: seq<Action>, id: nat, e: Event)
    requires e.device in rows && Admits(rows[e.device], e.at) && NothingNewer(acts, e)
    requires
      var s := Exec(Start(rows, online), acts);
      In(s, id, Acknowledged) && s.deliveries[id].event == e
    ensures e in Exec(Start(rows, online), acts).world.published
  {
    AcknowledgedIsExplained(rows, online, acts);
    RunKeepsNewest(Start(rows, online), acts, e);
  }
}
