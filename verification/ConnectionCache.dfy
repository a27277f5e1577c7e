/** When the Redis online key agrees with the device row. */
module ConnectionCache {
  import opened Wrappers
  import opened Messaging
  import opened ConnectionProtocol

  /** The key is there exactly when the row says online. */
  predicate Agrees(w: World, device: Device)
    requires device in w.rows
  {
    device in w.online <==> w.rows[device].status == Online
  }

  // ----- the run considered -----

  /** Events of one device happen at different times. */
  ghost predicate DistinctTimes(events: set<Event>) {
    forall x, y :: x in events && y in events && x.device == y.device && x.at == y.at ==> x == y
  }

  /** The device stays, and only the given events are delivered for it. */
  predicate Covered(acts: seq<Action>, events: set<Event>, device: Device) {
    forall i :: 0 <= i < |acts| ==>
      && acts[i] != RemoveDevice(device)
      && (acts[i].Deliver? && acts[i].event.device == device ==> acts[i].event in events)
  }

  /** No delivery for the device stands between its row update and its Redis write. */
  ghost predicate NobodyMarking(s: State, device: Device) {
    forall id :: id in s.deliveries && s.deliveries[id].event.device == device ==> !s.deliveries[id].phase.RowUpdated?
  }

  /** An update for the device starts only when no other mark of the device is half done. */
  ghost predicate StepIsSerial(s: State, a: Action, device: Device) {
    a.UpdateRow? && a.id in s.deliveries && s.deliveries[a.id].event.device == device ==> NobodyMarking(s, device)
  }

  /** Mark calls for the device do not overlap. */
  ghost predicate MarksDoNotOverlap(s: State, acts: seq<Action>, device: Device) {
    forall i :: 0 <= i < |acts| ==> StepIsSerial(Exec(s, acts[..i]), acts[i], device)
  }

  // ----- the invariant -----

  predicate PastMark(phase: Phase) {
    phase.Marked? || phase == Decided(Ack) || phase.Acknowledged?
  }

  function LastSeen(s: State, device: Device): Option<int>
    requires device in s.world.rows
  {
    s.world.rows[device].lastSeen
  }

  /** Deliveries that have met the row know it is at least as recent as their event. */
  ghost predicate DeliveryFits(s: State, d: Delivery, events: set<Event>)
    requires d.event.device in s.world.rows
  {
    var seen := LastSeen(s, d.event.device);
    && d.event in events
    && (d.phase.RowUpdated? ==> seen == Some(d.event.at))
    && (PastMark(d.phase) ==> seen.Some? && seen.value >= d.event.at)
  }

  /** The row shows the status of the event whose time it carries. */
  ghost predicate RowFits(s: State, device: Device, events: set<Event>)
    requires device in s.world.rows
  {
    forall x :: x in events && x.device == device && LastSeen(s, device) == Some(x.at) ==>
      s.world.rows[device].status == x.status
  }

  /** No delivery with the time the row carries has updated the row: whoever wrote it came before. */
  ghost predicate Untouched(s: State, device: Device)
    requires device in s.world.rows
  {
    forall id ::
      && id in s.deliveries
      && s.deliveries[id].event.device == device
      && LastSeen(s, device) == Some(s.deliveries[id].event.at)
      ==> !s.deliveries[id].phase.RowUpdated? && !PastMark(s.deliveries[id].phase)
  }

  /** No delivery of the event is past its mark. */
  ghost predicate Unmarked(s: State, e: Event) {
    forall id :: id in s.deliveries && s.deliveries[id].event == e ==> !PastMark(s.deliveries[id].phase)
  }

  /** The event the row shows has been delivered and still owes a completed mark. */
  ghost predicate MarkOwed(s: State, device: Device)
    requires device in s.world.rows
  {
    exists id ::
      && id in s.deliveries
      && s.deliveries[id].event.device == device
      && LastSeen(s, device) == Some(s.deliveries[id].event.at)
      && Unmarked(s, s.deliveries[id].event)
  }

  ghost predicate DeliveriesFit(s: State, device: Device, events: set<Event>)
    requires device in s.world.rows
  {
    forall id :: id in s.deliveries && s.deliveries[id].event.device == device ==>
        DeliveryFits(s, s.deliveries[id], events)
  }

  ghost predicate Inv(s: State, device: Device, events: set<Event>) {
    && device in s.world.rows
    && DeliveriesFit(s, device, events)
    && (RowFits(s, device, events) || Untouched(s, device))
    && (Agrees(s.world, device) || MarkOwed(s, device))
  }

  // ----- steps that leave the device's row and key alone -----

  /** The action neither writes the device's row nor its key. */
  predicate Quiet(s: State, a: Action, device: Device) {
    match a
    case UpdateRow(id, _) => id in s.deliveries ==> s.deliveries[id].event.device != device
    case WriteCache(id, _) => id in s.deliveries ==> s.deliveries[id].event.device != device
    case RemoveDevice(removed) => removed != device
    case _ => true
  }

  lemma QuietStepLeavesDevice(s: State, a: Action, device: Device)
    requires device in s.world.rows && Quiet(s, a, device)
    ensures
      var w := Step(s, a).world;
      device in w.rows && w.rows[device] == s.world.rows[device] && (device in w.online <==> device in s.world.online)
  {
  }

  lemma QuietStepKeepsFit(s: State, a: Action, device: Device, events: set<Event>, id: nat)
    requires device in s.world.rows && Quiet(s, a, device) && Covered([a], events, device)
    requires id in s.deliveries && s.deliveries[id].event.device == device ==> DeliveryFits(s, s.deliveries[id], events)
    requires id in Step(s, a).deliveries && Step(s, a).deliveries[id].event.device == device
    ensures device in Step(s, a).world.rows && DeliveryFits(Step(s, a), Step(s, a).deliveries[id], events)
  {
    QuietStepLeavesDevice(s, a, device);
    assert [a][0] == a;
    if id in s.deliveries {
      QuietStepKeepsEvents(s, a, id);
    }
  }

  lemma QuietStepKeepsUnmarked(s: State, a: Action, e: Event, device: Device)
    requires Unmarked(s, e) && e.device == device && Quiet(s, a, device)
    ensures Unmarked(Step(s, a), e)
  {
  }

  lemma QuietStepKeepsEvents(s: State, a: Action, id: nat)
    requires id in s.deliveries
    ensures id in Step(s, a).deliveries && Step(s, a).deliveries[id].event == s.deliveries[id].event
  {
  }

  lemma QuietStepKeepsRowShown(s: State, a: Action, device: Device, events: set<Event>)
    requires device in s.world.rows && Quiet(s, a, device)
    requires RowFits(s, device, events) || Untouched(s, device)
    ensures device in Step(s, a).world.rows
    ensures RowFits(Step(s, a), device, events) || Untouched(Step(s, a), device)
  {
    var t := Step(s, a);
    QuietStepLeavesDevice(s, a, device);
    if Untouched(s, device) {
      forall id |
        && id in t.deliveries
        && t.deliveries[id].event.device == device
        && LastSeen(t, device) == Some(t.deliveries[id].event.at)
        ensures !t.deliveries[id].phase.RowUpdated? && !PastMark(t.deliveries[id].phase)
      {
        if id in s.deliveries {
          QuietStepKeepsEvents(s, a, id);
        }
      }
    }
  }

  lemma QuietStepKeepsOwed(s: State, a: Action, device: Device)
    requires device in s.world.rows && Quiet(s, a, device) && MarkOwed(s, device)
    ensures device in Step(s, a).world.rows && MarkOwed(Step(s, a), device)
  {
    QuietStepLeavesDevice(s, a, device);
    var id := Owing(s, device);
    QuietStepKeepsUnmarked(s, a, s.deliveries[id].event, device);
    QuietStepKeepsEvents(s, a, id);
  }

  lemma QuietStepKeepsInv(s: State, a: Action, device: Device, events: set<Event>)
    requires Inv(s, device, events) && Covered([a], events, device) && Quiet(s, a, device)
    ensures Inv(Step(s, a), device, events)
  {
    var t := Step(s, a);
    QuietStepLeavesDevice(s, a, device);
    QuietStepKeepsRowShown(s, a, device, events);
    forall id | id in t.deliveries && t.deliveries[id].event.device == device
      ensures DeliveryFits(t, t.deliveries[id], events)
    {
      QuietStepKeepsFit(s, a, device, events, id);
    }
    if !Agrees(s.world, device) {
      QuietStepKeepsOwed(s, a, device);
    }
  }

  lemma Owing(s: State, device: Device) returns (id: nat)
    requires device in s.world.rows && MarkOwed(s, device)
    ensures id in s.deliveries && s.deliveries[id].event.device == device
    ensures LastSeen(s, device) == Some(s.deliveries[id].event.at) && Unmarked(s, s.deliveries[id].event)
  {
    id :| id in s.deliveries && s.deliveries[id].event.device == device
          && LastSeen(s, device) == Some(s.deliveries[id].event.at) && Unmarked(s, s.deliveries[id].event);
  }

  // ----- the row update -----

  lemma UpdateKeepsInv(s: State, id: nat, outcome: Outcome, device: Device, events: set<Event>)
    requires Inv(s, device, events) && DistinctTimes(events)
    requires In(s, id, Called) && s.deliveries[id].event.device == device && NobodyMarking(s, device)
    ensures Inv(Step(s, UpdateRow(id, outcome)), device, events)
  {
    var e := s.deliveries[id].event;
    var t := Step(s, UpdateRow(id, outcome));
    assert DeliveryFits(s, s.deliveries[id], events);
    if outcome.NotDone? || !Admits(s.world.rows[device], e.at) {
      assert t.world.rows == s.world.rows && t.world.online == s.world.online;
      if !Agrees(s.world, device) {
        var other := Owing(s, device);
        assert Unmarked(t, s.deliveries[other].event);
        assert t.deliveries[other].event == s.deliveries[other].event;
      }
    } else {
      EffectiveUpdateKeepsInv(s, id, outcome, device, events);
    }
  }

  lemma EffectiveUpdateKeepsInv(s: State, id: nat, outcome: Outcome, device: Device, events: set<Event>)
    requires Inv(s, device, events) && DistinctTimes(events)
    requires In(s, id, Called) && s.deliveries[id].event.device == device && NobodyMarking(s, device)
    requires !outcome.NotDone? && Admits(s.world.rows[device], s.deliveries[id].event.at)
    ensures Inv(Step(s, UpdateRow(id, outcome)), device, events)
  {
    var e := s.deliveries[id].event;
    var t := Step(s, UpdateRow(id, outcome));
    assert DeliveryFits(s, s.deliveries[id], events);
    assert LastSeen(t, device) == Some(e.at);
    forall other | other in t.deliveries && t.deliveries[other].event.device == device
      ensures DeliveryFits(t, t.deliveries[other], events)
    {
      assert DeliveryFits(s, s.deliveries[other], events);
    }
    if LastSeen(s, device) == Some(e.at) && RowFits(s, device, events) {
      assert t.world.rows[device] == s.world.rows[device];
      if !Agrees(s.world, device) {
        var other := Owing(s, device);
        assert DeliveryFits(s, s.deliveries[other], events);
        assert s.deliveries[other].event == e;
        assert Unmarked(t, e);
      }
    } else {
      assert Unmarked(t, e) by {
        forall other | other in t.deliveries && t.deliveries[other].event == e
          ensures !PastMark(t.deliveries[other].phase)
        {
          assert DeliveryFits(s, s.deliveries[other], events);
        }
      }
    }
    assert id in t.deliveries && t.deliveries[id].event == e;
  }

  // ----- the Redis write -----

  lemma CacheKeepsInv(s: State, id: nat, outcome: Outcome, device: Device, events: set<Event>)
    requires Inv(s, device, events)
    requires In(s, id, RowUpdated) && s.deliveries[id].event.device == device
    ensures Inv(Step(s, WriteCache(id, outcome)), device, events)
  {
    var e := s.deliveries[id].event;
    var t := Step(s, WriteCache(id, outcome));
    assert DeliveryFits(s, s.deliveries[id], events);
    forall other | other in t.deliveries && t.deliveries[other].event.device == device
      ensures DeliveryFits(t, t.deliveries[other], events)
    {
      assert DeliveryFits(s, s.deliveries[other], events);
    }
    if TookEffect(outcome) {
      assert Agrees(t.world, device);
    } else if !Agrees(s.world, device) {
      var other := Owing(s, device);
      assert Unmarked(t, s.deliveries[other].event);
      assert t.deliveries[other].event == s.deliveries[other].event;
    }
  }

  lemma StepKeepsInv(s: State, a: Action, device: Device, events: set<Event>)
    requires Inv(s, device, events) && DistinctTimes(events)
    requires Covered([a], events, device) && StepIsSerial(s, a, device)
    ensures Inv(Step(s, a), device, events)
  {
    assert [a][0] == a;
    if a.UpdateRow? && In(s, a.id, Called) && s.deliveries[a.id].event.device == device {
      UpdateKeepsInv(s, a.id, a.outcome, device, events);
    } else if a.WriteCache? && In(s, a.id, RowUpdated) && s.deliveries[a.id].event.device == device {
      CacheKeepsInv(s, a.id, a.outcome, device, events);
    } else if (a.UpdateRow? || a.WriteCache?) && a.id in s.deliveries && s.deliveries[a.id].event.device == device {
      assert Step(s, a) == s;
    } else {
      QuietStepKeepsInv(s, a, device, events);
    }
  }

  lemma {:induction false} RunKeepsInv(s: State, acts: seq<Action>, device: Device, events: set<Event>)
    requires Inv(s, device, events) && DistinctTimes(events)
    requires Covered(acts, events, device) && MarksDoNotOverlap(s, acts, device)
    ensures Inv(Exec(s, acts), device, events)
  {
    if acts != [] {
      var n := |acts| - 1;
      var before, a := acts[..n], acts[n];
      forall i | 0 <= i < n
        ensures StepIsSerial(Exec(s, before[..i]), before[i], device)
      {
        assert before[..i] == acts[..i];
        assert StepIsSerial(Exec(s, acts[..i]), acts[i], device);
      }
      RunKeepsInv(s, before, device, events);
      assert StepIsSerial(Exec(s, acts[..n]), acts[n], device);
      StepKeepsInv(Exec(s, before), a, device, events);
    }
  }

  ghost predicate HasAcknowledgement(s: State, e: Event) {
    exists done :: In(s, done, Acknowledged) && s.deliveries[done].event == e
  }

  /** Every event delivered for the device has an acknowledged delivery. */
  ghost predicate Settled(s: State, device: Device) {
    forall id :: id in s.deliveries && s.deliveries[id].event.device == device ==>
      HasAcknowledgement(s, s.deliveries[id].event)
  }

  lemma NothingOwedWhenSettled(s: State, device: Device)
    requires device in s.world.rows && Settled(s, device)
    ensures !MarkOwed(s, device)
  {
    forall id | id in s.deliveries && s.deliveries[id].event.device == device
      ensures !Unmarked(s, s.deliveries[id].event)
    {
      assert HasAcknowledgement(s, s.deliveries[id].event);
    }
  }

  /**
   * Once all its events are acknowledged the online key agrees with the row, however often the row
   * update or the Redis write failed, provided the marks of the device did not overlap.
   */
  lemma SettledKeyAgrees(rows: map<Device, Row>, online: map<Device, int>, acts: seq<Action>, device: Device,
      events: set<Event>)
    requires device in rows && Agrees(World(rows, online, []), device)
    requires DistinctTimes(events)
    requires Covered(acts, events, device) && MarksDoNotOverlap(Start(rows, online), acts, device)
    requires Settled(Exec(Start(rows, online), acts), device)
    ensures
      var w := Exec(Start(rows, online), acts).world;
      device in w.rows && Agrees(w, device)
  {
    var s := Start(rows, online);
    RunKeepsInv(s, acts, device, events);
    NothingOwedWhenSettled(Exec(s, acts), device);
  }

  // ----- overlapping marks -----

  lemma ExecThree(s: State, a: Action, b: Action, c: Action)
    ensures Exec(s, [a, b, c]) == Step(Step(Step(s, a), b), c)
  {
    ExecAppend(s, [], a);
    ExecAppend(s, [a], b);
    ExecAppend(s, [a, b], c);
    assert [] + [a] == [a] && [a] + [b] == [a, b] && [a, b] + [c] == [a, b, c];
    assert Exec(s, []) == s;
  }

  predicate BothAt(s: State, x: Event, y: Event, phase: Phase) {
    s.deliveries == map[0 := Delivery(x, phase), 1 := Delivery(y, phase)]
  }

  /** Two events of a device with opposite status, the first earlier and not stale. */
  predicate Opposed(rows: map<Device, Row>, x: Event, y: Event) {
    x.device == y.device && Applies(rows, x) && x.at < y.at && x.status != y.status
  }

  lemma BothUpdated(s: State, x: Event, y: Event)
    requires BothAt(s, x, y, Called) && Opposed(s.world.rows, x, y)
    ensures
      var t := Step(Step(s, UpdateRow(0, Done)), UpdateRow(1, Done));
      && BothAt(t, x, y, RowUpdated)
      && t.world == s.world.(rows := s.world.rows[y.device := Row(y.status, Some(y.at))])
  {
    var t := Step(s, UpdateRow(0, Done));
    assert t.world.rows == s.world.rows[x.device := Row(x.status, Some(x.at))];
    assert t.deliveries == map[0 := Delivery(x, RowUpdated), 1 := Delivery(y, Called)];
  }

  lemma CachedInReverse(s: State, x: Event, y: Event)
    requires BothAt(s, x, y, RowUpdated)
    ensures
      var t := Step(Step(s, WriteCache(1, Done)), WriteCache(0, Done));
      BothAt(t, x, y, Marked) && t.world == s.world.(online := Cached(Cached(s.world.online, y), x))
  {
    var t := Step(s, WriteCache(1, Done));
    assert t.deliveries == map[0 := Delivery(x, RowUpdated), 1 := Delivery(y, Marked)];
  }

  lemma BothAcknowledged(s: State, x: Event, y: Event)
    requires BothAt(s, x, y, Marked)
    ensures
      var t := Step(Step(Step(Step(s, Publish(0, Done)), Publish(1, Done)), Complete(0, true)), Complete(1, true));
      BothAt(t, x, y, Acknowledged) && t.world == s.world.(published := s.world.published + [x] + [y])
  {
    var t1 := Step(s, Publish(0, Done));
    assert t1.deliveries == map[0 := Delivery(x, Decided(Ack)), 1 := Delivery(y, Marked)];
    var t2 := Step(t1, Publish(1, Done));
    assert t2.deliveries == map[0 := Delivery(x, Decided(Ack)), 1 := Delivery(y, Decided(Ack))];
    var t3 := Step(t2, Complete(0, true));
    assert t3.deliveries == map[0 := Delivery(x, Acknowledged), 1 := Delivery(y, Decided(Ack))];
  }

  /** Both rows first, then both keys in the opposite order, then both publications. */
  function Overlapping(x: Event, y: Event): seq<Action> {
    [Deliver(0, x), Deliver(1, y), UpdateRow(0, Done)]
    + [UpdateRow(1, Done), WriteCache(1, Done), WriteCache(0, Done)]
    + [Publish(0, Done), Publish(1, Done), Complete(0, true)]
    + [Complete(1, true)]
  }

  /** Nothing fails, is repeated or lost. */
  predicate FaultFree(acts: seq<Action>) {
    forall i :: 0 <= i < |acts| ==>
      match acts[i]
      case UpdateRow(_, outcome) => outcome.Done?
      case WriteCache(_, outcome) => outcome.Done?
      case Publish(_, outcome) => outcome.Done?
      case Complete(_, ok) => ok
      case Deliver(_, _) => true
      case _ => false
  }

  lemma OverlappingEnds(rows: map<Device, Row>, online: map<Device, int>, x: Event, y: Event)
    requires Opposed(rows, x, y)
    ensures
      var s := Exec(Start(rows, online), Overlapping(x, y));
      && BothAt(s, x, y, Acknowledged)
      && s.world.rows == rows[y.device := Row(y.status, Some(y.at))]
      && s.world.online == Cached(Cached(online, y), x)
  {
    var s0 := Start(rows, online);
    var first := [Deliver(0, x), Deliver(1, y), UpdateRow(0, Done)];
    var second := [UpdateRow(1, Done), WriteCache(1, Done), WriteCache(0, Done)];
    var third := [Publish(0, Done), Publish(1, Done), Complete(0, true)];
    var s2 := Step(Step(s0, Deliver(0, x)), Deliver(1, y));
    BothUpdated(s2, x, y);
    var s4 := Step(Step(s2, UpdateRow(0, Done)), UpdateRow(1, Done));
    CachedInReverse(s4, x, y);
    BothAcknowledged(Step(Step(s4, WriteCache(1, Done)), WriteCache(0, Done)), x, y);
    ExecThree(s0, Deliver(0, x), Deliver(1, y), UpdateRow(0, Done));
    ExecThree(Exec(s0, first), UpdateRow(1, Done), WriteCache(1, Done), WriteCache(0, Done));
    ExecSplit(s0, first, second);
    ExecThree(Exec(s0, first + second), Publish(0, Done), Publish(1, Done), Complete(0, true));
    ExecSplit(s0, first + second, third);
    ExecAppend(s0, first + second + third, Complete(1, true));
  }

  /** The later row update starts while the earlier mark is half done. */
  lemma OverlappingOverlaps(rows: map<Device, Row>, online: map<Device, int>, x: Event, y: Event)
    requires Opposed(rows, x, y)
    ensures !MarksDoNotOverlap(Start(rows, online), Overlapping(x, y), x.device)
  {
    var s0, acts := Start(rows, online), Overlapping(x, y);
    var first := [Deliver(0, x), Deliver(1, y), UpdateRow(0, Done)];
    ExecThree(s0, Deliver(0, x), Deliver(1, y), UpdateRow(0, Done));
    var s3 := Exec(s0, first);
    assert acts[..3] == first && acts[3] == UpdateRow(1, Done);
    assert s3.deliveries[0] == Delivery(x, RowUpdated) && s3.deliveries[1] == Delivery(y, Called);
    assert !StepIsSerial(s3, acts[3], x.device);
  }

  lemma BothSettled(s: State, x: Event, y: Event)
    requires BothAt(s, x, y, Acknowledged)
    ensures Settled(s, x.device) && HasAcknowledgement(s, x) && HasAcknowledgement(s, y)
  {
    assert In(s, 0, Acknowledged) && s.deliveries[0].event == x;
    assert In(s, 1, Acknowledged) && s.deliveries[1].event == y;
  }

  lemma OverlappingIsPlain(x: Event, y: Event)
    ensures FaultFree(Overlapping(x, y)) && OnlyDelivers(Overlapping(x, y), {x, y})
  {
  }

  predicate OnlyDelivers(acts: seq<Action>, events: set<Event>) {
    forall i :: 0 <= i < |acts| && acts[i].Deliver? ==> acts[i].event in events
  }

  /** The run delivers the two events without a fault, overlaps their marks and ends with key and row at odds. */
  ghost predicate PartsKeyAndRow(rows: map<Device, Row>, online: map<Device, int>, acts: seq<Action>, x: Event,
      y: Event)
  {
    var s := Exec(Start(rows, online), acts);
    && FaultFree(acts) && OnlyDelivers(acts, {x, y}) && !MarksDoNotOverlap(Start(rows, online), acts, x.device)
    && Settled(s, x.device) && HasAcknowledgement(s, x) && HasAcknowledgement(s, y)
    && x.device in s.world.rows && !Agrees(s.world, x.device)
  }

  lemma EarlierOverlapsLater(rows: map<Device, Row>, online: map<Device, int>, x: Event, y: Event)
    requires Opposed(rows, x, y)
    ensures PartsKeyAndRow(rows, online, Overlapping(x, y), x, y)
  {
    OverlappingEnds(rows, online, x, y);
    OverlappingOverlaps(rows, online, x, y);
    OverlappingIsPlain(x, y);
    BothSettled(Exec(Start(rows, online), Overlapping(x, y)), x, y);
  }

  lemma PartingIsSymmetric(rows: map<Device, Row>, online: map<Device, int>, acts: seq<Action>, x: Event, y: Event)
    requires x.device == y.device && PartsKeyAndRow(rows, online, acts, y, x)
    ensures PartsKeyAndRow(rows, online, acts, x, y)
  {
    assert {x, y} == {y, x};
  }

  /**
   * Serial marks are needed by every pair of opposite events: whichever is the later one, and whatever row
   * and key were there, a run without a fault leaves everything acknowledged and key and row at odds.
   */
  lemma OverlapLeavesStaleKey(rows: map<Device, Row>, online: map<Device, int>, x: Event, y: Event)
    returns (acts: seq<Action>)
    requires x.device == y.device && Applies(rows, x) && Applies(rows, y)
    requires x.at != y.at && x.status != y.status
    ensures PartsKeyAndRow(rows, online, acts, x, y)
  {
    if x.at < y.at {
      acts := Overlapping(x, y);
      EarlierOverlapsLater(rows, online, x, y);
    } else {
      acts := Overlapping(y, x);
      EarlierOverlapsLater(rows, online, y, x);
      PartingIsSymmetric(rows, online, acts, x, y);
    }
  }
}
