/** Convergence of the device row under duplicated and reordered events. */
module ConnectionRow {
  import opened Wrappers
  import opened Messaging
  import opened ConnectionProtocol

  // ----- the row never goes back -----

  predicate NotOlder(row: Row, later: Row) {
    row.lastSeen.Some? ==> later.lastSeen.Some? && row.lastSeen.value <= later.lastSeen.value
  }

  predicate Keeps(acts: seq<Action>, device: Device) {
    RemoveDevice(device) !in acts
  }

  lemma {:induction false} LastSeenNeverDecreases(s: State, acts: seq<Action>, device: Device)
    requires device in s.world.rows && Keeps(acts, device)
    ensures device in Exec(s, acts).world.rows
    ensures NotOlder(s.world.rows[device], Exec(s, acts).world.rows[device])
  {
    if acts != [] {
      var before, a := acts[..|acts| - 1], acts[|acts| - 1];
      LastSeenNeverDecreases(s, before, device);
      assert a in acts;
    }
  }

  // ----- the row is a replay of the committed events -----

  function Touched(row: Row, e: Event): Row {
    if Admits(row, e.at) then Row(e.status, Some(e.at)) else row
  }

  function Replay(row: Row, events: seq<Event>): Row {
    if events == [] then row else Touched(Replay(row, events[..|events| - 1]), events[|events| - 1])
  }

  function For(device: Device, events: seq<Event>): seq<Event> {
    if events == [] then []
    else
      var init, e := events[..|events| - 1], events[|events| - 1];
      if e.device == device then For(device, init) + [e] else For(device, init)
  }

  lemma ReplayOneMore(row: Row, events: seq<Event>, e: Event)
    ensures Replay(row, events + [e]) == Touched(Replay(row, events), e)
  {
    assert (events + [e])[..|events|] == events;
  }

  lemma ForOneMore(device: Device, events: seq<Event>, e: Event)
    ensures For(device, events + [e]) == if e.device == device then For(device, events) + [e] else For(device, events)
  {
    assert (events + [e])[..|events|] == events;
  }

  ghost predicate IsReplay(row: Row, s: State, device: Device) {
    device in s.world.rows && s.world.rows[device] == Replay(row, For(device, s.commits))
  }

  lemma UpdateKeepsReplay(row: Row, s: State, id: nat, outcome: Outcome, device: Device)
    requires IsReplay(row, s, device) && In(s, id, Called)
    ensures IsReplay(row, UpdateStep(s, id, outcome), device)
  {
    var e := s.deliveries[id].event;
    ForOneMore(device, s.commits, e);
    ReplayOneMore(row, For(device, s.commits), e);
  }

  lemma StepKeepsReplay(row: Row, s: State, a: Action, device: Device)
    requires IsReplay(row, s, device) && a != RemoveDevice(device)
    ensures IsReplay(row, Step(s, a), device)
  {
    if a.UpdateRow? && In(s, a.id, Called) {
      UpdateKeepsReplay(row, s, a.id, a.outcome, device);
    } else {
      assert Step(s, a).commits == s.commits;
    }
  }

  /** At every moment of a run the row is the replay of the device's committed events. */
  lemma {:induction false} RowIsReplay(rows: map<Device, Row>, online: map<Device, int>, acts: seq<Action>,
      device: Device)
    requires device in rows && Keeps(acts, device)
    ensures IsReplay(rows[device], Exec(Start(rows, online), acts), device)
  {
    if acts != [] {
      var before, a := acts[..|acts| - 1], acts[|acts| - 1];
      RowIsReplay(rows, online, before, device);
      assert a in acts;
      StepKeepsReplay(rows[device], Exec(Start(rows, online), before), a, device);
    }
  }

  // ----- what a replay amounts to -----

  /** `e` is among the events, none is later, and the row admits it. */
  ghost predicate Latest(row: Row, events: seq<Event>, e: Event) {
    e in events && Admits(row, e.at) && forall x :: x in events ==> x.at <= e.at
  }

  /** The replay keeps the row when every event is stale, and otherwise shows a latest event. */
  lemma {:induction false} ReplayShowsLatest(row: Row, events: seq<Event>)
    ensures (forall x :: x in events ==> !Admits(row, x.at)) ==> Replay(row, events) == row
    ensures (exists x :: x in events && Admits(row, x.at)) ==>
              exists e :: Latest(row, events, e) && Replay(row, events) == Row(e.status, Some(e.at))
  {
    if events != [] {
      var init, last := events[..|events| - 1], events[|events| - 1];
      ReplayShowsLatest(row, init);
      assert forall x :: x in events <==> x in init || x == last;
      if exists x :: x in init && Admits(row, x.at) {
        var e :| Latest(row, init, e) && Replay(row, init) == Row(e.status, Some(e.at));
        if e.at <= last.at {
          assert Latest(row, events, last);
        } else {
          assert Latest(row, events, e);
        }
      } else if Admits(row, last.at) {
        assert Latest(row, events, last);
      }
    }
  }

  ghost predicate SameEvents(es: seq<Event>, fs: seq<Event>) {
    forall x :: (x in es) == (x in fs)
  }

  /** The latest events, if the row admits them, agree on the status. */
  ghost predicate LatestAgree(row: Row, events: seq<Event>) {
    forall x, y :: Latest(row, events, x) && Latest(row, events, y) ==> x.status == y.status
  }

  ghost predicate OrderIndependent(row: Row, events: seq<Event>) {
    forall others :: SameEvents(events, others) ==> Replay(row, others) == Replay(row, events)
  }

  lemma AgreementFixesReplay(row: Row, es: seq<Event>, fs: seq<Event>)
    requires SameEvents(es, fs) && LatestAgree(row, es)
    ensures Replay(row, es) == Replay(row, fs)
  {
    ReplayShowsLatest(row, es);
    ReplayShowsLatest(row, fs);
    if exists x :: x in es && Admits(row, x.at) {
      var e :| Latest(row, es, e) && Replay(row, es) == Row(e.status, Some(e.at));
      var f :| Latest(row, fs, f) && Replay(row, fs) == Row(f.status, Some(f.at));
      assert Latest(row, es, f);
    }
  }

  lemma LatestCanBeLast(row: Row, events: seq<Event>, e: Event)
    requires Latest(row, events, e)
    ensures SameEvents(events, events + [e]) && Replay(row, events + [e]) == Row(e.status, Some(e.at))
  {
    ReplayOneMore(row, events, e);
    ReplayShowsLatest(row, events);
  }

  /** Order and duplication leave the row alone exactly when the latest admitted events agree on the status. */
  lemma OrderMattersExactly(row: Row, events: seq<Event>)
    ensures OrderIndependent(row, events) <==> LatestAgree(row, events)
  {
    if LatestAgree(row, events) {
      forall others | SameEvents(events, others)
        ensures Replay(row, others) == Replay(row, events)
      {
        AgreementFixesReplay(row, events, others);
      }
    } else {
      var x, y :| Latest(row, events, x) && Latest(row, events, y) && x.status != y.status;
      LatestCanBeLast(row, events, x);
      LatestCanBeLast(row, events, y);
    }
  }

  ghost predicate DistinctTimes(events: seq<Event>) {
    forall x, y :: x in events && y in events && x.at == y.at ==> x == y
  }

  /** Two runs that commit the same events of a device, at distinct times, end with the same row. */
  lemma RunsConverge(rows: map<Device, Row>, online: map<Device, int>, acts1: seq<Action>, acts2: seq<Action>,
      device: Device)
    requires device in rows && Keeps(acts1, device) && Keeps(acts2, device)
    requires
      var es := For(device, Exec(Start(rows, online), acts1).commits);
      var fs := For(device, Exec(Start(rows, online), acts2).commits);
      SameEvents(es, fs) && DistinctTimes(es)
    ensures
      var s := Exec(Start(rows, online), acts1);
      var t := Exec(Start(rows, online), acts2);
      device in s.world.rows && device in t.world.rows && s.world.rows[device] == t.world.rows[device]
  {
    RowIsReplay(rows, online, acts1, device);
    RowIsReplay(rows, online, acts2, device);
    var es := For(device, Exec(Start(rows, online), acts1).commits);
    var fs := For(device, Exec(Start(rows, online), acts2).commits);
    AgreementFixesReplay(rows[device], es, fs);
  }
}
