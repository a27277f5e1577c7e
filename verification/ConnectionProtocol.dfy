/**
 * Connect and disconnect events: a guarded row update, a Redis write, a publication. The class part
 * follows one call; the machine part interleaves the steps of any number of calls.
 */
module ConnectionProtocol {
  import opened Wrappers
  import opened Messaging

  datatype Device = Device(tenant: string, id: string)

  datatype Status = Online | Offline

  /** A connected (`Online`) or disconnected (`Offline`) event; `at` is its time as the database keeps it. */
  datatype Event = Event(id: string, device: Device, at: int, status: Status)

  datatype Row = Row(status: Status, lastSeen: Option<int>)

  /** The guard of the row update. */
  predicate Admits(row: Row, at: int) {
    row.lastSeen.None? || row.lastSeen.value <= at
  }

  predicate Applies(rows: map<Device, Row>, e: Event) {
    e.device in rows && Admits(rows[e.device], e.at)
  }

  function Updated(rows: map<Device, Row>, e: Event): map<Device, Row> {
    if Applies(rows, e) then rows[e.device := Row(e.status, Some(e.at))] else rows
  }

  /** The online key is set for a connected device and deleted for a disconnected one. */
  function Cached(online: map<Device, int>, e: Event): map<Device, int> {
    match e.status
    case Online => online[e.device := e.at]
    case Offline => online - {e.device}
  }

  // ----- one call -----

  datatype World = World(rows: map<Device, Row>, online: map<Device, int>, published: seq<Event>)

  datatype Faults = Faults(update: Outcome, cache: Outcome, publish: Outcome)

  /** The effect and the decision of one undisturbed call of the handler. */
  function Call(w: World, e: Event, f: Faults): (World, Decision) {
    var w1 := if TookEffect(f.update) then w.(rows := Updated(w.rows, e)) else w;
    if !f.update.Done? then (w1, Retry)
    else if !Applies(w.rows, e) then (w1, Ack)
    else
      var w2 := if TookEffect(f.cache) then w1.(online := Cached(w1.online, e)) else w1;
      if !f.cache.Done? then (w2, Retry)
      else
        var w3 := if TookEffect(f.publish) then w2.(published := w2.published + [e]) else w2;
        (w3, if f.publish.Done? then Ack else Retry)
  }

  /** A call is retried unless every attempt it had to make reported success, and nothing is ever dropped. */
  lemma FailureRetries(w: World, e: Event, f: Faults)
    ensures Call(w, e, f).1 == Ack <==>
            f.update.Done? && (Applies(w.rows, e) ==> f.cache.Done? && f.publish.Done?)
    ensures Call(w, e, f).1 != Ack ==> Call(w, e, f).1 == Retry
  {
  }

  /** An event counts unless the device is gone or was seen strictly later. */
  lemma AppliesExactly(rows: map<Device, Row>, e: Event)
    ensures Applies(rows, e) <==>
            e.device in rows && (rows[e.device].lastSeen == None || rows[e.device].lastSeen.value <= e.at)
  {
  }

  /** An acknowledged call that applies has left the row, the key and the publication of its event. */
  lemma AcknowledgedCallLeaves(w: World, e: Event, f: Faults)
    requires Applies(w.rows, e) && Call(w, e, f).1 == Ack
    ensures
      var after := Call(w, e, f).0;
      && after.rows == w.rows[e.device := Row(e.status, Some(e.at))]
      && (e.status == Online ==> e.device in after.online && after.online[e.device] == e.at)
      && (e.status == Offline ==> e.device !in after.online)
      && (forall other :: other != e.device ==>
           (other in after.online <==> other in w.online)
           && (other in w.online ==> after.online[other] == w.online[other]))
      && after.published == w.published + [e]
  {
  }

  datatype StoreError = ContextDone | UpdateFailed | CacheFailed

  class ConnectionStore {
    var rows: map<Device, Row>
    var online: map<Device, int>

    method UpdateStatus(e: Event, update: Outcome) returns (applied: Result<bool, StoreError>)
      modifies this`rows
      ensures rows == if TookEffect(update) then Updated(old(rows), e) else old(rows)
      ensures applied == if update.Done? then Success(Applies(old(rows), e)) else Failure(UpdateFailed)
    {
      var matched := e.device in rows && (rows[e.device].lastSeen.None? || rows[e.device].lastSeen.value <= e.at);
      if update.NotDone? {
        return Failure(UpdateFailed);
      }
      if matched {
        rows := rows[e.device := Row(e.status, Some(e.at))];
      }
      return if update.Done? then Success(matched) else Failure(UpdateFailed);
    }

    /** `MarkOnline` or `MarkOffline`, by the kind of the event. */
    method Mark(cancelled: bool, e: Event, update: Outcome, cache: Outcome) returns (marked: Result<bool, StoreError>)
      modifies this
      ensures rows == if !cancelled && TookEffect(update) then Updated(old(rows), e) else old(rows)
      ensures online ==
              if !cancelled && update.Done? && Applies(old(rows), e) && TookEffect(cache)
              then Cached(old(online), e) else old(online)
      ensures marked.Success? <==> !cancelled && update.Done? && (Applies(old(rows), e) ==> cache.Done?)
      ensures marked.Success? ==> marked.value == Applies(old(rows), e)
    {
      if cancelled {
        return Failure(ContextDone);
      }
      var applied := UpdateStatus(e, update);
      if applied.Failure? {
        return Failure(applied.error);
      }
      if !applied.value {
        return Success(false);
      }
      if !cache.NotDone? {
        match e.status {
          case Online => online := online[e.device := e.at];
          case Offline => online := online - {e.device};
        }
      }
      return if cache.Done? then Success(true) else Failure(CacheFailed);
    }
  }

  /** What reaches the handler. */
  datatype Incoming = NoEnvelope | BadPayload | BadTime | Decoded(event: Event)

  class ConnectionHandler {
    const store: ConnectionStore
    var published: seq<Event>

    constructor (store: ConnectionStore)
      ensures this.store == store && published == []
    {
      this.store := store;
      published := [];
    }

    ghost function State(): World
      reads this, store
    {
      World(store.rows, store.online, published)
    }

    method Handle(cancelled: bool, incoming: Incoming, f: Faults) returns (decision: Decision)
      modifies this, store
      ensures
        if cancelled then decision == Retry && State() == old(State())
        else if !incoming.Decoded? then decision == Drop && State() == old(State())
        else (State(), decision) == Call(old(State()), incoming.event, f)
    {
      if cancelled {
        return Retry;
      }
      if !incoming.Decoded? {
        return Drop;
      }
      var e := incoming.event;
      var marked := store.Mark(false, e, f.update, f.cache);
      if marked.Failure? {
        return Retry;
      }
      if !marked.value {
        return Ack;
      }
      if !f.publish.NotDone? {
        published := published + [e];
      }
      if !f.publish.Done? {
        return Retry;
      }
      return Ack;
    }
  }

  // ----- interleaved calls -----

  datatype Phase =
    | Called                       // the handler runs, the row update comes next
    | RowUpdated                   // the row changed, the Redis write comes next
    | Marked                       // both done, the publication comes next
    | Decided(decision: Decision)  // the handler returned
    | Acknowledged                 // completed with an acknowledgement
    | Lost                         // completed without one, or the process died

  /** One delivery of an event. How often it may be retried is left open here. */
  datatype Delivery = Delivery(event: Event, phase: Phase)

  /** An update that matched no row, with the row it found. */
  datatype Sighting = Sighting(event: Event, found: Option<Row>)

  /** `commits` lists, in order, the events whose row transaction committed. */
  datatype State = State(
    world: World,
    deliveries: map<nat, Delivery>,
    sightings: set<Sighting>,
    commits: seq<Event>)

  datatype Action =
    | Deliver(id: nat, event: Event)
    | UpdateRow(id: nat, outcome: Outcome)
    | WriteCache(id: nat, outcome: Outcome)
    | Publish(id: nat, outcome: Outcome)
    | CallAgain(id: nat)
    | Complete(id: nat, ok: bool)
    | Die(id: nat)
    | InsertDevice(device: Device)
    | RemoveDevice(device: Device)

  predicate In(s: State, id: nat, phase: Phase) {
    id in s.deliveries && s.deliveries[id].phase == phase
  }

  function Move(s: State, id: nat, phase: Phase): State
    requires id in s.deliveries
  {
    s.(deliveries := s.deliveries[id := s.deliveries[id].(phase := phase)])
  }

  function UpdateStep(s: State, id: nat, outcome: Outcome): State
    requires id in s.deliveries
  {
    var e := s.deliveries[id].event;
    var rows := s.world.rows;
    if outcome.NotDone? then Move(s, id, Decided(Retry))
    else
      var t := s.(world := s.world.(rows := Updated(rows, e)), commits := s.commits + [e]);
      if outcome.ReplyLost? then Move(t, id, Decided(Retry))
      else if Applies(rows, e) then Move(t, id, RowUpdated)
      else
        var found := if e.device in rows then Some(rows[e.device]) else None;
        Move(t, id, Decided(Ack)).(sightings := s.sightings + {Sighting(e, found)})
  }

  function CacheStep(s: State, id: nat, outcome: Outcome): State
    requires id in s.deliveries
  {
    var e := s.deliveries[id].event;
    var t := if TookEffect(outcome) then s.(world := s.world.(online := Cached(s.world.online, e))) else s;
    Move(t, id, if outcome.Done? then Marked else Decided(Retry))
  }

  function PublishStep(s: State, id: nat, outcome: Outcome): State
    requires id in s.deliveries
  {
    var e := s.deliveries[id].event;
    var t := if TookEffect(outcome) then s.(world := s.world.(published := s.world.published + [e])) else s;
    Move(t, id, Decided(if outcome.Done? then Ack else Retry))
  }

  /** One atomic step of any delivery or of the device table; an impossible action changes nothing. */
  function Step(s: State, a: Action): State {
    match a
    case Deliver(id, e) =>
      if id in s.deliveries then s else s.(deliveries := s.deliveries[id := Delivery(e, Called)])
    case UpdateRow(id, outcome) => if In(s, id, Called) then UpdateStep(s, id, outcome) else s
    case WriteCache(id, outcome) => if In(s, id, RowUpdated) then CacheStep(s, id, outcome) else s
    case Publish(id, outcome) => if In(s, id, Marked) then PublishStep(s, id, outcome) else s
    case CallAgain(id) =>
      if In(s, id, Decided(Retry)) then Move(s, id, Called) else s
    case Complete(id, ok) =>
      if In(s, id, Decided(Ack)) then Move(s, id, if ok then Acknowledged else Lost)
      else if In(s, id, Decided(Retry)) then Move(s, id, Lost)
      else s
    case Die(id) => if id in s.deliveries && !s.deliveries[id].phase.Acknowledged? then Move(s, id, Lost) else s
    case InsertDevice(device) =>
      if device in s.world.rows then s
      else s.(world := s.world.(rows := s.world.rows[device := Row(Offline, None)]))
    case RemoveDevice(device) => s.(world := s.world.(rows := s.world.rows - {device}))
  }

  function Exec(s: State, acts: seq<Action>): State {
    if acts == [] then s else Step(Exec(s, acts[..|acts| - 1]), acts[|acts| - 1])
  }

  function Start(rows: map<Device, Row>, online: map<Device, int>): State {
    State(World(rows, online, []), map[], {}, [])
  }

  lemma ExecAppend(s: State, acts: seq<Action>, a: Action)
    ensures Exec(s, acts + [a]) == Step(Exec(s, acts), a)
  {
    assert (acts + [a])[..|acts|] == acts;
  }

  lemma {:induction false} ExecSplit(s: State, first: seq<Action>, second: seq<Action>)
    ensures Exec(s, first + second) == Exec(Exec(s, first), second)
    decreases |second|
  {
    if second == [] {
      assert first + second == first;
    } else {
      var init, a := second[..|second| - 1], second[|second| - 1];
      ExecSplit(s, first, init);
      assert first + second == (first + init) + [a];
      assert second == init + [a];
      ExecAppend(s, first + init, a);
      ExecAppend(Exec(s, first), init, a);
    }
  }

  /** An undisturbed call of the handler is a run of the machine's three steps. */
  lemma CallIsARun(s: State, id: nat, f: Faults)
    requires In(s, id, Called)
    ensures
      var t := Exec(s, [UpdateRow(id, f.update), WriteCache(id, f.cache), Publish(id, f.publish)]);
      id in t.deliveries &&
      (t.world, t.deliveries[id].phase) ==
      (Call(s.world, s.deliveries[id].event, f).0, Decided(Call(s.world, s.deliveries[id].event, f).1))
  {
    var a, b, c := UpdateRow(id, f.update), WriteCache(id, f.cache), Publish(id, f.publish);
    ExecAppend(s, [], a);
    ExecAppend(s, [a], b);
    ExecAppend(s, [a, b], c);
    assert [] + [a] == [a] && [a] + [b] == [a, b] && [a, b] + [c] == [a, b, c];
    assert Exec(s, []) == s;
  }

  function OneCall(id: nat, f: Faults): seq<Action> {
    [UpdateRow(id, f.update), WriteCache(id, f.cache), Publish(id, f.publish)]
  }

  /** A call that asked for a retry and one more call are a run, the second starting where the first ended. */
  lemma RetriedCallIsARun(s: State, id: nat, f: Faults, g: Faults)
    requires In(s, id, Called) && Call(s.world, s.deliveries[id].event, f).1 == Retry
    ensures
      var e := s.deliveries[id].event;
      var t := Exec(s, OneCall(id, f) + [CallAgain(id)] + OneCall(id, g));
      var (w, decision) := Call(Call(s.world, e, f).0, e, g);
      t.world == w && In(t, id, Decided(decision))
  {
    var s1 := Exec(s, OneCall(id, f));
    CallIsARun(s, id, f);
    CallKeepsEvent(s, id, f);
    var s2 := Exec(s, OneCall(id, f) + [CallAgain(id)]);
    ExecAppend(s, OneCall(id, f), CallAgain(id));
    assert In(s2, id, Called) && s2.world == s1.world;
    ExecSplit(s, OneCall(id, f) + [CallAgain(id)], OneCall(id, g));
    CallIsARun(s2, id, g);
  }

  lemma CallKeepsEvent(s: State, id: nat, f: Faults)
    requires id in s.deliveries
    ensures id in Exec(s, OneCall(id, f)).deliveries
    ensures Exec(s, OneCall(id, f)).deliveries[id].event == s.deliveries[id].event
  {
    var a, b, c := UpdateRow(id, f.update), WriteCache(id, f.cache), Publish(id, f.publish);
    ExecAppend(s, [], a);
    ExecAppend(s, [a], b);
    ExecAppend(s, [a, b], c);
    assert [] + [a] == [a] && [a] + [b] == [a, b] && [a, b] + [c] == [a, b, c];
    assert Exec(s, []) == s;
  }

  /** A delivery is over once it is completed; it counts as acknowledged only if that call succeeded on an Ack. */
  lemma CompletionIsAStep(s: State, id: nat, decision: Decision, ok: bool)
    requires In(s, id, Decided(decision)) && (decision == Ack || decision == Retry)
    ensures In(Step(s, Complete(id, ok)), id, if decision == Ack && ok then Acknowledged else Lost)
    ensures Step(s, Complete(id, ok)).world == s.world
  {
  }
}
