/**
 * Requests to set properties or call a service: the request row is saved before the command goes out
 * over MQTT. The class part follows one call, the machine part interleaves and repeats deliveries.
 */
module CommandRequest {
  import opened Wrappers
  import opened Messaging
  import opened Json

  /** `at` is the parsed time of the envelope, if it parses. */
  datatype Request =
    | PropertySet(tenant: string, commandId: string, properties: Fields, at: Option<int>)
    | ServiceCall(tenant: string, commandId: string, serviceName: string, input: Fields, at: Option<int>)

  /** The conflict key of the request tables, one table a kind; the tenant is no part of it. */
  datatype Key = Key(propertySet: bool, commandId: string, at: int)

  predicate Savable(r: Request) {
    && r.commandId != ""
    && r.at.Some?
    && (r.PropertySet? ==> r.properties != map[])
    && (r.ServiceCall? ==> r.serviceName != "")
  }

  function KeyOf(r: Request): Key
    requires Savable(r)
  {
    Key(r.PropertySet?, r.commandId, r.at.value)
  }

  type Table = rows: seq<Request> | forall i :: 0 <= i < |rows| ==> Savable(rows[i])

  predicate HasKey(table: Table, key: Key) {
    exists i :: 0 <= i < |table| && KeyOf(table[i]) == key
  }

  /** An insert that does nothing on a key conflict. */
  function Inserted(table: Table, r: Request): Table
    requires Savable(r)
  {
    if HasKey(table, KeyOf(r)) then table else table + [r]
  }

  predicate UniqueKeys(table: Table) {
    forall i, j :: 0 <= i < j < |table| ==> KeyOf(table[i]) != KeyOf(table[j])
  }

  lemma InsertKeepsUnique(table: Table, r: Request)
    requires Savable(r) && UniqueKeys(table)
    ensures UniqueKeys(Inserted(table, r)) && HasKey(Inserted(table, r), KeyOf(r)) && table <= Inserted(table, r)
  {
    if !HasKey(table, KeyOf(r)) {
      assert KeyOf(Inserted(table, r)[|table|]) == KeyOf(r);
    }
  }

  /** A row conflicts exactly when it is of the same kind and has the same command id and time. */
  lemma ConflictsExactly(table: Table, r: Request)
    requires Savable(r)
    ensures HasKey(table, KeyOf(r)) <==>
            exists i :: 0 <= i < |table| && SameCommand(table[i], r)
  {
    forall i | 0 <= i < |table|
      ensures KeyOf(table[i]) == KeyOf(r) <==> SameCommand(table[i], r)
    {
    }
    if i :| 0 <= i < |table| && KeyOf(table[i]) == KeyOf(r) {
      assert SameCommand(table[i], r);
    }
    if i :| 0 <= i < |table| && SameCommand(table[i], r) {
      assert KeyOf(table[i]) == KeyOf(r);
    }
  }

  /** Kind, command id and time; whose request it is does not count. */
  predicate SameCommand(one: Request, other: Request) {
    one.PropertySet? == other.PropertySet? && one.commandId == other.commandId && one.at == other.at
  }

  /** A saved request is stored itself unless one of the same kind, id and time was there, and nothing is lost. */
  lemma SavedIsStored(table: Table, r: Request)
    requires Savable(r)
    ensures forall i :: 0 <= i < |table| ==> table[i] in Inserted(table, r)
    ensures r in Inserted(table, r) || exists i :: 0 <= i < |table| && SameCommand(table[i], r)
    ensures (forall i :: 0 <= i < |table| ==> !SameCommand(table[i], r)) ==> Inserted(table, r) == table + [r]
  {
    ConflictsExactly(table, r);
    assert forall i :: 0 <= i < |table| ==> (table + [r])[i] == table[i];
    assert (table + [r])[|table|] == r;
  }

  lemma KeysLast(table: Table, more: Table, key: Key)
    requires table <= more && HasKey(table, key)
    ensures HasKey(more, key)
  {
    var i :| 0 <= i < |table| && KeyOf(table[i]) == key;
    assert more[i] == table[i];
  }

  // ----- one call -----

  datatype World = World(table: Table, published: seq<Request>)

  /** The effect and the decision of one undisturbed call of the handler. */
  function Call(w: World, r: Request, save: Outcome, publish: Outcome): (World, Decision) {
    if !Savable(r) then (w, Retry)
    else
      var w1 := if TookEffect(save) then w.(table := Inserted(w.table, r)) else w;
      if !save.Done? then (w1, Retry)
      else
        var w2 := if TookEffect(publish) then w1.(published := w1.published + [r]) else w1;
        (w2, if publish.Done? then Ack else Retry)
  }

  class RequestStore {
    var table: Table

    method Save(r: Request, save: Outcome) returns (saved: bool)
      modifies this
      ensures table == if Savable(r) && TookEffect(save) then Inserted(old(table), r) else old(table)
      ensures saved <==> Savable(r) && save.Done?
    {
      if r.commandId == "" {
        return false;
      }
      match r {
        case PropertySet(_, _, properties, _) => if properties == map[] { return false; }
        case ServiceCall(_, _, serviceName, _, _) => if serviceName == "" { return false; }
      }
      if r.at.None? {
        return false;
      }
      if !save.NotDone? && !HasKey(table, KeyOf(r)) {
        table := table + [r];
      }
      return save.Done?;
    }
  }

  /** Anything that did not report success is retried, nothing is dropped, and only a full success is acknowledged. */
  lemma FailureRetries(w: World, r: Request, save: Outcome, publish: Outcome)
    ensures Call(w, r, save, publish).1 == Ack <==> Savable(r) && save.Done? && publish.Done?
    ensures Call(w, r, save, publish).1 != Ack ==> Call(w, r, save, publish).1 == Retry
  {
  }

  /** A request lacks its id, a time that parses, or its content: properties to set, or the name of a service. */
  lemma UnsavableExactly(r: Request)
    ensures !Savable(r) <==>
            || r.commandId == "" || r.at.None?
            || (r.PropertySet? && |r.properties| == 0)
            || (r.ServiceCall? && r.serviceName == "")
  {
  }

  /** What reaches the handler. */
  datatype IncomingRequest = NoRequestEnvelope | BadRequestPayload | DecodedRequest(request: Request)

  class RequestHandler {
    const writer: RequestStore
    var published: seq<Request>

    constructor (writer: RequestStore)
      ensures this.writer == writer && published == []
    {
      this.writer := writer;
      published := [];
    }

    ghost function State(): World
      reads this, writer
    {
      World(writer.table, published)
    }

    method Handle(cancelled: bool, incoming: IncomingRequest, save: Outcome,
        publish: Outcome) returns (decision: Decision)
      modifies this, writer
      ensures
        if cancelled then decision == Retry && State() == old(State())
        else if !incoming.DecodedRequest? then decision == Drop && State() == old(State())
        else (State(), decision) == Call(old(State()), incoming.request, save, publish)
    {
      if cancelled {
        return Retry;
      }
      if !incoming.DecodedRequest? {
        return Drop;
      }
      var saved := writer.Save(incoming.request, save);
      if !saved {
        return Retry;
      }
      if !publish.NotDone? {
        published := published + [incoming.request];
      }
      return if publish.Done? then Ack else Retry;
    }
  }

  // ----- interleaved and repeated deliveries -----

  datatype Stage = InCall | Saved | Returned(decision: Decision) | Acked | Gone

  /** `calls` counts handler calls, `publishes` attempts to publish. */
  datatype Delivery = Delivery(request: Request, stage: Stage, calls: nat, publishes: nat)

  datatype Machine = Machine(world: World, deliveries: map<nat, Delivery>)

  datatype Move =
    | Deliver(id: nat, request: Request)
    | SaveRow(id: nat, outcome: Outcome)
    | PublishCommand(id: nat, outcome: Outcome)
    | RetryCall(id: nat)
    | Complete(id: nat, ok: bool)
    | Crash(id: nat)

  predicate At(m: Machine, id: nat, stage: Stage) {
    id in m.deliveries && m.deliveries[id].stage == stage
  }

  function Put(m: Machine, id: nat, d: Delivery): Machine {
    m.(deliveries := m.deliveries[id := d])
  }

  function SaveStep(m: Machine, id: nat, outcome: Outcome): Machine
    requires id in m.deliveries
  {
    var d := m.deliveries[id];
    if !Savable(d.request) || outcome.NotDone? then Put(m, id, d.(stage := Returned(Retry)))
    else
      var t := m.(world := m.world.(table := Inserted(m.world.table, d.request)));
      Put(t, id, d.(stage := if outcome.Done? then Saved else Returned(Retry)))
  }

  function PublishStep(m: Machine, id: nat, outcome: Outcome): Machine
    requires id in m.deliveries
  {
    var d := m.deliveries[id].(publishes := m.deliveries[id].publishes + 1);
    var t := if TookEffect(outcome) then m.(world := m.world.(published := m.world.published + [d.request])) else m;
    Put(t, id, d.(stage := Returned(if outcome.Done? then Ack else Retry)))
  }

  /** One atomic step; an impossible move changes nothing. */
  function Step(maxRetries: nat, m: Machine, a: Move): Machine {
    match a
    case Deliver(id, r) => if id in m.deliveries then m else Put(m, id, Delivery(r, InCall, 1, 0))
    case SaveRow(id, outcome) => if At(m, id, InCall) then SaveStep(m, id, outcome) else m
    case PublishCommand(id, outcome) => if At(m, id, Saved) then PublishStep(m, id, outcome) else m
    case RetryCall(id) =>
      if At(m, id, Returned(Retry)) && m.deliveries[id].calls <= maxRetries then
        Put(m, id, m.deliveries[id].(stage := InCall, calls := m.deliveries[id].calls + 1))
      else m
    case Complete(id, ok) =>
      if At(m, id, Returned(Ack)) then Put(m, id, m.deliveries[id].(stage := if ok then Acked else Gone))
      else if At(m, id, Returned(Retry)) then Put(m, id, m.deliveries[id].(stage := Gone))
      else m
    case Crash(id) =>
      if id in m.deliveries && !m.deliveries[id].stage.Acked? then Put(m, id, m.deliveries[id].(stage := Gone)) else m
  }

  function Exec(maxRetries: nat, moves: seq<Move>): Machine {
    if moves == [] then Machine(World([], []), map[])
    else Step(maxRetries, Exec(maxRetries, moves[..|moves| - 1]), moves[|moves| - 1])
  }

  // ----- what every run keeps -----

  ghost predicate HasRow(m: Machine, r: Request) {
    Savable(r) && HasKey(m.world.table, KeyOf(r))
  }

  ghost predicate DeliveryFits(maxRetries: nat, m: Machine, d: Delivery) {
    && d.calls <= 1 + maxRetries
    && d.publishes <= d.calls
    && (d.stage.InCall? || d.stage.Saved? ==> d.publishes < d.calls)
    && (d.stage.Saved? ==> HasRow(m, d.request))
    && (d.stage == Returned(Ack) || d.stage.Acked? ==> HasRow(m, d.request) && d.request in m.world.published)
  }

  ghost predicate PublishedHaveRows(m: Machine) {
    forall r :: r in m.world.published ==> HasRow(m, r)
  }

  ghost predicate Inv(maxRetries: nat, m: Machine) {
    && UniqueKeys(m.world.table)
    && PublishedHaveRows(m)
    && (forall id :: id in m.deliveries ==> DeliveryFits(maxRetries, m, m.deliveries[id]))
  }

  lemma TableOnlyGrows(maxRetries: nat, m: Machine, a: Move)
    ensures m.world.table <= Step(maxRetries, m, a).world.table
    ensures m.world.published <= Step(maxRetries, m, a).world.published
  {
  }

  lemma RowsLast(maxRetries: nat, m: Machine, a: Move, r: Request)
    requires HasRow(m, r)
    ensures HasRow(Step(maxRetries, m, a), r)
  {
    TableOnlyGrows(maxRetries, m, a);
    KeysLast(m.world.table, Step(maxRetries, m, a).world.table, KeyOf(r));
  }

  lemma StepKeepsTable(maxRetries: nat, m: Machine, a: Move)
    requires Inv(maxRetries, m)
    ensures UniqueKeys(Step(maxRetries, m, a).world.table)
  {
    if a.SaveRow? && At(m, a.id, InCall) && Savable(m.deliveries[a.id].request) {
      InsertKeepsUnique(m.world.table, m.deliveries[a.id].request);
    }
  }

  lemma StepKeepsPublished(maxRetries: nat, m: Machine, a: Move)
    requires Inv(maxRetries, m)
    ensures PublishedHaveRows(Step(maxRetries, m, a))
  {
    var t := Step(maxRetries, m, a);
    forall r | r in t.world.published
      ensures HasRow(t, r)
    {
      if r !in m.world.published {
        assert DeliveryFits(maxRetries, m, m.deliveries[a.id]);
      }
      RowsLast(maxRetries, m, a, r);
    }
  }

  /** The move is about this delivery. */
  predicate Concerns(a: Move, id: nat) {
    a.id == id
  }

  lemma OtherDeliveryKept(maxRetries: nat, m: Machine, a: Move, id: nat)
    requires !Concerns(a, id) && id in Step(maxRetries, m, a).deliveries
    ensures id in m.deliveries && Step(maxRetries, m, a).deliveries[id] == m.deliveries[id]
  {
  }

  lemma StillFits(maxRetries: nat, m: Machine, a: Move, d: Delivery)
    requires DeliveryFits(maxRetries, m, d)
    ensures DeliveryFits(maxRetries, Step(maxRetries, m, a), d)
  {
    TableOnlyGrows(maxRetries, m, a);
    if HasRow(m, d.request) {
      RowsLast(maxRetries, m, a, d.request);
    }
  }

  lemma SaveKeepsDelivery(maxRetries: nat, m: Machine, id: nat, outcome: Outcome)
    requires UniqueKeys(m.world.table) && At(m, id, InCall) && DeliveryFits(maxRetries, m, m.deliveries[id])
    ensures
      var t := Step(maxRetries, m, SaveRow(id, outcome));
      id in t.deliveries && DeliveryFits(maxRetries, t, t.deliveries[id])
  {
    if Savable(m.deliveries[id].request) {
      InsertKeepsUnique(m.world.table, m.deliveries[id].request);
    }
  }

  lemma StepKeepsDelivery(maxRetries: nat, m: Machine, a: Move, id: nat)
    requires UniqueKeys(m.world.table) && id in Step(maxRetries, m, a).deliveries
    requires id in m.deliveries ==> DeliveryFits(maxRetries, m, m.deliveries[id])
    ensures DeliveryFits(maxRetries, Step(maxRetries, m, a), Step(maxRetries, m, a).deliveries[id])
  {
    if !Concerns(a, id) {
      OtherDeliveryKept(maxRetries, m, a, id);
      StillFits(maxRetries, m, a, m.deliveries[id]);
    } else if a.SaveRow? && At(m, id, InCall) {
      SaveKeepsDelivery(maxRetries, m, id, a.outcome);
    } else if id in m.deliveries {
      StillFits(maxRetries, m, a, m.deliveries[id]);
    }
  }

  lemma {:induction false} RunKeepsInv(maxRetries: nat, moves: seq<Move>)
    ensures Inv(maxRetries, Exec(maxRetries, moves))
  {
    if moves != [] {
      var before, a := moves[..|moves| - 1], moves[|moves| - 1];
      RunKeepsInv(maxRetries, before);
      var m := Exec(maxRetries, before);
      StepKeepsTable(maxRetries, m, a);
      StepKeepsPublished(maxRetries, m, a);
      forall id | id in Step(maxRetries, m, a).deliveries
        ensures DeliveryFits(maxRetries, Step(maxRetries, m, a), Step(maxRetries, m, a).deliveries[id])
      {
        StepKeepsDelivery(maxRetries, m, a, id);
      }
    }
  }

  /** Whatever goes out over MQTT has a row of its kind, id and time before it goes out, and no two rows share them. */
  lemma SavedBeforePublished(maxRetries: nat, moves: seq<Move>, a: Move, r: Request)
    requires r in Step(maxRetries, Exec(maxRetries, moves), a).world.published
    ensures
      var table := Exec(maxRetries, moves).world.table;
      && (exists i :: 0 <= i < |table| && SameCommand(table[i], r))
      && (forall i, j :: 0 <= i < j < |table| ==> !SameCommand(table[i], table[j]))
  {
    RunKeepsInv(maxRetries, moves);
    var m := Exec(maxRetries, moves);
    if r !in m.world.published {
      assert DeliveryFits(maxRetries, m, m.deliveries[a.id]);
    }
    ConflictsExactly(m.world.table, r);
  }

  /** How often a delivery came to publishing. */
  function Attempts(maxRetries: nat, moves: seq<Move>, id: nat): nat {
    if moves == [] then 0
    else
      var before, a := moves[..|moves| - 1], moves[|moves| - 1];
      Attempts(maxRetries, before, id) +
      if a.PublishCommand? && a.id == id && At(Exec(maxRetries, before), id, Saved) then 1 else 0
  }

  lemma {:induction false} AttemptsAreCounted(maxRetries: nat, moves: seq<Move>, id: nat)
    ensures
      var m := Exec(maxRetries, moves);
      Attempts(maxRetries, moves, id) == if id in m.deliveries then m.deliveries[id].publishes else 0
  {
    if moves != [] {
      AttemptsAreCounted(maxRetries, moves[..|moves| - 1], id);
    }
  }

  /** An acknowledged request has its row, was published, and took at most `1 + maxRetries` publications. */
  lemma AcknowledgedIsSavedAndPublished(maxRetries: nat, moves: seq<Move>, id: nat)
    requires id in Exec(maxRetries, moves).deliveries
    ensures
      var m := Exec(maxRetries, moves);
      var d := m.deliveries[id];
      && Attempts(maxRetries, moves, id) <= 1 + maxRetries
      && (d.stage.Acked? ==>
           && Savable(d.request) && d.request in m.world.published
           && exists i :: 0 <= i < |m.world.table| && SameCommand(m.world.table[i], d.request))
  {
    RunKeepsInv(maxRetries, moves);
    AttemptsAreCounted(maxRetries, moves, id);
    var m := Exec(maxRetries, moves);
    assert DeliveryFits(maxRetries, m, m.deliveries[id]);
    if m.deliveries[id].stage.Acked? {
      ConflictsExactly(m.world.table, m.deliveries[id].request);
    }
  }

  // ----- is it its own row? -----

  ghost predicate OwnRow(m: Machine, r: Request) {
    r in m.world.table
  }

  /** Among the requests that may be delivered, kind, command id and time determine the request. */
  ghost predicate KeysIdentify(deliverable: Request -> bool) {
    forall r, q :: deliverable(r) && deliverable(q) && Savable(r) && Savable(q) && SameCommand(r, q) ==> r == q
  }

  ghost predicate OnlyDelivers(moves: seq<Move>, deliverable: Request -> bool) {
    forall i :: 0 <= i < |moves| && moves[i].Deliver? ==> deliverable(moves[i].request)
  }

  ghost predicate Delivered(moves: seq<Move>, r: Request) {
    exists i :: 0 <= i < |moves| && moves[i].Deliver? && moves[i].request == r
  }

  ghost predicate OnlyDelivered(m: Machine, moves: seq<Move>) {
    && (forall i :: 0 <= i < |m.world.table| ==> Delivered(moves, m.world.table[i]))
    && (forall id :: id in m.deliveries ==> Delivered(moves, m.deliveries[id].request))
    && (forall r :: r in m.world.published ==> Delivered(moves, r))
  }

  lemma DeliveredBefore(moves: seq<Move>, n: nat, r: Request)
    requires n <= |moves| && Delivered(moves[..n], r)
    ensures Delivered(moves, r)
  {
    var i :| 0 <= i < n && moves[..n][i].Deliver? && moves[..n][i].request == r;
    assert moves[i].Deliver?;
  }

  lemma {:induction false} RunDeliversOnly(maxRetries: nat, moves: seq<Move>)
    ensures OnlyDelivered(Exec(maxRetries, moves), moves)
  {
    if moves != [] {
      var n := |moves| - 1;
      RunDeliversOnly(maxRetries, moves[..n]);
      var m, t := Exec(maxRetries, moves[..n]), Exec(maxRetries, moves);
      forall r | Delivered(moves[..n], r)
        ensures Delivered(moves, r)
      {
        DeliveredBefore(moves, n, r);
      }
      if moves[n].Deliver? {
        assert Delivered(moves, moves[n].request);
      }
      forall i | 0 <= i < |t.world.table|
        ensures Delivered(moves, t.world.table[i])
      {
        if i < |m.world.table| {
          TableOnlyGrows(maxRetries, m, moves[n]);
          assert t.world.table[i] == m.world.table[i];
        } else {
          assert t.world.table[i] == m.deliveries[moves[n].id].request;
        }
      }
    }
  }

  /** What goes out over MQTT is what the table holds. */
  ghost predicate StoresWhatItPublishes(m: Machine) {
    forall r :: r in m.world.published ==> OwnRow(m, r)
  }

  lemma DeliveredIsDeliverable(moves: seq<Move>, deliverable: Request -> bool, r: Request)
    requires OnlyDelivers(moves, deliverable) && Delivered(moves, r)
    ensures deliverable(r)
  {
  }

  lemma IdentifiedRowIsOwn(table: Table, deliverable: Request -> bool, r: Request)
    requires KeysIdentify(deliverable) && deliverable(r) && Savable(r) && HasKey(table, KeyOf(r))
    requires forall i :: 0 <= i < |table| ==> deliverable(table[i])
    ensures r in table
  {
    ConflictsExactly(table, r);
    var i :| 0 <= i < |table| && SameCommand(table[i], r);
    assert table[i] == r;
  }

  lemma PublishedIsStored(maxRetries: nat, moves: seq<Move>, deliverable: Request -> bool)
    requires KeysIdentify(deliverable) && OnlyDelivers(moves, deliverable)
    ensures StoresWhatItPublishes(Exec(maxRetries, moves))
  {
    var m := Exec(maxRetries, moves);
    RunKeepsInv(maxRetries, moves);
    RunDeliversOnly(maxRetries, moves);
    forall r | Delivered(moves, r)
      ensures deliverable(r)
    {
      DeliveredIsDeliverable(moves, deliverable, r);
    }
    forall r | r in m.world.published
      ensures OwnRow(m, r)
    {
      IdentifiedRowIsOwn(m.world.table, deliverable, r);
    }
  }

  lemma ExecAppend(maxRetries: nat, moves: seq<Move>, a: Move)
    ensures Exec(maxRetries, moves + [a]) == Step(maxRetries, Exec(maxRetries, moves), a)
  {
    assert (moves + [a])[..|moves|] == moves;
  }

  /** A delivery handled without a fault. */
  function Handled(id: nat, r: Request): seq<Move> {
    [Deliver(id, r)] + [SaveRow(id, Done)] + [PublishCommand(id, Done)] + [Complete(id, true)]
  }

  lemma HandledEnds(maxRetries: nat, moves: seq<Move>, id: nat, r: Request)
    requires id !in Exec(maxRetries, moves).deliveries && Savable(r)
    ensures
      var m, t := Exec(maxRetries, moves), Exec(maxRetries, moves + Handled(id, r));
      && t.world == World(Inserted(m.world.table, r), m.world.published + [r])
      && t.deliveries == m.deliveries[id := Delivery(r, Acked, 1, 1)]
  {
    var m := Exec(maxRetries, moves);
    var p1 := moves + [Deliver(id, r)];
    var p2 := p1 + [SaveRow(id, Done)];
    var p3 := p2 + [PublishCommand(id, Done)];
    ExecAppend(maxRetries, moves, Deliver(id, r));
    ExecAppend(maxRetries, p1, SaveRow(id, Done));
    ExecAppend(maxRetries, p2, PublishCommand(id, Done));
    ExecAppend(maxRetries, p3, Complete(id, true));
    assert moves + Handled(id, r) == p3 + [Complete(id, true)];
    HandledSteps(maxRetries, m, id, r);
  }

  lemma HandledSteps(maxRetries: nat, m: Machine, id: nat, r: Request)
    requires id !in m.deliveries && Savable(r)
    ensures
      var m1 := Step(maxRetries, m, Deliver(id, r));
      var m2 := Step(maxRetries, m1, SaveRow(id, Done));
      var m3 := Step(maxRetries, m2, PublishCommand(id, Done));
      Step(maxRetries, m3, Complete(id, true)) ==
      Machine(World(Inserted(m.world.table, r), m.world.published + [r]), m.deliveries[id := Delivery(r, Acked, 1, 1)])
  {
    var m1 := Step(maxRetries, m, Deliver(id, r));
    assert m1 == Put(m, id, Delivery(r, InCall, 1, 0));
    var m2 := Step(maxRetries, m1, SaveRow(id, Done));
    assert m2.deliveries == m.deliveries[id := Delivery(r, Saved, 1, 0)];
    var m3 := Step(maxRetries, m2, PublishCommand(id, Done));
    assert m3.deliveries == m.deliveries[id := Delivery(r, Returned(Ack), 1, 1)];
  }

  /** Two requests of one kind, id and time, handled without a fault one after the other. */
  lemma SharedKeyPublishesUnstored(maxRetries: nat, r: Request, q: Request)
    requires Savable(r) && Savable(q) && SameCommand(r, q) && r != q
    ensures !StoresWhatItPublishes(Exec(maxRetries, Handled(0, r) + Handled(1, q)))
  {
    HandledEnds(maxRetries, [], 0, r);
    assert [] + Handled(0, r) == Handled(0, r);
    HandledEnds(maxRetries, Handled(0, r), 1, q);
    var m := Exec(maxRetries, Handled(0, r) + Handled(1, q));
    assert Inserted([], r) == [r] && KeyOf([r][0]) == KeyOf(q);
    assert m.world.table == [r] && q in m.world.published && !OwnRow(m, q);
  }

  /**
   * Every run stores what it publishes exactly when, among the requests that may be delivered, of
   * whatever tenants, command id and time identify the request.
   */
  lemma PublishedIsStoredExactly(maxRetries: nat, deliverable: Request -> bool)
    ensures (forall moves :: OnlyDelivers(moves, deliverable) ==> StoresWhatItPublishes(Exec(maxRetries, moves))) <==>
            KeysIdentify(deliverable)
  {
    if KeysIdentify(deliverable) {
      forall moves | OnlyDelivers(moves, deliverable)
        ensures StoresWhatItPublishes(Exec(maxRetries, moves))
      {
        PublishedIsStored(maxRetries, moves, deliverable);
      }
    } else {
      var r, q :| deliverable(r) && deliverable(q) && Savable(r) && Savable(q) && SameCommand(r, q) && r != q;
      SharedKeyPublishesUnstored(maxRetries, r, q);
      assert OnlyDelivers(Handled(0, r) + Handled(1, q), deliverable);
    }
  }

  /** Some run acknowledges a delivery of the request. */
  ghost predicate CanBeAcknowledged(maxRetries: nat, r: Request) {
    exists moves, id :: AcknowledgedIn(maxRetries, moves, id, r)
  }

  ghost predicate AcknowledgedIn(maxRetries: nat, moves: seq<Move>, id: nat, r: Request) {
    var m := Exec(maxRetries, moves);
    id in m.deliveries && m.deliveries[id].request == r && m.deliveries[id].stage.Acked?
  }

  /** A request can be acknowledged exactly when it can be saved. */
  lemma AcknowledgeableExactly(maxRetries: nat, r: Request)
    ensures CanBeAcknowledged(maxRetries, r) <==> Savable(r)
  {
    if moves, id :| AcknowledgedIn(maxRetries, moves, id, r) {
      AcknowledgedIsSavedAndPublished(maxRetries, moves, id);
    }
    if Savable(r) {
      HandledEnds(maxRetries, [], 0, r);
      assert AcknowledgedIn(maxRetries, [] + Handled(0, r), 0, r);
    }
  }

  /** A request that cannot be saved is retried until given up; it is never published nor acknowledged. */
  lemma UnsavableNeverSucceeds(maxRetries: nat, moves: seq<Move>, id: nat)
    requires id in Exec(maxRetries, moves).deliveries && !Savable(Exec(maxRetries, moves).deliveries[id].request)
    ensures
      var m := Exec(maxRetries, moves);
      var d := m.deliveries[id];
      d.request !in m.world.published && d.stage in [InCall, Returned(Retry), Gone]
  {
    RunKeepsInv(maxRetries, moves);
    UnsavableStages(maxRetries, moves, id);
  }

  lemma {:induction false} UnsavableStages(maxRetries: nat, moves: seq<Move>, id: nat)
    requires id in Exec(maxRetries, moves).deliveries && !Savable(Exec(maxRetries, moves).deliveries[id].request)
    ensures Exec(maxRetries, moves).deliveries[id].stage in [InCall, Returned(Retry), Gone]
  {
    if moves != [] {
      var before := moves[..|moves| - 1];
      if id in Exec(maxRetries, before).deliveries {
        UnsavableStages(maxRetries, before, id);
      }
    }
  }

  /** An undisturbed call of the handler is a run of the machine's two steps. */
  lemma CallIsARun(maxRetries: nat, m: Machine, id: nat, save: Outcome, publish: Outcome)
    requires At(m, id, InCall)
    ensures
      var t := Step(maxRetries, Step(maxRetries, m, SaveRow(id, save)), PublishCommand(id, publish));
      var (w, decision) := Call(m.world, m.deliveries[id].request, save, publish);
      t.world == w && At(t, id, Returned(decision))
  {
  }

  /** A delivery is over once it is completed; it counts as acknowledged only if that call succeeded on an Ack. */
  lemma CompletionIsAStep(maxRetries: nat, m: Machine, id: nat, decision: Decision, ok: bool)
    requires At(m, id, Returned(decision)) && (decision == Ack || decision == Retry)
    ensures At(Step(maxRetries, m, Complete(id, ok)), id, if decision == Ack && ok then Acked else Gone)
    ensures Step(maxRetries, m, Complete(id, ok)).world == m.world
  {
  }

  /** A call that asked for a retry and one more call are a run, the second starting where the first ended. */
  lemma RetriedCallIsARun(
      maxRetries: nat, m: Machine, id: nat, save: Outcome, publish: Outcome, save2: Outcome, publish2: Outcome)
    requires At(m, id, InCall) && m.deliveries[id].calls <= maxRetries
    requires Call(m.world, m.deliveries[id].request, save, publish).1 == Retry
    ensures
      var r := m.deliveries[id].request;
      var m1 := Step(maxRetries, Step(maxRetries, m, SaveRow(id, save)), PublishCommand(id, publish));
      var m2 := Step(maxRetries, m1, RetryCall(id));
      var t := Step(maxRetries, Step(maxRetries, m2, SaveRow(id, save2)), PublishCommand(id, publish2));
      var (w, decision) := Call(Call(m.world, r, save, publish).0, r, save2, publish2);
      t.world == w && At(t, id, Returned(decision))
  {
    CallIsARun(maxRetries, m, id, save, publish);
    var m1 := Step(maxRetries, Step(maxRetries, m, SaveRow(id, save)), PublishCommand(id, publish));
    CallKeepsCount(maxRetries, m, id, save, publish);
    CallIsARun(maxRetries, Step(maxRetries, m1, RetryCall(id)), id, save2, publish2);
  }

  lemma CallKeepsCount(maxRetries: nat, m: Machine, id: nat, save: Outcome, publish: Outcome)
    requires At(m, id, InCall)
    ensures
      var t := Step(maxRetries, Step(maxRetries, m, SaveRow(id, save)), PublishCommand(id, publish));
      && id in t.deliveries
      && t.deliveries[id].calls == m.deliveries[id].calls && t.deliveries[id].request == m.deliveries[id].request
  {
  }
}
