/** Registrations, broadcasts, writes and closings in any order. */
module RealtimeRuns {
  import opened Wrappers
  import opened Realtime

  /**
   * `inFlight` is the frame the write loop has taken and is writing, `lost` the one whose write failed,
   * after which the loop has stopped.
   */
  datatype Connection = Connection(
    tenants: seq<string>,
    queue: seq<Frame>,
    closed: bool,
    stopped: bool,
    inFlight: Option<Frame>,
    accepted: seq<Frame>,
    written: seq<Frame>,
    lost: seq<Frame>)

  /** A broadcast that has taken its targets and not yet served all of them. */
  datatype Sending = Sending(frame: Frame, targets: set<nat>)

  datatype State = State(
    byTenant: Index<nat>, registered: set<nat>, conns: map<nat, Connection>, sendings: map<nat, Sending>)

  datatype Action =
    | Connect(c: nat, tenants: seq<string>)
    | Register(c: nat)
    | Unregister(c: nat)
    | StartBroadcast(b: nat, tenant: string, message: string)
    | SendTo(b: nat, c: nat, lucky: bool)
    | TakeFrame(c: nat)
    | FinishWrite(c: nat, ok: bool)
    | StopWriting(c: nat)
    | Close(c: nat)

  const START := State(map[], {}, map[], map[])

  function Put(s: State, c: nat, conn: Connection): State {
    s.(conns := s.conns[c := conn])
  }

  function AfterSend(conn: Connection, frame: Frame, lucky: bool): Connection {
    var (queue, closed) := Sent(conn.queue, conn.closed, frame, lucky);
    conn.(
      queue := queue, closed := closed,
      accepted := if Queued(conn.queue, conn.closed, lucky) then conn.accepted + [frame] else conn.accepted)
  }

  function AfterTake(conn: Connection): Connection
    requires conn.queue != []
  {
    conn.(queue := conn.queue[1..], inFlight := Some(conn.queue[0]))
  }

  function AfterWrite(conn: Connection, ok: bool): Connection
    requires conn.inFlight.Some?
  {
    var done := conn.(inFlight := None);
    if ok then done.(written := conn.written + [conn.inFlight.value])
    else done.(lost := conn.lost + [conn.inFlight.value], closed := true, stopped := true)
  }

  /** The write loop is back at its choice and finds a frame. */
  predicate CanTake(conn: Connection) {
    !conn.stopped && conn.inFlight.None? && conn.queue != []
  }

  /** One atomic step; an impossible action changes nothing. */
  function Step(s: State, a: Action): State {
    match a
    case Connect(c, tenants) =>
      if c in s.conns then s else Put(s, c, Connection(tenants, [], false, false, None, [], [], []))
    case Register(c) =>
      if c !in s.conns then s
      else s.(byTenant := Added(s.byTenant, c, s.conns[c].tenants), registered := s.registered + {c})
    case Unregister(c) =>
      if c !in s.conns then s
      else s.(byTenant := Removed(s.byTenant, c, s.conns[c].tenants), registered := s.registered - {c})
    case StartBroadcast(b, tenant, message) =>
      if b in s.sendings || tenant == "" then s
      else s.(sendings := s.sendings[b := Sending(Frame(tenant, message), Bucket(s.byTenant, tenant))])
    case SendTo(b, c, lucky) =>
      if b in s.sendings && c in s.sendings[b].targets && c in s.conns then
        var sending := s.sendings[b];
        Put(s, c, AfterSend(s.conns[c], sending.frame, lucky)).(
          sendings := s.sendings[b := Sending(sending.frame, sending.targets - {c})])
      else s
    case TakeFrame(c) =>
      if c in s.conns && CanTake(s.conns[c]) then Put(s, c, AfterTake(s.conns[c])) else s
    case FinishWrite(c, ok) =>
      if c in s.conns && s.conns[c].inFlight.Some? then Put(s, c, AfterWrite(s.conns[c], ok)) else s
    case StopWriting(c) =>
      if c in s.conns && s.conns[c].inFlight.None? then Put(s, c, s.conns[c].(stopped := true, closed := true)) else s
    case Close(c) => if c in s.conns then Put(s, c, s.conns[c].(closed := true)) else s
  }

  function Exec(acts: seq<Action>): State {
    if acts == [] then START else Step(Exec(acts[..|acts| - 1]), acts[|acts| - 1])
  }

  // ----- the index -----

  /** The buckets hold exactly the registered connections under exactly their tenants. */
  ghost predicate IndexExact(s: State) {
    && NoEmptyBucket(s.byTenant)
    && s.registered <= s.conns.Keys
    && forall tenant, c ::
         c in Bucket(s.byTenant, tenant) <==> c in s.registered && c in s.conns && tenant in s.conns[c].tenants
  }

  lemma StepKeepsTenants(s: State, a: Action, c: nat)
    requires c in s.conns
    ensures c in Step(s, a).conns && Step(s, a).conns[c].tenants == s.conns[c].tenants
  {
  }

  lemma StepKeepsIndex(s: State, a: Action)
    requires IndexExact(s)
    ensures IndexExact(Step(s, a))
  {
    var t := Step(s, a);
    forall tenant, c
      ensures c in Bucket(t.byTenant, tenant) <==> c in t.registered && c in t.conns && tenant in t.conns[c].tenants
      ensures NoEmptyBucket(t.byTenant)
    {
      if c in s.conns {
        StepKeepsTenants(s, a, c);
      }
      if a.Register? && a.c in s.conns {
        AddedExactly(s.byTenant, a.c, s.conns[a.c].tenants, tenant);
      } else if a.Unregister? && a.c in s.conns {
        RemovedExactly(s.byTenant, a.c, s.conns[a.c].tenants, tenant);
      }
    }
    assert NoEmptyBucket(t.byTenant) by {
      if a.Register? && a.c in s.conns {
        AddedExactly(s.byTenant, a.c, s.conns[a.c].tenants, "");
      } else if a.Unregister? && a.c in s.conns {
        RemovedExactly(s.byTenant, a.c, s.conns[a.c].tenants, "");
      }
    }
  }

  lemma {:induction false} IndexIsExact(acts: seq<Action>)
    ensures IndexExact(Exec(acts))
  {
    if acts != [] {
      IndexIsExact(acts[..|acts| - 1]);
      StepKeepsIndex(Exec(acts[..|acts| - 1]), acts[|acts| - 1]);
    }
  }

  // ----- the queues -----

  predicate AllFor(tenants: seq<string>, frames: seq<Frame>) {
    forall i :: 0 <= i < |frames| ==> frames[i].tenant in tenants
  }

  function FlightOf(conn: Connection): seq<Frame> {
    if conn.inFlight.Some? then [conn.inFlight.value] else []
  }

  /** Bounded, first in first out, and only frames of the connection's tenants. */
  predicate ConnectionFits(conn: Connection) {
    && |conn.queue| <= WRITE_BUFFER
    && conn.accepted == conn.written + conn.lost + FlightOf(conn) + conn.queue
    && |conn.lost| <= 1
    && (conn.lost != [] ==> conn.stopped)
    && (conn.stopped ==> conn.inFlight.None? && conn.closed)
    && AllFor(conn.tenants, conn.accepted)
  }

  ghost predicate SendingFits(s: State, sending: Sending) {
    forall c :: c in sending.targets ==> c in s.conns && sending.frame.tenant in s.conns[c].tenants
  }

  ghost predicate QueuesFit(s: State) {
    && (forall c :: c in s.conns ==> ConnectionFits(s.conns[c]))
    && (forall b :: b in s.sendings ==> SendingFits(s, s.sendings[b]))
  }

  lemma SendFits(conn: Connection, frame: Frame, lucky: bool)
    requires ConnectionFits(conn) && frame.tenant in conn.tenants
    ensures ConnectionFits(AfterSend(conn, frame, lucky))
  {
    if Queued(conn.queue, conn.closed, lucky) {
      assert conn.accepted + [frame] == conn.written + conn.lost + FlightOf(conn) + (conn.queue + [frame]);
    }
  }

  lemma TakeFits(conn: Connection)
    requires ConnectionFits(conn) && CanTake(conn)
    ensures ConnectionFits(AfterTake(conn))
  {
    assert conn.queue == [conn.queue[0]] + conn.queue[1..];
    assert conn.accepted == conn.written + conn.lost + [conn.queue[0]] + conn.queue[1..];
  }

  lemma WriteFits(conn: Connection, ok: bool)
    requires ConnectionFits(conn) && conn.inFlight.Some?
    ensures ConnectionFits(AfterWrite(conn, ok))
  {
    assert conn.lost == [];
    assert conn.accepted == conn.written + [conn.inFlight.value] + conn.queue;
    if ok {
      assert conn.accepted == (conn.written + [conn.inFlight.value]) + [] + [] + conn.queue;
    } else {
      assert conn.accepted == conn.written + ([] + [conn.inFlight.value]) + [] + conn.queue;
    }
  }

  lemma StepKeepsConnection(s: State, a: Action, c: nat)
    requires QueuesFit(s) && c in Step(s, a).conns
    ensures ConnectionFits(Step(s, a).conns[c])
  {
    if c in s.conns {
      assert ConnectionFits(s.conns[c]);
      if a.SendTo? && a.c == c && a.b in s.sendings && c in s.sendings[a.b].targets {
        assert SendingFits(s, s.sendings[a.b]);
        SendFits(s.conns[c], s.sendings[a.b].frame, a.lucky);
      } else if a.TakeFrame? && a.c == c && CanTake(s.conns[c]) {
        TakeFits(s.conns[c]);
      } else if a.FinishWrite? && a.c == c && s.conns[c].inFlight.Some? {
        WriteFits(s.conns[c], a.ok);
      }
    }
  }

  lemma StepKeepsSending(s: State, a: Action, b: nat)
    requires QueuesFit(s) && IndexExact(s) && b in Step(s, a).sendings
    ensures SendingFits(Step(s, a), Step(s, a).sendings[b])
  {
    var t := Step(s, a);
    forall c | c in t.sendings[b].targets
      ensures c in t.conns && t.sendings[b].frame.tenant in t.conns[c].tenants
    {
      if b in s.sendings {
        assert SendingFits(s, s.sendings[b]);
      }
      StepKeepsTenants(s, a, c);
    }
  }

  lemma {:induction false} QueuesAlwaysFit(acts: seq<Action>)
    ensures QueuesFit(Exec(acts))
  {
    if acts != [] {
      var before, a := acts[..|acts| - 1], acts[|acts| - 1];
      QueuesAlwaysFit(before);
      IndexIsExact(before);
      var s := Exec(before);
      forall c | c in Step(s, a).conns ensures ConnectionFits(Step(s, a).conns[c]) { StepKeepsConnection(s, a, c); }
      forall b | b in Step(s, a).sendings
        ensures SendingFits(Step(s, a), Step(s, a).sendings[b])
      {
        StepKeepsSending(s, a, b);
      }
    }
  }

  /**
   * After any sequence of steps: at most 64 frames wait, the frames written are a prefix of those
   * accepted, at most one more is being written or has been lost, each was broadcast for one of the
   * connection's tenants, and until the write loop stops every accepted frame is written, being written
   * or waiting, in this order.
   */
  lemma WrittenIsPrefixOfAccepted(acts: seq<Action>, c: nat)
    requires c in Exec(acts).conns
    ensures
      var conn := Exec(acts).conns[c];
      && |conn.queue| <= 64
      && conn.written <= conn.accepted
      && |conn.accepted| <= |conn.written| + 1 + |conn.queue|
      && (forall i :: 0 <= i < |conn.written| ==> conn.written[i].tenant in conn.tenants)
      && (conn.stopped ==> conn.closed)
      && (!conn.stopped ==> conn.accepted == conn.written + FlightOf(conn) + conn.queue)
  {
    QueuesAlwaysFit(acts);
    var conn := Exec(acts).conns[c];
    assert ConnectionFits(conn);
    assert conn.written == conn.accepted[..|conn.written|];
    assert !conn.stopped ==> conn.written + conn.lost == conn.written;
  }

  lemma ExecAppend(acts: seq<Action>, a: Action)
    ensures Exec(acts + [a]) == Step(Exec(acts), a)
  {
    assert (acts + [a])[..|acts|] == acts;
  }

  /** A broadcast takes exactly the registered connections of its tenant as its targets. */
  lemma BroadcastTargetsExactly(acts: seq<Action>, b: nat, tenant: string, message: string, c: nat)
    requires tenant != "" && b !in Exec(acts).sendings
    ensures
      var s, t := Exec(acts), Step(Exec(acts), StartBroadcast(b, tenant, message));
      && b in t.sendings && t.sendings[b].frame == Frame(tenant, message)
      && (c in t.sendings[b].targets <==> c in s.registered && c in s.conns && tenant in s.conns[c].tenants)
  {
    IndexIsExact(acts);
  }

  /** A connection opens with nothing in it, and a broadcast under a name in use or for no tenant does nothing. */
  lemma FreshNames(s: State, c: nat, tenants: seq<string>, b: nat, message: string)
    ensures
      var t := Step(s, Connect(c, tenants));
      if c in s.conns then t == s
      else
        && t.conns[c].queue == [] && t.conns[c].accepted == [] && t.conns[c].tenants == tenants
        && !t.conns[c].closed && !t.conns[c].stopped
    ensures Step(s, StartBroadcast(b, "", message)) == s
    ensures b in s.sendings ==> forall tenant :: Step(s, StartBroadcast(b, tenant, message)) == s
  {
  }

  /** A connection closes by a full queue, a failed write, the end of its write loop or from outside, and stays so. */
  lemma ClosesExactly(s: State, a: Action, c: nat)
    requires c in s.conns
    ensures
      Step(s, a).conns[c].closed <==>
      || s.conns[c].closed
      || a == Close(c)
      || (a == StopWriting(c) && s.conns[c].inFlight.None?)
      || (a == FinishWrite(c, false) && s.conns[c].inFlight.Some?)
      || (a.SendTo? && a.c == c && a.b in s.sendings && c in s.sendings[a.b].targets && |s.conns[c].queue| >= 64)
    ensures
      Step(s, a).conns[c].stopped <==>
      || s.conns[c].stopped
      || (a == StopWriting(c) && s.conns[c].inFlight.None?)
      || (a == FinishWrite(c, false) && s.conns[c].inFlight.Some?)
  {
  }

  /** Each target is served once: queued behind the others if there is room, closed if there is none. */
  lemma TargetIsServed(s: State, b: nat, c: nat, lucky: bool)
    requires b in s.sendings && c in s.sendings[b].targets && c in s.conns
    ensures
      var conn, t := s.conns[c], Step(s, SendTo(b, c, lucky));
      var taken := if |conn.queue| < 64 && (conn.closed ==> lucky) then [s.sendings[b].frame] else [];
      && c in t.conns && b in t.sendings && t.sendings[b].targets == s.sendings[b].targets - {c}
      && t.conns[c].queue == conn.queue + taken && t.conns[c].accepted == conn.accepted + taken
      && (t.conns[c].closed <==> conn.closed || |conn.queue| >= 64)
  {
  }

  /** What the write loop does next for a connection that still has frames. */
  function NextWrite(conn: Connection, c: nat): Action {
    if conn.inFlight.Some? then FinishWrite(c, true) else TakeFrame(c)
  }

  lemma WriteAdvances(s: State, c: nat)
    requires c in s.conns && !s.conns[c].stopped && (s.conns[c].inFlight.Some? || s.conns[c].queue != [])
    ensures
      var conn, t := s.conns[c], Step(s, NextWrite(s.conns[c], c));
      && c in t.conns && !t.conns[c].stopped && t.conns[c].accepted == conn.accepted
      && 2 * |t.conns[c].queue| + |FlightOf(t.conns[c])| < 2 * |conn.queue| + |FlightOf(conn)|
  {
  }

  /** Until its write loop stops, everything accepted for a connection can still be written, closed or not. */
  lemma AcceptedCanBeWritten(acts: seq<Action>, c: nat) returns (all: seq<Action>)
    requires c in Exec(acts).conns && !Exec(acts).conns[c].stopped
    ensures acts <= all && c in Exec(all).conns
    ensures Exec(all).conns[c].accepted == Exec(acts).conns[c].accepted == Exec(all).conns[c].written
  {
    all := acts;
    var conn := Exec(acts).conns[c];
    while conn.inFlight.Some? || conn.queue != []
      invariant acts <= all && c in Exec(all).conns && conn == Exec(all).conns[c]
      invariant !conn.stopped && conn.accepted == Exec(acts).conns[c].accepted
      decreases 2 * |conn.queue| + |FlightOf(conn)|
    {
      var a := NextWrite(conn, c);
      WriteAdvances(Exec(all), c);
      ExecAppend(all, a);
      all := all + [a];
      conn := Exec(all).conns[c];
    }
    WrittenIsPrefixOfAccepted(all, c);
    assert conn.accepted == conn.written + [] + [];
  }
}
