/** The tenant index of live connections and the bounded queue of each connection. */
module Realtime {

  // ----- the index -----

  type Index<C> = map<string, set<C>>

  function Bucket<C>(index: Index<C>, tenant: string): set<C> {
    if tenant in index then index[tenant] else {}
  }

  /** Adding a connection under each of its tenants. */
  function Added<C>(index: Index<C>, c: C, tenants: seq<string>): Index<C> {
    if tenants == [] then index
    else
      var before, tenant := Added(index, c, tenants[..|tenants| - 1]), tenants[|tenants| - 1];
      before[tenant := Bucket(before, tenant) + {c}]
  }

  function RemovedFrom<C>(index: Index<C>, c: C, tenant: string): Index<C> {
    if tenant !in index then index
    else if index[tenant] - {c} == {} then index - {tenant}
    else index[tenant := index[tenant] - {c}]
  }

  /** Removing it from each of its tenants, and the tenant with its last connection. */
  function Removed<C>(index: Index<C>, c: C, tenants: seq<string>): Index<C> {
    if tenants == [] then index
    else RemovedFrom(Removed(index, c, tenants[..|tenants| - 1]), c, tenants[|tenants| - 1])
  }

  ghost predicate NoEmptyBucket<C>(index: Index<C>) {
    forall tenant :: tenant in index ==> index[tenant] != {}
  }

  lemma {:induction false} AddedExactly<C>(index: Index<C>, c: C, tenants: seq<string>, tenant: string)
    ensures Bucket(Added(index, c, tenants), tenant) == Bucket(index, tenant) + if tenant in tenants then {c} else {}
    ensures NoEmptyBucket(index) ==> NoEmptyBucket(Added(index, c, tenants))
  {
    if tenants != [] {
      AddedExactly(index, c, tenants[..|tenants| - 1], tenant);
      AddedExactly(index, c, tenants[..|tenants| - 1], tenants[|tenants| - 1]);
    }
  }

  lemma RemovedFromExactly<C>(index: Index<C>, c: C, from: string, tenant: string)
    ensures Bucket(RemovedFrom(index, c, from), tenant) == Bucket(index, tenant) - if tenant == from then {c} else {}
    ensures NoEmptyBucket(index) ==> NoEmptyBucket(RemovedFrom(index, c, from))
  {
  }

  lemma {:induction false} RemovedExactly<C>(index: Index<C>, c: C, tenants: seq<string>, tenant: string)
    ensures Bucket(Removed(index, c, tenants), tenant) == Bucket(index, tenant) - if tenant in tenants then {c} else {}
    ensures NoEmptyBucket(index) ==> NoEmptyBucket(Removed(index, c, tenants))
  {
    if tenants != [] {
      var init, last := tenants[..|tenants| - 1], tenants[|tenants| - 1];
      RemovedExactly(index, c, init, tenant);
      RemovedFromExactly(Removed(index, c, init), c, last, tenant);
    }
  }

  // ----- the queue -----

  const WRITE_BUFFER := 64

  /** A message and the tenant it was broadcast for. */
  datatype Frame = Frame(tenant: string, message: string)

  /**
   * What `Send` does: on a closed connection with room in the queue either branch may be chosen, which
   * is what `lucky` decides.
   */
  predicate Queued(queue: seq<Frame>, closed: bool, lucky: bool) {
    |queue| < WRITE_BUFFER && (closed ==> lucky)
  }

  /** Queue and closing after a send; a full queue closes the connection. */
  function Sent(queue: seq<Frame>, closed: bool, frame: Frame, lucky: bool): (seq<Frame>, bool) {
    if Queued(queue, closed, lucky) then (queue + [frame], closed) else (queue, closed || |queue| >= WRITE_BUFFER)
  }

  class Conn {
    const tenantIds: seq<string>
    var queue: seq<Frame>
    var closed: bool

    constructor (tenantIds: seq<string>)
      ensures this.tenantIds == tenantIds && queue == [] && !closed
    {
      this.tenantIds := tenantIds;
      queue := [];
      closed := false;
    }

    method Send(frame: Frame, lucky: bool) returns (sent: bool)
      modifies this
      ensures sent <==> Queued(old(queue), old(closed), lucky)
      ensures queue == if sent then old(queue) + [frame] else old(queue)
      ensures closed <==> old(closed) || |old(queue)| >= WRITE_BUFFER
      ensures (queue, closed) == Sent(old(queue), old(closed), frame, lucky)
      ensures |old(queue)| <= 64 ==> |queue| <= 64
    {
      if |queue| < WRITE_BUFFER && (!closed || lucky) {
        queue := queue + [frame];
        return true;
      }
      if !closed {
        closed := true;
      }
      return false;
    }
  }

  class Registry {
    var byTenant: Index<Conn>

    constructor ()
      ensures byTenant == map[]
    {
      byTenant := map[];
    }

    method Register(c: Conn?)
      modifies this
      ensures byTenant == if c == null then old(byTenant) else Added(old(byTenant), c, c.tenantIds)
    {
      if c == null {
        return;
      }
      var conn: Conn := c;
      for i := 0 to |c.tenantIds|
        invariant byTenant == Added(old(byTenant), c, c.tenantIds[..i])
      {
        var tenant := c.tenantIds[i];
        assert c.tenantIds[..i + 1][..i] == c.tenantIds[..i];
        var conns := if tenant in byTenant then byTenant[tenant] else {};
        byTenant := byTenant[tenant := conns + {conn}];
      }
      assert c.tenantIds[..|c.tenantIds|] == c.tenantIds;
    }

    method Unregister(c: Conn?)
      modifies this
      ensures byTenant == if c == null then old(byTenant) else Removed(old(byTenant), c, c.tenantIds)
    {
      if c == null {
        return;
      }
      var conn: Conn := c;
      for i := 0 to |c.tenantIds|
        invariant byTenant == Removed(old(byTenant), c, c.tenantIds[..i])
      {
        var tenant := c.tenantIds[i];
        assert c.tenantIds[..i + 1][..i] == c.tenantIds[..i];
        if tenant in byTenant {
          var conns := byTenant[tenant] - {conn};
          if conns == {} {
            byTenant := byTenant - {tenant};
          } else {
            byTenant := byTenant[tenant := conns];
          }
        }
      }
      assert c.tenantIds[..|c.tenantIds|] == c.tenantIds;
    }

    /** The connections of a tenant, in whatever order. */
    method Targets(tenant: string) returns (targets: seq<Conn>)
      ensures forall c :: c in targets <==> c in Bucket(byTenant, tenant)
      ensures Distinct(targets)
    {
      targets := [];
      var rest := Bucket(byTenant, tenant);
      while rest != {}
        invariant forall c :: c in targets || c in rest <==> c in Bucket(byTenant, tenant)
        invariant Distinct(targets) && forall c :: c in targets ==> c !in rest
        decreases |rest|
      {
        var c :| c in rest;
        targets := targets + [c];
        rest := rest - {c};
      }
    }

    /**
     * Send to every connection of the tenant, in some order. `lucky` are the closed ones whose queue
     * still takes the frame.
     */
    method Broadcast(tenant: string, message: string, lucky: set<Conn>) returns (delivered: nat)
      modifies Bucket(byTenant, tenant)
      ensures tenant == "" ==> delivered == 0 && forall c :: c in Bucket(byTenant, tenant) ==> unchanged(c)
      ensures tenant != "" ==> forall c :: c in Bucket(byTenant, tenant) ==>
          Served(c, Frame(tenant, message), c in lucky)
      ensures tenant != "" ==> delivered == |old(TakerSet(Bucket(byTenant, tenant), lucky))|
    {
      if tenant == "" {
        return 0;
      }
      var targets := Targets(tenant);
      TakersCounted(targets, Bucket(byTenant, tenant), lucky);
      delivered := SendAll(targets, Frame(tenant, message), lucky);
    }
  }

  predicate Distinct(conns: seq<Conn>) {
    forall i, j :: 0 <= i < j < |conns| ==> conns[i] != conns[j]
  }

  /** The sends of a broadcast, on the targets taken while the index was locked. */
  method SendAll(targets: seq<Conn>, frame: Frame, lucky: set<Conn>) returns (delivered: nat)
    requires Distinct(targets)
    modifies targets
    ensures forall i :: 0 <= i < |targets| ==> Served(targets[i], frame, targets[i] in lucky)
    ensures delivered == old(Takers(targets, lucky))
  {
    delivered := 0;
    for i := 0 to |targets|
      invariant forall j :: i <= j < |targets| ==> unchanged(targets[j])
      invariant forall j :: 0 <= j < i ==> Served(targets[j], frame, targets[j] in lucky)
      invariant delivered == old(Takers(targets[..i], lucky))
    {
      var sent := targets[i].Send(frame, targets[i] in lucky);
      assert targets[..i + 1][..i] == targets[..i];
      if sent {
        delivered := delivered + 1;
      }
    }
    assert targets[..|targets|] == targets;
  }

  /** How many connections will take a frame. */
  ghost function Takers(conns: seq<Conn>, lucky: set<Conn>): nat
    reads conns
  {
    if conns == [] then 0
    else
      var c := conns[|conns| - 1];
      Takers(conns[..|conns| - 1], lucky) + if Queued(c.queue, c.closed, c in lucky) then 1 else 0
  }

  ghost function TakerSet(conns: set<Conn>, lucky: set<Conn>): set<Conn>
    reads conns
  {
    set c | c in conns && Queued(c.queue, c.closed, c in lucky)
  }

  lemma {:induction false} TakersCounted(order: seq<Conn>, conns: set<Conn>, lucky: set<Conn>)
    requires Distinct(order) && forall c :: c in order <==> c in conns
    ensures Takers(order, lucky) == |TakerSet(conns, lucky)|
  {
    if order == [] {
      assert TakerSet(conns, lucky) == {};
    } else {
      var init, c := order[..|order| - 1], order[|order| - 1];
      assert forall d :: d in init <==> d in conns - {c};
      TakersCounted(init, conns - {c}, lucky);
      var others := TakerSet(conns - {c}, lucky);
      assert TakerSet(conns, lucky) == others + if Queued(c.queue, c.closed, c in lucky) then {c} else {};
    }
  }

  /** The connection has been sent the frame. */
  twostate predicate Served(c: Conn, frame: Frame, lucky: bool)
    reads c
  {
    && c.queue == old(c.queue) + (if old(Queued(c.queue, c.closed, lucky)) then [frame] else [])
    && (c.closed <==> old(c.closed) || |old(c.queue)| >= WRITE_BUFFER)
  }
}
