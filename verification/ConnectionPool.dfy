/** A fixed set of connections with read routing and a queue of waiters. */
module ConnectionPools {
  import opened Sequences

  datatype Role = Primary | Replica

  class Connection {
    const id: string
    const role: Role
    /** The host: 0 is the primary's, and `r + 1` that of replica `r`. */
    const node: nat
    var inUse: bool
    var acquiredAt: Option<int>
    var lastUsedAt: int
    var useCount: nat

    constructor (id: string, role: Role, node: nat, now: int)
      ensures this.id == id && this.role == role && this.node == node && !inUse && acquiredAt == None
    {
      this.id, this.role, this.node := id, role, node;
      inUse, acquiredAt, lastUsedAt, useCount := false, None, now, 0;
    }
  }

  /** What settles a request: the function of its promise, or the wrapper around it
      that is queued. */
  datatype Resolver = OfPromise(ticket: nat) | Wrapper(ticket: nat)

  /** A queued request; the ticket numbers requests in the order they came. */
  datatype Waiter = Waiter(ticket: nat, readOnly: bool) {
    function Resolve(): Resolver { Wrapper(ticket) }
  }

  function Slots(poolSize: int, replicas: nat): (n: nat)
    ensures n >= 1
  {
    if poolSize / (1 + replicas) < 1 then 1 else poolSize / (1 + replicas)
  }

  function PrimarySlots(poolSize: int, replicas: nat): int {
    poolSize - Slots(poolSize, replicas) * replicas
  }

  /** The slot arithmetic: the budget is met exactly when there is a slot for every
      replica, and a primary connection exists exactly when one more fits. */
  lemma SlotBudget(poolSize: int, replicas: nat)
    ensures var primaries := if PrimarySlots(poolSize, replicas) < 0 then 0 else PrimarySlots(poolSize, replicas);
            && (primaries + Slots(poolSize, replicas) * replicas == poolSize <==> poolSize >= replicas)
            && (primaries >= 1 <==> poolSize >= 1 + replicas)
  {
    var n := 1 + replicas;
    var q := poolSize / n;
    assert poolSize == q * n + poolSize % n;
    assert q * n == q * replicas + q;
    if q >= 1 {
      assert q * replicas >= replicas;
    } else {
      assert q * n <= 0;
    }
  }

  function Tickets(queue: seq<Waiter>): (tickets: seq<nat>)
    ensures |tickets| == |queue| && forall i :: 0 <= i < |queue| ==> tickets[i] == queue[i].ticket
  {
    seq(|queue|, i requires 0 <= i < |queue| => queue[i].ticket)
  }

  /** At most one holder a connection, and the busy ones are those with a holder. */
  ghost predicate OneHolderEach(busy: set<Connection>, holders: set<(Connection, nat)>) {
    && (forall h, k :: h in holders && k in holders && h.0 == k.0 ==> h == k)
    && (forall h :: h in holders ==> h.0 in busy)
    && (forall c :: c in busy ==> exists t :: (c, t) in holders)
  }

  /** Tickets are used once: by a holder or in the queue, never both. */
  ghost predicate Requests(holders: set<(Connection, nat)>, queue: seq<Waiter>, nextTicket: nat) {
    && (forall h :: h in holders ==> h.1 < nextTicket)
    && (forall i :: 0 <= i < |queue| ==> queue[i].ticket < nextTicket)
    && (forall i, j :: 0 <= i < j < |queue| ==> queue[i].ticket != queue[j].ticket)
    && (forall h, i :: h in holders && 0 <= i < |queue| ==> h.1 != queue[i].ticket)
  }

  ghost predicate DistinctIds(pool: seq<Connection>) {
    forall i, j :: 0 <= i < j < |pool| ==> pool[i].id != pool[j].id
  }

  ghost predicate PrimariesFirst(pool: seq<Connection>) {
    forall i, j :: 0 <= i < j < |pool| && pool[j].role.Primary? ==> pool[i].role.Primary?
  }

  /** The connections held for a request that gave up waiting: nobody is left to give
      them back. */
  ghost function LostOf(holders: set<(Connection, nat)>, gaveUp: set<nat>): set<Connection> {
    set h | h in holders && h.1 in gaveUp :: h.0
  }

  class ConnectionPool {
    var pool: seq<Connection>
    var waitQueue: seq<Waiter>
    var replicaRoundRobin: nat
    var nextTicket: nat
    /** Who was handed what and has not given it back; who queued, who was served
        from the queue. */
    ghost var holders: set<(Connection, nat)>
    ghost var queued: seq<nat>
    ghost var served: seq<nat>
    /** The requests that timed out while queued, and their number. */
    ghost var gaveUp: set<nat>
    var acquireTimeouts: nat

    /** What holds however connections are released. */
    ghost predicate Shape()
      reads this
    {
      && DistinctIds(pool) && PrimariesFirst(pool)
      && (forall h :: h in holders ==> h.0 in pool)
      && Requests(holders, waitQueue, nextTicket)
      && queued == served + Tickets(waitQueue)
      && forall t :: t in gaveUp ==> t < nextTicket
    }

    ghost function Lost(): set<Connection>
      reads this
    {
      LostOf(holders, gaveUp)
    }

    ghost function Busy(): set<Connection>
      reads `pool, pool
    {
      set c | c in pool && c.inUse
    }

    /** The invariant: no connection has two holders, one is in use exactly when it
        has one, and nobody waits while a connection is free. */
    ghost predicate Valid()
      reads this, pool
    {
      && Shape()
      && OneHolderEach(Busy(), holders)
      && (waitQueue != [] ==> forall c :: c in pool ==> c in Busy())
    }

    constructor (poolSize: int, replicas: nat, newId: nat -> string, now: int)
      requires forall i: nat, j: nat :: i != j ==> newId(i) != newId(j)
      ensures Valid() && fresh(pool) && holders == {} && waitQueue == [] && queued == [] && Lost() == {}
      ensures |pool| == poolSize <==> poolSize >= replicas
      ensures (exists c :: c in pool && c.role.Primary?) <==> poolSize >= 1 + replicas
      ensures EvenlyShared(pool, poolSize, replicas)
    {
      pool, waitQueue, replicaRoundRobin, nextTicket := [], [], 0, 0;
      holders, queued, served, gaveUp, acquireTimeouts := {}, [], [], {}, 0;
      new;
      hide EvenlyShared, DistinctIds, PrimariesFirst, OneHolderEach, Requests, LostOf, Tickets;
      NothingYet();
      pool := InitPool(poolSize, replicas, newId, now);
    }

    /** Picks a free connection: for a reader a free replica in turn, if there is
        one, else the first free connection of any kind. */
    method TryAcquireSync(readOnly: bool, now: int) returns (c: Connection?)
      modifies `replicaRoundRobin, pool
      ensures c == null ==> Busy() == old(Busy()) && forall x :: x in pool ==> x in Busy()
      ensures c != null ==> c in pool && c !in old(Busy()) && Busy() == old(Busy()) + {c} && c.acquiredAt == Some(now)
      ensures forall x :: x in pool ==> x.useCount == old(x.useCount)
      ensures readOnly && (exists x :: x in pool && x.role.Replica? && x !in old(Busy())) ==>
          c != null && c.role.Replica?
      ensures readOnly && old(FreeReplicas(pool)) != [] ==>
                var free := old(FreeReplicas(pool));
                c == free[old(replicaRoundRobin) % |free|] && replicaRoundRobin == (old(replicaRoundRobin) + 1) % |free|
      ensures c != null && !(readOnly && c.role.Replica?) ==>
                exists k :: 0 <= k < |pool| && pool[k] == c && forall j :: 0 <= j < k ==> pool[j] in old(Busy())
    {
      if readOnly {
        var replicas := FreeReplicas(pool);
        if |replicas| > 0 {
          var idx := replicaRoundRobin % |replicas|;
          replicaRoundRobin := (replicaRoundRobin + 1) % |replicas|;
          c := replicas[idx];
          assert c in replicas;
          c.inUse := true;
          c.acquiredAt := Some(now);
          return;
        }
      }
      for i := 0 to |pool|
        invariant forall k :: 0 <= k < i ==> pool[k].inUse
      {
        if !pool[i].inUse {
          c := pool[i];
          c.inUse := true;
          c.acquiredAt := Some(now);
          return;
        }
      }
      c := null;
    }

    /** Asks for a connection: granted at once if any is free, else queued. A reader
        gets a replica while one is free, a writer a primary connection. */
    method Acquire(readOnly: bool, now: int) returns (c: Connection?, ticket: nat)
      requires Valid()
      modifies this, pool
      ensures Valid() && pool == old(pool)
      ensures ticket == old(nextTicket) && nextTicket == ticket + 1 && gaveUp == old(gaveUp) && Lost() == old(Lost())
      ensures c == null <==> forall x :: x in pool ==> x in old(Busy())
      ensures c != null ==> && c in pool && c !in old(Busy()) && holders == old(holders) + {(c, ticket)}
                            && waitQueue == old(waitQueue) && served == old(served)
      ensures c == null ==> && holders == old(holders)
                            && waitQueue == old(waitQueue) + [Waiter(ticket, readOnly)] && served == old(served)
      ensures readOnly && (exists x :: x in pool && x.role.Replica? && x !in old(Busy())) ==>
          c != null && c.role.Replica?
      ensures !readOnly && (exists x :: x in pool && x.role.Primary? && x !in old(Busy())) ==>
          c != null && c.role.Primary?
    {
      hide OneHolderEach, Requests, DistinctIds, PrimariesFirst, FreeReplicas, LostOf;
      ghost var busy := Busy();
      ticket := nextTicket;
      nextTicket := nextTicket + 1;
      c := TryAcquireSync(readOnly, now);
      FirstFreeIsPrimary(pool, c, busy);
      NewTicket(holders, waitQueue, ticket, c, readOnly);
      if c != null {
        Grant(busy, holders, c, ticket);
        HandedOver(holders, gaveUp, c, ticket);
        holders := holders + {(c, ticket)};
        return;
      }
      waitQueue := waitQueue + [Waiter(ticket, readOnly)];
      queued := queued + [ticket];
      assert Tickets(waitQueue) == Tickets(old(waitQueue)) + [ticket];
    }

    /** The timer of a queued request. It looks for the function of its promise where the
        wrapper was queued, and so never finds it: the request gives up and stays in the
        queue, to be served all the same. */
    method TimeOut(ticket: nat)
      requires Valid() && ticket in Tickets(waitQueue)
      modifies this
      ensures Valid() && pool == old(pool) && waitQueue == old(waitQueue) && holders == old(holders)
          && nextTicket == old(nextTicket)
      ensures queued == old(queued) && served == old(served)
      ensures gaveUp == old(gaveUp) + {ticket} && Lost() == old(Lost()) && acquireTimeouts == old(acquireTimeouts) + 1
    {
      hide OneHolderEach, DistinctIds, PrimariesFirst;
      QueuedHoldNothing(holders, waitQueue, nextTicket, gaveUp, ticket);
      var idx := FirstIndex(waitQueue, (w: Waiter) => w.Resolve() == OfPromise(ticket));
      if idx != |waitQueue| { assert false; }
      acquireTimeouts := acquireTimeouts + 1;
      gaveUp := gaveUp + {ticket};
    }

    /** Gives a connection back, on behalf of request `owner`, and serves the first
        waiter. The invariant survives exactly when `owner` held the connection, or
        the release had nothing to release; a second release by the same holder
        breaks it, by handing one connection to two requests or by freeing one
        that is held. A connection is lost exactly when the first waiter timed out;
        no request that did not time out gives a lost one back. */
    method Release(connectionId: string, now: int, ghost owner: nat)
      requires Valid()
      modifies this, pool
      ensures Shape() && pool == old(pool) && nextTicket == old(nextTicket) && queued == old(queued)
          && gaveUp == old(gaveUp)
      ensures owner !in gaveUp ==>
                var c := FindById(pool, connectionId);
                Lost() == old(Lost()) + if c != null && old(waitQueue) != []
                    && old(waitQueue)[0].ticket in gaveUp then {c} else {}
      ensures var c := FindById(pool, connectionId);
              && (Valid() <==> c == null || c !in old(Busy()) || (c, owner) in old(holders))
              && (c == null || old(waitQueue) == [] ==>
                    waitQueue == old(waitQueue) && served == old(served)
                    && holders == if c == null then old(holders) else old(holders) - {(c, owner)})
              && (c != null && old(waitQueue) != [] ==>
                    waitQueue == old(waitQueue)[1..] && served == old(served) + [old(waitQueue)[0].ticket]
                    && holders == old(holders) - {(c, owner)} + {(c, old(waitQueue)[0].ticket)})
    {
      hide OneHolderEach, Requests, DistinctIds, PrimariesFirst, LostOf;
      var conn := FindById(pool, connectionId);
      if conn == null { return; }
      ghost var busy, held := Busy(), holders;
      LetGo(holders, gaveUp, conn, owner);
      conn.inUse := false;
      conn.acquiredAt := None;
      conn.lastUsedAt := now;
      conn.useCount := conn.useCount + 1;
      holders := holders - {(conn, owner)};
      assert Busy() == busy - {conn};
      ReleaseExactly(busy, held, conn, owner);
      ReleaseRequests(held, waitQueue, nextTicket, conn, owner);
      if |waitQueue| > 0 {
        ServeExactly(busy, held, conn, owner, waitQueue, nextTicket);
        HandedOver(holders, gaveUp, conn, waitQueue[0].ticket);
        ServeFirst(conn, now);
        assert Busy() == busy;
      }
    }

    /** Takes the first waiter off the queue and serves it with the one connection
        that is free; the branch that would put the waiter back is never taken. */
    method ServeFirst(ghost freed: Connection, now: int)
      requires waitQueue != [] && freed in pool && forall c :: c in pool ==> (c in Busy() <==> c != freed)
      modifies this, pool
      ensures pool == old(pool) && nextTicket == old(nextTicket) && queued == old(queued) && gaveUp == old(gaveUp)
      ensures Busy() == old(Busy()) + {freed}
      ensures waitQueue == old(waitQueue)[1..]
      ensures holders == old(holders) + {(freed, old(waitQueue)[0].ticket)}
      ensures served == old(served) + [old(waitQueue)[0].ticket]
    {
      var waiter := waitQueue[0];
      waitQueue := waitQueue[1..];
      var next := TryAcquireSync(waiter.readOnly, now);
      if next != null {
        holders := holders + {(next, waiter.ticket)};
        served := served + [waiter.ticket];
      } else {
        assert false;
      }
    }
  }

  ghost predicate Created(c: Connection, id: string, role: Role)
    reads c
  {
    c.id == id && c.role == role && !c.inUse
  }

  method CreateConnections(first: nat, count: int, role: Role, node: nat, newId: nat -> string, now: int)
    returns (conns: seq<Connection>)
    ensures fresh(conns) && |conns| == if count < 0 then 0 else count
    ensures AllCreated(conns, newId, first, role) && AllOn(conns, node)
  {
    conns := [];
    while |conns| < count
      invariant fresh(conns) && |conns| <= if count < 0 then 0 else count
      invariant forall k :: 0 <= k < |conns| ==> Created(conns[k], newId(first + k), role)
      invariant AllOn(conns, node)
    {
      var c := new Connection(newId(first + |conns|), role, node, now);
      conns := conns + [c];
    }
  }

  /** The connections at consecutive positions from `first`, as created. */
  ghost predicate AllCreated(conns: seq<Connection>, newId: nat -> string, first: nat, role: Role)
    reads conns
  {
    forall k :: 0 <= k < |conns| ==> Created(conns[k], newId(first + k), role)
  }

  ghost predicate AllOn(conns: seq<Connection>, node: nat) {
    forall k :: 0 <= k < |conns| ==> conns[k].node == node
  }

  function OnNode(node: nat): Connection -> bool {
    (c: Connection) => c.node == node
  }

  /** One group after the other, each of so many connections to its own replica. */
  ghost predicate Groups(groups: seq<seq<Connection>>, slots: nat) {
    forall r :: 0 <= r < |groups| ==> |groups[r]| == slots && AllOn(groups[r], r + 1)
  }

  lemma NoGroups(slots: nat)
    ensures Groups([], slots) && Joined<Connection>([]) == []
  {
  }

  lemma {:induction false} GroupsMore(groups: seq<seq<Connection>>, more: seq<Connection>, slots: nat)
    requires Groups(groups, slots) && |more| == slots && AllOn(more, |groups| + 1)
    ensures Groups(groups + [more], slots) && Joined(groups + [more]) == Joined(groups) + more
  {
    assert (groups + [more])[..|groups|] == groups;
  }

  lemma {:induction false} GroupCount(groups: seq<seq<Connection>>, slots: nat, node: nat)
    requires Groups(groups, slots)
    ensures |Filter(Joined(groups), OnNode(node))| == if 1 <= node <= |groups| then slots else 0
  {
    if groups != [] {
      var r := |groups| - 1;
      GroupCount(groups[..r], slots, node);
      FilterAppend(Joined(groups[..r]), groups[r], OnNode(node));
      FilterOn(groups[r], r + 1, node);
    }
  }

  lemma {:induction false} FilterOn(conns: seq<Connection>, on: nat, node: nat)
    requires AllOn(conns, on)
    ensures Filter(conns, OnNode(node)) == if node == on then conns else []
  {
    if node == on { FilterRun(conns, 0, |conns|, OnNode(node)); } else { FilterNone(conns, OnNode(node)); }
  }

  lemma {:induction false} NodeCounts(primaries: seq<Connection>, groups: seq<seq<Connection>>, slots: nat)
    requires AllOn(primaries, 0) && Groups(groups, slots)
    ensures var pool := primaries + Joined(groups);
            && |Filter(pool, OnNode(0))| == |primaries|
            && forall node :: 1 <= node <= |groups| ==> |Filter(pool, OnNode(node))| == slots
  {
    hide Filter, Joined;
    forall node: nat
      ensures |Filter(primaries + Joined(groups), OnNode(node))|
              == if node == 0 then |primaries| else if node <= |groups| then slots else 0
    {
      FilterAppend(primaries, Joined(groups), OnNode(node));
      FilterOn(primaries, 0, node);
      GroupCount(groups, slots, node);
    }
  }

  /** The replicas share evenly, each node's part rounded down and one at least; what is left
      is the primary's. */
  ghost predicate SharesOf(pool: seq<Connection>, n: nat, poolSize: int, replicas: nat) {
    && (poolSize >= 1 + replicas ==> n * (1 + replicas) <= poolSize < (n + 1) * (1 + replicas))
    && (poolSize < 1 + replicas ==> n == 1)
    && (forall node :: 1 <= node <= replicas ==> |Filter(pool, OnNode(node))| == n)
    && |Filter(pool, OnNode(0))| == if poolSize < n * replicas then 0 else poolSize - n * replicas
  }

  ghost predicate EvenlyShared(pool: seq<Connection>, poolSize: int, replicas: nat) {
    exists n: nat :: SharesOf(pool, n, poolSize, replicas)
  }

  lemma {:induction false} SharedEvenly(primaries: seq<Connection>, groups: seq<seq<Connection>>, poolSize: int,
                                        replicas: nat)
    requires AllOn(primaries, 0) && Groups(groups, Slots(poolSize, replicas)) && |groups| == replicas
    requires |primaries| == if PrimarySlots(poolSize, replicas) < 0 then 0 else PrimarySlots(poolSize, replicas)
    ensures EvenlyShared(primaries + Joined(groups), poolSize, replicas)
  {
    hide Filter, Joined, Slots;
    SlotsShare(poolSize, replicas);
    NodeCounts(primaries, groups, Slots(poolSize, replicas));
    assert SharesOf(primaries + Joined(groups), Slots(poolSize, replicas), poolSize, replicas);
  }

  /** Each node's share of the budget, rounded down, and one at least. */
  lemma SlotsShare(poolSize: int, replicas: nat)
    ensures var n := Slots(poolSize, replicas);
            && (poolSize >= 1 + replicas ==> n * (1 + replicas) <= poolSize < (n + 1) * (1 + replicas))
            && (poolSize < 1 + replicas ==> n == 1)
  {
    var m := 1 + replicas;
    var q := poolSize / m;
    assert poolSize == q * m + poolSize % m;
    if poolSize >= m {
      assert q >= 1;
    } else {
      assert q * m <= poolSize < m;
      assert q < 1;
    }
  }

  /** The slots of the primary, then those of each replica. */
  method BuildPool(poolSize: int, replicas: nat, newId: nat -> string, now: int)
    returns (primaries: seq<Connection>, others: seq<Connection>, ghost groups: seq<seq<Connection>>)
    ensures AllOn(primaries, 0) && Groups(groups, Slots(poolSize, replicas))
    ensures |groups| == replicas && others == Joined(groups)
    ensures fresh(primaries) && fresh(others)
    ensures |primaries| == if PrimarySlots(poolSize, replicas) < 0 then 0 else PrimarySlots(poolSize, replicas)
    ensures |others| == Slots(poolSize, replicas) * replicas
    ensures AllCreated(primaries, newId, 0, Primary) && AllCreated(others, newId, |primaries|, Replica)
  {
    hide Slots, PrimarySlots, Created, Groups, Joined, AllOn;
    NoGroups(Slots(poolSize, replicas));
    var slotsPerNode := Slots(poolSize, replicas);
    primaries := CreateConnections(0, PrimarySlots(poolSize, replicas), Primary, 0, newId, now);
    others, groups := [], [];
    for r := 0 to replicas
      invariant |others| == slotsPerNode * r && fresh(others)
      invariant Groups(groups, slotsPerNode) && |groups| == r && others == Joined(groups)
      invariant AllCreated(primaries, newId, 0, Primary) && AllCreated(others, newId, |primaries|, Replica)
    {
      var more := CreateConnections(|primaries| + |others|, slotsPerNode, Replica, r + 1, newId, now);
      GroupsMore(groups, more, slotsPerNode);
      groups := groups + [more];
      assert slotsPerNode * (r + 1) == slotsPerNode * r + slotsPerNode;
      others := others + more;
    }
  }

  /** With the primary connections in front, a replica is first among the free ones
      only when no primary is free. */
  lemma FirstFreeIsPrimary(pool: seq<Connection>, c: Connection?, busy: set<Connection>)
    requires PrimariesFirst(pool)
    ensures c != null && c.role.Replica? && (exists k :: 0 <= k < |pool| && pool[k] == c && forall j :: 0 <= j < k ==>
                                             pool[j] in busy)
            ==> forall x :: x in pool && x.role.Primary? ==> x in busy
  {
    if c != null && c.role.Replica? && exists k :: 0 <= k < |pool| && pool[k] == c && forall j :: 0 <= j < k ==>
      pool[j] in busy {
      ReplicaFirst(pool, c, busy);
    }
  }

  lemma ReplicaFirst(pool: seq<Connection>, c: Connection, busy: set<Connection>)
    requires PrimariesFirst(pool) && c.role.Replica?
    requires exists k :: 0 <= k < |pool| && pool[k] == c && forall j :: 0 <= j < k ==> pool[j] in busy
    ensures forall x :: x in pool && x.role.Primary? ==> x in busy
  {
    var k :| 0 <= k < |pool| && pool[k] == c && forall j :: 0 <= j < k ==> pool[j] in busy;
    forall x | x in pool && x.role.Primary? ensures x in busy {
      var i :| 0 <= i < |pool| && pool[i] == x;
      assert i < k;
    }
  }

  /** The whole pool, all free. */
  method InitPool(poolSize: int, replicas: nat, newId: nat -> string, now: int) returns (pool: seq<Connection>)
    requires forall i: nat, j: nat :: i != j ==> newId(i) != newId(j)
    ensures fresh(pool) && DistinctIds(pool) && PrimariesFirst(pool) && forall c :: c in pool ==> !c.inUse
    ensures |pool| == poolSize <==> poolSize >= replicas
    ensures (exists c :: c in pool && c.role.Primary?) <==> poolSize >= 1 + replicas
    ensures EvenlyShared(pool, poolSize, replicas)
  {
    hide Slots, PrimarySlots, EvenlyShared, DistinctIds, PrimariesFirst, Groups, AllOn, Joined, AllCreated;
    SlotBudget(poolSize, replicas);
    ghost var groups;
    var primaries, others;
    primaries, others, groups := BuildPool(poolSize, replicas, newId, now);
    PoolBuilt(primaries, others, newId);
    SharedEvenly(primaries, groups, poolSize, replicas);
    pool := primaries + others;
  }

  lemma NothingYet()
    ensures OneHolderEach({}, {}) && Requests({}, [], 0) && Tickets([]) == [] && LostOf({}, {}) == {}
  {
  }

  /** What the slots make up: connections with ids of their own, all free, those of
      the primary in front. */
  lemma PoolBuilt(primaries: seq<Connection>, others: seq<Connection>, newId: nat -> string)
    requires AllCreated(primaries, newId, 0, Primary) && AllCreated(others, newId, |primaries|, Replica)
    requires forall i: nat, j: nat :: i != j ==> newId(i) != newId(j)
    ensures var pool := primaries + others;
            && DistinctIds(pool) && PrimariesFirst(pool) && (forall c :: c in pool ==> !c.inUse)
            && ((exists c :: c in pool && c.role.Primary?) <==> primaries != [])
  {
    var pool := primaries + others;
    forall k | 0 <= k < |pool| ensures Created(pool[k], newId(k), if k < |primaries| then Primary else Replica) {
      if k >= |primaries| { assert Created(others[k - |primaries|], newId(|primaries| + (k - |primaries|)), Replica); }
    }
    assert primaries != [] ==> primaries[0] in pool;
  }

  lemma LetGo(holders: set<(Connection, nat)>, gaveUp: set<nat>, c: Connection, owner: nat)
    ensures owner !in gaveUp ==> LostOf(holders - {(c, owner)}, gaveUp) == LostOf(holders, gaveUp)
  {
    var rest := holders - {(c, owner)};
    if owner !in gaveUp {
      forall h | h in holders && h.1 in gaveUp ensures h.0 in LostOf(rest, gaveUp) {
        assert h in rest;
      }
    }
  }

  lemma HandedOver(holders: set<(Connection, nat)>, gaveUp: set<nat>, c: Connection, ticket: nat)
    ensures LostOf(holders + {(c, ticket)}, gaveUp) == LostOf(holders, gaveUp) + if ticket in gaveUp then {c} else {}
  {
    var more := holders + {(c, ticket)};
    forall h | h in holders && h.1 in gaveUp ensures h.0 in LostOf(more, gaveUp) {
      assert h in more;
    }
    if ticket in gaveUp { assert (c, ticket) in more; }
  }

  lemma QueuedHoldNothing(holders: set<(Connection, nat)>, queue: seq<Waiter>, nextTicket: nat, gaveUp: set<nat>,
                          ticket: nat)
    requires Requests(holders, queue, nextTicket) && ticket in Tickets(queue)
    ensures LostOf(holders, gaveUp + {ticket}) == LostOf(holders, gaveUp)
  {
  }

  /** A lost connection is in use, and stays so while requests give back only what
      they hold. */
  lemma LostAreBusy(busy: set<Connection>, holders: set<(Connection, nat)>, gaveUp: set<nat>)
    requires OneHolderEach(busy, holders)
    ensures LostOf(holders, gaveUp) <= busy
  {
  }

  lemma NewTicket(holders: set<(Connection, nat)>, queue: seq<Waiter>, ticket: nat, c: Connection?, readOnly: bool)
    requires Requests(holders, queue, ticket)
    ensures c != null ==> Requests(holders + {(c, ticket)}, queue, ticket + 1)
    ensures Requests(holders, queue + [Waiter(ticket, readOnly)], ticket + 1)
  {
  }

  lemma Grant(busy: set<Connection>, holders: set<(Connection, nat)>, c: Connection, ticket: nat)
    requires OneHolderEach(busy, holders) && c !in busy
    ensures OneHolderEach(busy + {c}, holders + {(c, ticket)})
  {
    assert (c, ticket) in holders + {(c, ticket)};
    forall x | x in busy ensures exists t :: (x, t) in holders + {(c, ticket)} {
      var t :| (x, t) in holders;
      assert (x, t) in holders + {(c, ticket)};
    }
  }

  /** Freeing a connection keeps one holder each exactly when its holder lets go. */
  lemma ReleaseExactly(busy: set<Connection>, holders: set<(Connection, nat)>, c: Connection, owner: nat)
    requires OneHolderEach(busy, holders)
    ensures OneHolderEach(busy - {c}, holders - {(c, owner)}) <==> c !in busy || (c, owner) in holders
  {
    var rest := holders - {(c, owner)};
    forall x | x in busy - {c} ensures exists t :: (x, t) in rest {
      var t :| (x, t) in holders;
      assert (x, t) in rest;
    }
    if c in busy && (c, owner) !in holders {
      var t :| (c, t) in holders;
      assert (c, t) in rest;
    }
  }

  /** Handing it straight to a waiter likewise. */
  lemma ServeExactly(busy: set<Connection>, holders: set<(Connection, nat)>, c: Connection, owner: nat,
                     queue: seq<Waiter>, nextTicket: nat)
    requires OneHolderEach(busy, holders) && Requests(holders, queue, nextTicket) && queue != [] && c in busy
    ensures var after := holders - {(c, owner)} + {(c, queue[0].ticket)};
            && (OneHolderEach(busy, after) <==> (c, owner) in holders)
            && Requests(after, queue[1..], nextTicket)
  {
    var ticket := queue[0].ticket;
    var after := holders - {(c, owner)} + {(c, ticket)};
    var t :| (c, t) in holders;
    if t == owner {
      forall x | x in busy ensures exists u :: (x, u) in after {
        var u :| (x, u) in holders;
        assert (x, u) in after || (c, ticket) in after;
      }
    } else {
      assert (c, t) in after && (c, ticket) in after && t != ticket;
    }
  }

  lemma ReleaseRequests(holders: set<(Connection, nat)>, queue: seq<Waiter>, nextTicket: nat, c: Connection, owner: nat)
    requires Requests(holders, queue, nextTicket)
    ensures Requests(holders - {(c, owner)}, queue, nextTicket)
  {
  }

  function FreeReplicas(pool: seq<Connection>): (free: seq<Connection>)
    reads pool
    ensures forall c :: c in free ==> c in pool && c.role.Replica? && !c.inUse
    ensures forall c :: c in pool && c.role.Replica? && !c.inUse ==> c in free
  {
    if pool == [] then []
    else (if pool[0].role.Replica? && !pool[0].inUse then [pool[0]] else []) + FreeReplicas(pool[1..])
  }

  function FindById(pool: seq<Connection>, id: string): (c: Connection?)
    ensures c != null ==> c in pool && c.id == id
    ensures c == null ==> forall x :: x in pool ==> x.id != id
  {
    if pool == [] then null else if pool[0].id == id then pool[0] else FindById(pool[1..], id)
  }
}
