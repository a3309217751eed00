/** Routing, pooling and retrying: the state that src/operations/RemoteCache.cpp keeps under
    stateMutex_, one method for each stretch of code that holds the lock. */
module RemoteCaches {
  import opened Bytes
  import opened ConsistentHashing
  import opened Decimals
  import opened ServerSelection
  import opened Topologies

  // ----- Pool keys -----

  const COLON: byte := 58

  /** host + ":" + std::to_string(port) */
  function PoolKey(a: Address): Blob { a.host + [COLON] + DecimalBytes(a.port) }

  /** Different addresses have different keys, even if host names contain colons. */
  lemma PoolKeyInjective(a: Address, b: Address)
    requires PoolKey(a) == PoolKey(b)
    ensures a == b
  {
    hide Digits;
    LastSeparator(COLON, a.host, DecimalBytes(a.port), b.host, DecimalBytes(b.port));
    AsciiInjective(Digits(a.port), Digits(b.port));
    ValueOfDigits(a.port);
    ValueOfDigits(b.port);
  }

  // ----- The guarded state -----

  /** A pooled connection: the address it was made for, and which one it is. */
  datatype Conn = Conn(address: Address, serial: nat)

  datatype Cache = Cache(topology: Topology, table: Table, pool: map<Blob, Conn>, nextSerial: nat)

  const FRESH := Cache(EMPTY, NO_TABLE, map[], 0)

  /** Client settings; `intelligence` is fixed once connected. */
  datatype Policy = Policy(intelligence: Intelligence, proxy: bool)

  /** What the network does during one selection: the connections that are still alive, and the
      servers to which a new connection can be made. */
  datatype Network = Network(alive: set<nat>, up: set<Address>)

  function ServerAddresses(c: Cache): seq<Address> { Addresses(c.topology.servers) }

  /** At every release of the lock. */
  ghost predicate Invariant(c: Cache) {
    && (c.table == NO_TABLE || c.table == Convert(c.topology))
    && (forall k :: k in c.pool ==>
          c.pool[k].address in ServerAddresses(c) && k == PoolKey(c.pool[k].address))
  }

  // ----- handleTopologyUpdate -----

  function CurrentKeys(t: Topology): set<Blob> { set a | a in Addresses(t.servers) :: PoolKey(a) }

  function Updated(c: Cache, t: Topology, p: Policy): Cache {
    c.(topology := t,
       table := if p.intelligence == HashAware then Convert(t) else c.table,
       pool := map k | k in c.pool && k in CurrentKeys(t) :: c.pool[k])
  }

  lemma UpdatedKeepsInvariant(c: Cache, t: Topology, p: Policy)
    requires Invariant(c) && (p.intelligence != HashAware ==> c.table == NO_TABLE)
    ensures Invariant(Updated(c, t, p))
  {
    var d := Updated(c, t, p);
    forall k | k in d.pool
      ensures d.pool[k].address in ServerAddresses(d) && k == PoolKey(d.pool[k].address)
    {
      var a :| a in Addresses(t.servers) && k == PoolKey(a);
      PoolKeyInjective(a, c.pool[k].address);
    }
  }

  // ----- getConnectionForServer -----

  predicate Reusable(c: Cache, a: Address, net: Network) {
    PoolKey(a) in c.pool && c.pool[PoolKey(a)].serial in net.alive
  }

  predicate Reachable(c: Cache, a: Address, net: Network) {
    Reusable(c, a, net) || a in net.up
  }

  /** The pool after an attempt to get a connection to `a`. */
  function Acquired(c: Cache, a: Address, net: Network): Cache {
    if Reusable(c, a, net) then c
    else if a in net.up then
      c.(pool := c.pool[PoolKey(a) := Conn(a, c.nextSerial)], nextSerial := c.nextSerial + 1)
    else c.(pool := c.pool - {PoolKey(a)})
  }

  lemma AcquiredKeepsInvariant(c: Cache, a: Address, net: Network)
    requires Invariant(c) && a in ServerAddresses(c)
    ensures Invariant(Acquired(c, a, net))
    ensures Acquired(c, a, net).topology == c.topology && Acquired(c, a, net).table == c.table
    ensures Reachable(c, a, net) ==>
      PoolKey(a) in Acquired(c, a, net).pool && Acquired(c, a, net).pool[PoolKey(a)].address == a
  {
    hide PoolKey;
    if Reusable(c, a, net) {
      PoolKeyInjective(a, c.pool[PoolKey(a)].address);
    }
  }

  /** Trying one server does not change whether another one can be reached. */
  lemma AcquiredOther(c: Cache, a: Address, b: Address, net: Network)
    requires a != b
    ensures Reachable(Acquired(c, a, net), b, net) == Reachable(c, b, net)
  {
    hide PoolKey;
    if PoolKey(a) == PoolKey(b) {
      PoolKeyInjective(a, b);
    }
  }

  // ----- The sweep over the candidates -----

  /** Tries candidates in order until one can be reached. */
  function Swept(c: Cache, candidates: seq<Address>, net: Network): Cache
    decreases |candidates|
  {
    if candidates == [] then c
    else
      var d := Acquired(c, candidates[0], net);
      if Reachable(c, candidates[0], net) then d else Swept(d, candidates[1..], net)
  }

  /** How many candidates fail before one succeeds. */
  function Failures(c: Cache, candidates: seq<Address>, net: Network): (n: nat)
    ensures n <= |candidates|
    decreases |candidates|
  {
    if candidates == [] || Reachable(c, candidates[0], net) then 0
    else 1 + Failures(Acquired(c, candidates[0], net), candidates[1..], net)
  }

  /** The sweep stops at the first candidate that was reachable when the sweep began. */
  lemma {:induction false} FirstReachable(c: Cache, candidates: seq<Address>, net: Network)
    requires Distinct(candidates)
    ensures var n := Failures(c, candidates, net);
      && (forall i :: 0 <= i < n ==> !Reachable(c, candidates[i], net))
      && (n < |candidates| ==> Reachable(c, candidates[n], net))
    decreases |candidates|
  {
    hide Reachable, Acquired;
    if candidates != [] && !Reachable(c, candidates[0], net) {
      var d, rest := Acquired(c, candidates[0], net), candidates[1..];
      FirstReachable(d, rest, net);
      forall i | 0 <= i < |rest| ensures Reachable(d, rest[i], net) == Reachable(c, rest[i], net) {
        AcquiredOther(c, candidates[0], rest[i], net);
      }
      var m := Failures(d, rest, net);
      assert Failures(c, candidates, net) == m + 1;
      forall i | 0 <= i < m + 1 ensures !Reachable(c, candidates[i], net) {
        if i > 0 {
          assert candidates[i] == rest[i - 1];
        }
      }
    }
  }

  lemma {:induction false} SweptKeepsInvariant(c: Cache, candidates: seq<Address>, net: Network)
    requires Invariant(c) && forall a :: a in candidates ==> a in ServerAddresses(c)
    ensures Invariant(Swept(c, candidates, net))
    ensures Swept(c, candidates, net).topology == c.topology && Swept(c, candidates, net).table == c.table
    ensures var n := Failures(c, candidates, net);
      n < |candidates| ==>
        && PoolKey(candidates[n]) in Swept(c, candidates, net).pool
        && Swept(c, candidates, net).pool[PoolKey(candidates[n])].address == candidates[n]
    decreases |candidates|
  {
    hide Reachable, Acquired, Invariant, PoolKey;
    if candidates != [] {
      AcquiredKeepsInvariant(c, candidates[0], net);
      if !Reachable(c, candidates[0], net) {
        SweptKeepsInvariant(Acquired(c, candidates[0], net), candidates[1..], net);
      }
    }
  }

  // ----- Selection -----

  /** `Chosen`: a pooled connection to a server, and every node attempted on the way.
      `Exhausted`: the exception thrown before anything is sent.
      `Default`: the connection the cache was created with, which no exclusion affects. */
  datatype Selection =
    | Chosen(node: Address, tried: seq<Address>)
    | Exhausted(triedNodes: seq<Address>, ownersExhausted: bool)
    | Default

  function OwnerAddresses(c: Cache, key: Blob): seq<Address> {
    Addresses(Owners(c.table, c.topology.servers, key))
  }

  /** Keyed selection looks at the topology only under these conditions. */
  predicate Routed(c: Cache, p: Policy, key: Blob) {
    p.intelligence == HashAware && c.table.numSegments > 0 && OwnerAddresses(c, key) != []
  }

  function KeyCandidates(c: Cache, p: Policy, key: Blob, exclude: seq<Address>): seq<Address> {
    Candidates(OwnerAddresses(c, key), ServerAddresses(c), exclude, p.proxy)
  }

  function AnyCandidates(c: Cache, exclude: seq<Address>): seq<Address> {
    Candidates([], ServerAddresses(c), exclude, true)
  }

  /** The outcome of a sweep; `owners` is what the exhaustion report is about. */
  function Outcome(c: Cache, candidates: seq<Address>, exclude: seq<Address>, net: Network,
                   keyed: bool, owners: seq<Address>): Selection {
    var n := Failures(c, candidates, net);
    if n < |candidates| then Chosen(candidates[n], candidates[..n + 1])
    else Exhausted(Union(exclude, candidates), keyed && Covered(owners, candidates, exclude))
  }

  predicate Covered(owners: seq<Address>, tried: seq<Address>, exclude: seq<Address>) {
    forall o :: o in owners ==> o in tried || o in exclude
  }

  function SelectForKey(c: Cache, p: Policy, key: Blob, exclude: seq<Address>, net: Network): Selection {
    if !Routed(c, p, key) then Default
    else Outcome(c, KeyCandidates(c, p, key, exclude), exclude, net, true, OwnerAddresses(c, key))
  }

  function AfterSelectForKey(c: Cache, p: Policy, key: Blob, exclude: seq<Address>, net: Network): Cache {
    if !Routed(c, p, key) then c else Swept(c, KeyCandidates(c, p, key, exclude), net)
  }

  function SelectAny(c: Cache, exclude: seq<Address>, net: Network): Selection {
    if c.topology.servers == [] then Default
    else Outcome(c, AnyCandidates(c, exclude), exclude, net, false, [])
  }

  function AfterSelectAny(c: Cache, exclude: seq<Address>, net: Network): Cache {
    if c.topology.servers == [] then c else Swept(c, AnyCandidates(c, exclude), net)
  }

  lemma {:induction false} ResolvedAreServers(servers: seq<Server>, ids: seq<int32>)
    ensures forall s :: s in Resolve(servers, ids) ==> s in servers
  {
    if ids != [] {
      ResolvedAreServers(servers, ids[..|ids| - 1]);
      FoundIsServer(servers, ids[|ids| - 1]);
    }
  }

  lemma {:induction false} FoundIsServer(servers: seq<Server>, id: int32)
    ensures FindById(servers, id).Some? ==> FindById(servers, id).value in servers
  {
    if servers != [] {
      FoundIsServer(servers[1..], id);
    }
  }

  lemma OwnersAreServers(c: Cache, key: Blob)
    ensures forall a :: a in OwnerAddresses(c, key) ==> a in ServerAddresses(c)
  {
    hide SegmentFor;
    var owners := Owners(c.table, c.topology.servers, key);
    if c.table.numSegments > 0 && SegmentFor(c.table, key) < |c.table.owners| {
      ResolvedAreServers(c.topology.servers, c.table.owners[SegmentFor(c.table, key)]);
    }
    forall a | a in OwnerAddresses(c, key) ensures a in ServerAddresses(c) {
      var i :| 0 <= i < |owners| && owners[i].address == a;
      assert owners[i] in owners;
      var j :| 0 <= j < |c.topology.servers| && c.topology.servers[j] == owners[i];
      assert ServerAddresses(c)[j] == a;
    }
  }

  lemma CandidatesAreServers(c: Cache, p: Policy, key: Blob, exclude: seq<Address>)
    ensures forall a :: a in KeyCandidates(c, p, key, exclude) ==> a in ServerAddresses(c)
    ensures forall a :: a in AnyCandidates(c, exclude) ==> a in ServerAddresses(c)
  {
    hide Candidates;
    OwnersAreServers(c, key);
    var _ := CandidatesFilter(OwnerAddresses(c, key), ServerAddresses(c), exclude, p.proxy);
    var _ := CandidatesFilter([], ServerAddresses(c), exclude, true);
  }

  /** Routing preference: the server chosen for a key is the first reachable candidate. It is no
      excluded node, and it is no owner only if proxying is on and every owner that is not
      excluded could not be reached. */
  lemma RoutingPreference(c: Cache, p: Policy, key: Blob, exclude: seq<Address>, net: Network)
    requires SelectForKey(c, p, key, exclude, net).Chosen?
    ensures var node := SelectForKey(c, p, key, exclude, net).node;
      && Reachable(c, node, net) && node !in exclude
      && node in ServerAddresses(c)
      && (node !in OwnerAddresses(c, key) ==>
            p.proxy && forall o :: o in OwnerAddresses(c, key) && o !in exclude ==> !Reachable(c, o, net))
  {
    hide Candidates, Failures, Reachable;
    var owners, all := OwnerAddresses(c, key), ServerAddresses(c);
    var candidates := KeyCandidates(c, p, key, exclude);
    var _ := CandidatesFilter(owners, all, exclude, p.proxy);
    CandidatesAreServers(c, p, key, exclude);
    FirstReachable(c, candidates, net);
    var n := Failures(c, candidates, net);
    if candidates[n] !in owners {
      OwnersFirst(owners, all, exclude, p.proxy, n);
      forall o | o in owners && o !in exclude ensures !Reachable(c, o, net) {
        var i :| 0 <= i < n && candidates[i] == o;
      }
    }
  }

  /** Exhaustion is truthful: when keyed selection throws, no candidate could be reached, the flag
      `ownersExhausted` is always set, and triedNodes is exactly the exclusions together with every
      owner (and, when proxying, every server). */
  lemma ExhaustionTruthful(c: Cache, p: Policy, key: Blob, exclude: seq<Address>, net: Network)
    requires SelectForKey(c, p, key, exclude, net).Exhausted?
    ensures var e := SelectForKey(c, p, key, exclude, net);
      && e.ownersExhausted
      && (forall a :: a in e.triedNodes
            <==> a in exclude || a in OwnerAddresses(c, key) || (p.proxy && a in ServerAddresses(c)))
      && (forall a :: a in e.triedNodes && a !in exclude ==> !Reachable(c, a, net))
  {
    hide Candidates, Failures, Reachable;
    var owners, all := OwnerAddresses(c, key), ServerAddresses(c);
    var candidates := KeyCandidates(c, p, key, exclude);
    var _ := CandidatesFilter(owners, all, exclude, p.proxy);
    FirstReachable(c, candidates, net);
    UnionMembers(exclude, candidates);
    forall a | a in candidates ensures !Reachable(c, a, net) {
      var i :| 0 <= i < |candidates| && candidates[i] == a;
    }
  }

  // ----- All runs -----

  datatype Event =
    | TopologyUpdate(topology: Topology)
    | KeySelection(key: Blob, exclude: seq<Address>, network: Network)
    | AnySelection(exclude: seq<Address>, network: Network)

  function After(c: Cache, p: Policy, e: Event): Cache {
    match e
    case TopologyUpdate(t) => Updated(c, t, p)
    case KeySelection(key, exclude, net) => AfterSelectForKey(c, p, key, exclude, net)
    case AnySelection(exclude, net) => AfterSelectAny(c, exclude, net)
  }

  function Run(c: Cache, p: Policy, events: seq<Event>): Cache {
    if events == [] then c else After(Run(c, p, events[..|events| - 1]), p, events[|events| - 1])
  }

  /** A hash-aware client has the table of its topology at all times, and no other client has one. */
  ghost predicate Sound(c: Cache, p: Policy) {
    Invariant(c) && c.table == if p.intelligence == HashAware then Convert(c.topology) else NO_TABLE
  }

  lemma AfterSound(c: Cache, p: Policy, e: Event)
    requires Sound(c, p)
    ensures Sound(After(c, p, e), p)
  {
    hide Swept, KeyCandidates, AnyCandidates, Invariant, Convert;
    match e
    case TopologyUpdate(t) => UpdatedKeepsInvariant(c, t, p);
    case KeySelection(key, exclude, net) =>
      CandidatesAreServers(c, p, key, exclude);
      SweptKeepsInvariant(c, KeyCandidates(c, p, key, exclude), net);
    case AnySelection(exclude, net) =>
      CandidatesAreServers(c, p, [], exclude);
      SweptKeepsInvariant(c, AnyCandidates(c, exclude), net);
  }

  /** After any sequence of topology updates and selections: the hash table of a hash-aware client is
      exactly the conversion of the current topology (and empty if that is not valid), every pool key belongs to a current server, and every
      pooled connection was made for the address of its key. */
  lemma {:induction false} SoundThroughout(p: Policy, events: seq<Event>)
    ensures Sound(Run(FRESH, p, events), p)
  {
    if events != [] {
      SoundThroughout(p, events[..|events| - 1]);
      AfterSound(Run(FRESH, p, events[..|events| - 1]), p, events[|events| - 1]);
    }
  }

  // ----- The class -----

  class RemoteCache {
    const policy: Policy
    const consistentHash: ConsistentHash
    var topology: Topology
    var connectionPool: map<Blob, Conn>
    var nextSerial: nat

    ghost function View(): Cache
      reads this, consistentHash
    {
      Cache(topology, consistentHash.View(), connectionPool, nextSerial)
    }

    constructor (policy: Policy)
      ensures View() == FRESH && this.policy == policy && fresh(consistentHash)
    {
      this.policy := policy;
      consistentHash := new ConsistentHash();
      topology, connectionPool, nextSerial := EMPTY, map[], 0;
    }

    method HandleTopologyUpdate(t: Topology)
      modifies this, consistentHash
      ensures View() == Updated(old(View()), t, policy)
    {
      hide Convert;
      topology := t;
      if policy.intelligence == HashAware {
        consistentHash.UpdateFromTopology(t);
      }
      CleanupStaleConnections();
    }

    /** Drops every pooled connection whose key is not that of a current server. */
    method CleanupStaleConnections()
      modifies this`connectionPool
      ensures connectionPool == map k | k in old(connectionPool) && k in CurrentKeys(topology) :: old(connectionPool)[k]
    {
      hide PoolKey;
      var current: set<Blob> := {};
      for i := 0 to |topology.servers|
        invariant current == set j | 0 <= j < i :: PoolKey(topology.servers[j].address)
      {
        current := current + {PoolKey(topology.servers[i].address)};
      }
      assert current == CurrentKeys(topology) by {
        forall k | k in CurrentKeys(topology) ensures k in current {
          var a :| a in Addresses(topology.servers) && k == PoolKey(a);
          var j :| 0 <= j < |topology.servers| && Addresses(topology.servers)[j] == a;
          assert k == PoolKey(topology.servers[j].address);
        }
        forall k | k in current ensures k in CurrentKeys(topology) {
          var j :| 0 <= j < |topology.servers| && k == PoolKey(topology.servers[j].address);
          assert Addresses(topology.servers)[j] == topology.servers[j].address;
        }
      }

      var unseen := connectionPool.Keys;
      while unseen != {}
        invariant unseen <= connectionPool.Keys <= old(connectionPool).Keys
        invariant forall k :: k in connectionPool ==> connectionPool[k] == old(connectionPool)[k]
        invariant forall k :: k in old(connectionPool) && k !in unseen ==> (k in connectionPool <==> k in current)
        decreases unseen
      {
        var k :| k in unseen;
        unseen := unseen - {k};
        if k !in current {
          connectionPool := connectionPool - {k};
        }
      }
    }

    /** Reuses a live pooled connection, replaces a dead one, or opens a new one; `None` is the
        exception of a failed connect. */
    method GetConnectionForServer(a: Address, net: Network) returns (r: Option<Conn>)
      modifies this`connectionPool, this`nextSerial
      ensures View() == Acquired(old(View()), a, net)
      ensures r.Some? <==> Reachable(old(View()), a, net)
      ensures r.Some? ==> PoolKey(a) in connectionPool && r.value == connectionPool[PoolKey(a)]
      ensures r.Some? ==> r.value.serial in net.alive || r.value == Conn(a, old(nextSerial))
    {
      hide PoolKey;
      var poolKey := PoolKey(a);
      if poolKey in connectionPool {
        if connectionPool[poolKey].serial in net.alive {
          return Some(connectionPool[poolKey]);
        }
        connectionPool := connectionPool - {poolKey};
      }
      assert connectionPool == old(connectionPool) - {poolKey};
      if a !in net.up {
        return None;
      }
      var newConnection := Conn(a, nextSerial);
      connectionPool := connectionPool[poolKey := newConnection];
      assert connectionPool == old(connectionPool)[poolKey := newConnection];
      nextSerial := nextSerial + 1;
      r := Some(newConnection);
    }

    /** The loop over the candidates, common to both selections. */
    method Sweep(candidates: seq<Address>, net: Network) returns (conn: Option<Conn>, tried: seq<Address>)
      modifies this`connectionPool, this`nextSerial
      ensures View() == Swept(old(View()), candidates, net)
      ensures var n := Failures(old(View()), candidates, net);
        if n < |candidates|
        then conn.Some? && tried == candidates[..n + 1]
             && PoolKey(candidates[n]) in connectionPool && conn.value == connectionPool[PoolKey(candidates[n])]
        else conn.None? && tried == candidates
    {
      hide PoolKey, Acquired, Reachable;
      tried := [];
      for i := 0 to |candidates|
        invariant tried == candidates[..i]
        invariant Swept(old(View()), candidates, net) == Swept(View(), candidates[i..], net)
        invariant Failures(old(View()), candidates, net) == i + Failures(View(), candidates[i..], net)
      {
        ghost var before, ahead := View(), candidates[i..];
        assert ahead[0] == candidates[i] && ahead[1..] == candidates[i + 1..];
        tried := tried + [candidates[i]];
        conn := GetConnectionForServer(candidates[i], net);
        if conn.Some? {
          return;
        }
      }
      conn := None;
    }

    method SelectServerForKey(key: Blob, exclude: seq<Address>, net: Network)
      returns (s: Selection, conn: Option<Conn>)
      modifies this`connectionPool, this`nextSerial
      ensures s == SelectForKey(old(View()), policy, key, exclude, net)
      ensures View() == AfterSelectForKey(old(View()), policy, key, exclude, net)
      ensures s.Chosen? <==> conn.Some?
      ensures s.Chosen? ==> PoolKey(s.node) in connectionPool && conn.value == connectionPool[PoolKey(s.node)]
    {
      hide PoolKey, Swept, Failures, Owners, Candidates;
      ghost var c := View();
      if policy.intelligence == HashAware && consistentHash.numSegments > 0 {
        var owners := consistentHash.GetOwners(key, topology.servers);
        if owners != [] {
          var ownerAddrs := Addresses(owners);
          var candidates := OrderKeyCandidates(ownerAddrs, Addresses(topology.servers), exclude, policy.proxy);
          var tried;
          conn, tried := Sweep(candidates, net);
          if conn.Some? {
            return Chosen(tried[|tried| - 1], tried), conn;
          }
          var ownersExhausted := true;
          for i := 0 to |ownerAddrs|
            invariant ownersExhausted
            invariant forall j :: 0 <= j < i ==> ownerAddrs[j] in tried || ownerAddrs[j] in exclude
          {
            if ownerAddrs[i] !in tried && ownerAddrs[i] !in exclude {
              ownersExhausted := false;
              break;
            }
          }
          var nodes := UnionNodes(exclude, tried);
          return Exhausted(nodes, ownersExhausted), None;
        }
      }
      return Default, None;
    }

    method SelectAnyServer(exclude: seq<Address>, net: Network) returns (s: Selection, conn: Option<Conn>)
      modifies this`connectionPool, this`nextSerial
      ensures s == SelectAny(old(View()), exclude, net)
      ensures View() == AfterSelectAny(old(View()), exclude, net)
      ensures s.Chosen? <==> conn.Some?
      ensures s.Chosen? ==> PoolKey(s.node) in connectionPool && conn.value == connectionPool[PoolKey(s.node)]
    {
      hide PoolKey, Swept, Failures, Candidates;
      if topology.servers == [] {
        return Default, None;
      }
      var candidates := OrderKeyCandidates([], Addresses(topology.servers), exclude, true);
      var tried;
      conn, tried := Sweep(candidates, net);
      if conn.Some? {
        return Chosen(tried[|tried| - 1], tried), conn;
      }
      var nodes := UnionNodes(exclude, tried);
      return Exhausted(nodes, false), None;
    }
  }
}
