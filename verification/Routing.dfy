/** Where an operation goes, from the update that the server sent to the connection that is used. */
module Routing {
  import opened Bytes
  import opened ConsistentHashing
  import Murmur = MurmurHash3
  import opened RemoteCaches
  import Retries
  import opened ServerSelection
  import opened Topologies

  // ----- In terms of the update -----

  /** The segment of a key among n, in numbers. */
  function SegmentAmong(key: Blob, n: nat): int {
    (Murmur.Hash32(Octets(key), 9001) as int) % 0x8000_0000 * n / 0x8000_0000
  }

  /** An update that a hash-aware client can use: there are segments, not too many to count, and every
      index names a server that was kept. */
  ghost predicate Usable(u: Update) {
    && 0 < |u.segments| < 0x8000_0000
    && forall s, i :: 0 <= s < |u.segments| && 0 <= i < |u.segments[s]| ==> u.segments[s][i] < |Kept(u.servers)|
  }

  lemma UsableIff(u: Update)
    requires UpdateFits(u)
    ensures Convertible(TopologyOf(u, HashAware)) <==> Usable(u)
  {
    hide Kept;
    var t := TopologyOf(u, HashAware);
    assert t.segmentOwners == u.segments && t.servers == Kept(u.servers);
    if IndexesValid(t) {
      forall s, i | 0 <= s < |u.segments| && 0 <= i < |u.segments[s]| ensures u.segments[s][i] < |Kept(u.servers)| {
        assert RowValid(t, s);
      }
    }
  }

  /** The owners that the update names for a key, in its order. */
  function NamedOwners(u: Update, key: Blob): seq<Address>
    requires Usable(u) && 0 <= SegmentAmong(key, |u.segments|) < |u.segments|
  {
    var indexes := u.segments[SegmentAmong(key, |u.segments|)];
    seq(|indexes|, i requires 0 <= i < |indexes| => Kept(u.servers)[indexes[i]].address)
  }

  lemma SegmentExists(u: Update, key: Blob)
    requires UpdateFits(u) && Usable(u)
    ensures 0 <= SegmentAmong(key, |u.segments|) < |u.segments|
    ensures SegmentFor(Convert(TopologyOf(u, HashAware)), key) == SegmentAmong(key, |u.segments|)
  {
    hide Octets, Murmur.Hash32, SegmentFor;
    var t := TopologyOf(u, HashAware);
    UsableIff(u);
    ConvertConsistent(t);
    SegmentFormula(Convert(t), key);
    SegmentForIsSegmentOf(Convert(t), key);
  }

  lemma OwnersAreNamed(u: Update, c: Cache, key: Blob)
    requires UpdateFits(u) && Usable(u) && c.topology == TopologyOf(u, HashAware) && c.table == Convert(c.topology)
    ensures 0 <= SegmentAmong(key, |u.segments|) < |u.segments| && OwnerAddresses(c, key) == NamedOwners(u, key)
  {
    hide SegmentAmong, SegmentFor, Owners, Convert, Kept;
    UsableIff(u);
    SegmentExists(u, key);
    ParsedOwnersAreIndexed(u, key);
  }

  /** A cache that has taken over the update. */
  ghost predicate Follows(c: Cache, p: Policy, u: Update) {
    UpdateFits(u) && Sound(c, p) && c.topology == TopologyOf(u, HashAware)
  }

  /** A keyed selection leaves the default connection exactly if the client is hash-aware, the update can
      be used, and it names an owner for the key. */
  lemma DefaultIff(c: Cache, p: Policy, u: Update, key: Blob, exclude: seq<Address>, net: Network)
    requires Follows(c, p, u)
    ensures SelectForKey(c, p, key, exclude, net) == Default <==>
      || p.intelligence != HashAware || !Usable(u)
      || !(0 <= SegmentAmong(key, |u.segments|) < |u.segments|)
      || u.segments[SegmentAmong(key, |u.segments|)] == []
    ensures Usable(u) ==> 0 <= SegmentAmong(key, |u.segments|) < |u.segments|
  {
    hide SegmentAmong, Convert, OwnerAddresses, Failures, KeyCandidates, Usable;
    UsableIff(u);
    ConvertConsistent(c.topology);
    if Usable(u) {
      SegmentExists(u, key);
      if p.intelligence == HashAware {
        OwnersAreNamed(u, c, key);
        NamedCount(u, key);
      }
    }
  }

  lemma NamedCount(u: Update, key: Blob)
    requires Usable(u) && 0 <= SegmentAmong(key, |u.segments|) < |u.segments|
    ensures |NamedOwners(u, key)| == |u.segments[SegmentAmong(key, |u.segments|)]|
  {
    hide SegmentAmong, Kept;
  }

  // ----- The first that works -----

  lemma AllBefore(source: seq<Address>, n: nat)
    requires n <= |source|
    ensures forall i :: 0 <= i < n ==> source[i] in source[..n]
  {
    forall i | 0 <= i < n ensures source[i] in source[..n] {
      assert source[..n][i] == source[i];
    }
  }

  /** The sweep over the filtered list ends at the first element of the unfiltered one that is neither
      excluded nor unreachable. */
  lemma SweepFindsFirst(c: Cache, source: seq<Address>, exclude: seq<Address>, net: Network, j: nat)
    requires j < |source| && source[j] !in exclude && Reachable(c, source[j], net)
    requires forall i :: 0 <= i < j ==> source[i] in exclude || !Reachable(c, source[i], net)
    ensures var candidates := PushAll([], source, exclude);
      var n := Failures(c, candidates, net);
      n < |candidates| && candidates[n] == source[j]
  {
    hide PushAll, Reachable, Failures;
    var candidates := PushAll([], source, exclude);
    var from := PushAllFirst(source, exclude);
    PushAllExtends([], source, exclude);
    FirstReachable(c, candidates, net);
    var n := Failures(c, candidates, net);
    assert source[j] in source;
    var m :| 0 <= m < |candidates| && candidates[m] == source[j];
    AllBefore(source, from[m]);
    assert from[m] <= j;
    assert n <= m;
    assert candidates[n] == source[from[n]];
  }

  /** The choice for a key, in terms of the update: the first owner in the order of its indexes, and after
      them (when proxying) the first server, that is neither excluded nor unreachable. */
  lemma FirstWorkingIsChosen(c: Cache, p: Policy, u: Update, key: Blob, exclude: seq<Address>, net: Network, j: nat)
    requires Follows(c, p, u) && p.intelligence == HashAware && Usable(u)
    requires 0 <= SegmentAmong(key, |u.segments|) < |u.segments| && NamedOwners(u, key) != []
    requires var source := NamedOwners(u, key) + (if p.proxy then Addresses(Kept(u.servers)) else []);
      && j < |source| && source[j] !in exclude && Reachable(c, source[j], net)
      && forall i :: 0 <= i < j ==> source[i] in exclude || !Reachable(c, source[i], net)
    ensures var source := NamedOwners(u, key) + (if p.proxy then Addresses(Kept(u.servers)) else []);
      var s := SelectForKey(c, p, key, exclude, net);
      s.Chosen? && s.node == source[j]
  {
    hide SegmentAmong, Convert, OwnerAddresses, Failures, Usable, NamedOwners, Reachable, Kept, PushAll, Addresses;
    OwnersAreNamed(u, c, key);
    UsableIff(u);
    ConvertConsistent(c.topology);
    SweepFindsFirst(c, NamedOwners(u, key) + (if p.proxy then Addresses(Kept(u.servers)) else []), exclude, net, j);
  }

  /** What was tried: the candidates up to the chosen one, and all before it failed. */
  lemma TriedAreFailures(c: Cache, p: Policy, key: Blob, exclude: seq<Address>, net: Network)
    requires SelectForKey(c, p, key, exclude, net).Chosen?
    ensures var s := SelectForKey(c, p, key, exclude, net);
      var candidates := Candidates(OwnerAddresses(c, key), ServerAddresses(c), exclude, p.proxy);
      && 0 < |s.tried| && s.tried <= candidates && s.tried[|s.tried| - 1] == s.node
      && Reachable(c, s.node, net)
      && forall i :: 0 <= i < |s.tried| - 1 ==> !Reachable(c, s.tried[i], net)
  {
    hide Candidates, Failures, Reachable, OwnerAddresses;
    var candidates := KeyCandidates(c, p, key, exclude);
    var _ := CandidatesFilter(OwnerAddresses(c, key), ServerAddresses(c), exclude, p.proxy);
    FirstReachable(c, candidates, net);
  }

  /** Without a key: the default connection exactly if there is no topology. */
  lemma KeylessDefaultIff(c: Cache, exclude: seq<Address>, net: Network)
    ensures SelectAny(c, exclude, net) == Default <==> c.topology.servers == []
  {
    hide AnyCandidates, Failures;
  }

  /** Otherwise the first server that is neither excluded nor unreachable. */
  lemma KeylessChoice(c: Cache, exclude: seq<Address>, net: Network, j: nat)
    requires j < |ServerAddresses(c)| && ServerAddresses(c)[j] !in exclude && Reachable(c, ServerAddresses(c)[j], net)
    requires forall i :: 0 <= i < j ==> ServerAddresses(c)[i] in exclude || !Reachable(c, ServerAddresses(c)[i], net)
    ensures var s := SelectAny(c, exclude, net); s.Chosen? && s.node == ServerAddresses(c)[j]
  {
    hide PushAll, Failures, Reachable;
    assert [] + ServerAddresses(c) == ServerAddresses(c);
    SweepFindsFirst(c, ServerAddresses(c), exclude, net, j);
  }

  /** When no server works the report is exact, and never blamed on owners. */
  lemma KeylessExhaustion(c: Cache, exclude: seq<Address>, net: Network)
    requires SelectAny(c, exclude, net).Exhausted?
    ensures var s := SelectAny(c, exclude, net);
      && !s.ownersExhausted
      && (forall a :: a in s.triedNodes <==> a in exclude || a in ServerAddresses(c))
      && (forall a :: a in ServerAddresses(c) && a !in exclude ==> !Reachable(c, a, net))
  {
    hide Candidates, Failures, Reachable, Union, ServerAddresses;
    var candidates := AnyCandidates(c, exclude);
    var _ := CandidatesFilter([], ServerAddresses(c), exclude, true);
    FirstReachable(c, candidates, net);
    UnionMembers(exclude, candidates);
    forall a | a in candidates ensures !Reachable(c, a, net) {
      var i :| 0 <= i < |candidates| && candidates[i] == a;
    }
  }

  /** Exclusions make no difference to the selection for a key if and only if the update gives no reason to
      route it: each attempt then gets the default connection again. */
  lemma ExclusionsMatterIff(c: Cache, p: Policy, u: Update, key: Blob, net: Network)
    requires Follows(c, p, u)
    ensures (exists e, f: seq<Address> :: SelectForKey(c, p, key, e, net) != SelectForKey(c, p, key, f, net)) <==>
      && p.intelligence == HashAware && Usable(u)
      && 0 <= SegmentAmong(key, |u.segments|) < |u.segments|
      && u.segments[SegmentAmong(key, |u.segments|)] != []
  {
    hide SegmentAmong, Usable, OwnerAddresses, Follows, KeyCandidates, Failures, Union;
    DefaultIff(c, p, u, key, [], net);
    Retries.ExclusionsIgnoredIff(c, p, key, net);
  }

  // ----- Connections -----

  /** A live pooled connection is the one that is used, and nothing changes; otherwise a connection that
      can be made gets a number that was not given out before. */
  lemma LiveIsReused(c: Cache, a: Address, net: Network)
    ensures PoolKey(a) in c.pool && c.pool[PoolKey(a)].serial in net.alive ==> Acquired(c, a, net) == c
    ensures !(PoolKey(a) in c.pool && c.pool[PoolKey(a)].serial in net.alive) && a in net.up ==>
      Acquired(c, a, net).pool == c.pool[PoolKey(a) := Conn(a, c.nextSerial)]
      && Acquired(c, a, net).nextSerial == c.nextSerial + 1
    ensures !(PoolKey(a) in c.pool && c.pool[PoolKey(a)].serial in net.alive) && a !in net.up ==>
      PoolKey(a) !in Acquired(c, a, net).pool && Acquired(c, a, net).nextSerial == c.nextSerial
  {
  }

  /** The connection of the chosen server is one that was alive in the pool, or new. */
  lemma {:induction false} SweptConnection(c: Cache, candidates: seq<Address>, net: Network)
    requires Distinct(candidates) && Failures(c, candidates, net) < |candidates|
    ensures var a := candidates[Failures(c, candidates, net)];
      var d := Swept(c, candidates, net);
      && PoolKey(a) in d.pool
      && if PoolKey(a) in c.pool && c.pool[PoolKey(a)].serial in net.alive then d.pool[PoolKey(a)] == c.pool[PoolKey(a)]
         else a in net.up && d.pool[PoolKey(a)] == Conn(a, c.nextSerial)
    decreases |candidates|
  {
    hide PoolKey;
    if !Reachable(c, candidates[0], net) {
      var d, rest := Acquired(c, candidates[0], net), candidates[1..];
      SweptConnection(d, rest, net);
      var a := rest[Failures(d, rest, net)];
      assert a != candidates[0];
      if PoolKey(a) == PoolKey(candidates[0]) {
        PoolKeyInjective(a, candidates[0]);
      }
    }
  }

  /** An update drops the connections to servers that are gone, and only those. */
  lemma UpdateKeepsIff(c: Cache, t: Topology, p: Policy, k: Blob)
    requires Invariant(c) && k in c.pool
    ensures k in Updated(c, t, p).pool <==> c.pool[k].address in Addresses(t.servers)
    ensures k in Updated(c, t, p).pool ==> Updated(c, t, p).pool[k] == c.pool[k]
  {
    hide PoolKey, Convert;
    if k in CurrentKeys(t) {
      var a :| a in Addresses(t.servers) && k == PoolKey(a);
      PoolKeyInjective(a, c.pool[k].address);
    }
  }
}
