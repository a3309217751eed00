/** Retrying with exclusions: what include/hotrod/RetryContext.h tells callers to do with the
    nodes that src/operations/RemoteCache.cpp reports. */
module Retries {
  import opened Bytes
  import opened ConsistentHashing
  import opened RemoteCaches
  import opened ServerSelection
  import opened Topologies

  /** A keyed operation, or a ping. */
  datatype Target = Keyed(key: Blob) | Keyless

  function Select(c: Cache, p: Policy, target: Target, exclude: seq<Address>, net: Network): Selection {
    match target
    case Keyed(key) => SelectForKey(c, p, key, exclude, net)
    case Keyless => SelectAny(c, exclude, net)
  }

  /** The nodes that a selection may choose from, before exclusions. */
  function Pool(c: Cache, p: Policy, target: Target): seq<Address> {
    match target
    case Keyed(key) => OwnerAddresses(c, key) + (if p.proxy then ServerAddresses(c) else [])
    case Keyless => ServerAddresses(c)
  }

  /** Whether exclusions are looked at at all. */
  predicate Routes(c: Cache, p: Policy, target: Target) {
    match target
    case Keyed(key) => Routed(c, p, key)
    case Keyless => c.topology.servers != []
  }

  /** How a dispatched operation fails with a typed exception. `Delivered` comes out of the response
      future, carrying the connection's own node or none. `Thrown` comes out of execute itself,
      before there is a future, and always carries just the connection's own node. */
  datatype Failure = Delivered(carried: seq<Address>) | Thrown

  /** triedNodes of the exception that the caller catches: rethrowWithTriedNodes enriches only what
      the future delivers. */
  function TriedNodes(exclude: seq<Address>, node: Address, tried: seq<Address>, f: Failure): seq<Address> {
    match f
    case Delivered(carried) => Union(Union(exclude, tried), carried)
    case Thrown => [node]
  }

  lemma ChosenFromPool(c: Cache, p: Policy, target: Target, exclude: seq<Address>, net: Network)
    requires Select(c, p, target, exclude, net).Chosen?
    ensures var s := Select(c, p, target, exclude, net);
      && s.node !in exclude && s.node in s.tried
      && (forall a :: a in s.tried ==> a in Pool(c, p, target) && a !in exclude)
  {
    hide Candidates, Failures, OwnerAddresses;
    match target
    case Keyed(key) =>
      var _ := CandidatesFilter(OwnerAddresses(c, key), ServerAddresses(c), exclude, p.proxy);
    case Keyless =>
      var _ := CandidatesFilter([], ServerAddresses(c), exclude, true);
  }

  /** Selection gives up exactly if nothing that is not excluded can be reached. */
  lemma ExhaustedIff(c: Cache, p: Policy, target: Target, exclude: seq<Address>, net: Network)
    requires Routes(c, p, target)
    ensures Select(c, p, target, exclude, net).Exhausted?
        <==> forall a :: a in Pool(c, p, target) && a !in exclude ==> !Reachable(c, a, net)
  {
    hide Candidates, Failures, OwnerAddresses, Reachable;
    var candidates := match target
      case Keyed(key) => KeyCandidates(c, p, key, exclude)
      case Keyless => AnyCandidates(c, exclude);
    match target {
      case Keyed(key) =>
        var _ := CandidatesFilter(OwnerAddresses(c, key), ServerAddresses(c), exclude, p.proxy);
      case Keyless =>
        var _ := CandidatesFilter([], ServerAddresses(c), exclude, true);
    }
    assert forall a :: a in candidates <==> a in Pool(c, p, target) && a !in exclude;
    FirstReachable(c, candidates, net);
    var n := Failures(c, candidates, net);
    if n < |candidates| {
      assert candidates[n] in candidates;
    } else {
      forall a | a in candidates ensures !Reachable(c, a, net) {
        var i :| 0 <= i < |candidates| && candidates[i] == a;
      }
    }
  }

  /** The next exclusion set keeps what was excluded and adds the node just used exactly if the
      failure came out of the future, or nothing had been excluded yet. */
  lemma ProgressIff(c: Cache, p: Policy, target: Target, exclude: seq<Address>, net: Network, f: Failure)
    requires Select(c, p, target, exclude, net).Chosen?
    ensures var s := Select(c, p, target, exclude, net);
      var next := TriedNodes(exclude, s.node, s.tried, f);
      && ((forall a :: a in exclude || a == s.node ==> a in next) <==> f.Delivered? || exclude == [])
      && s.node in next
  {
    hide Select, Pool;
    var s := Select(c, p, target, exclude, net);
    ChosenFromPool(c, p, target, exclude, net);
    if f.Delivered? {
      UnionMembers(exclude, s.tried);
      UnionMembers(Union(exclude, s.tried), f.carried);
    } else if exclude != [] {
      assert exclude[0] in exclude && exclude[0] != s.node;
    }
  }

  /** What the caller is told was tried, exactly: everything excluded before, everything tried now and
      what the failure carried, if the future delivers it; the one node, if execute throws it. */
  lemma ToldExactly(exclude: seq<Address>, node: Address, tried: seq<Address>, carried: seq<Address>)
    ensures forall a :: a in TriedNodes(exclude, node, tried, Delivered(carried))
                        <==> a in exclude || a in tried || a in carried
    ensures forall a :: a in TriedNodes(exclude, node, tried, Thrown) <==> a == node
  {
    hide Union;
    UnionMembers(exclude, tried);
    UnionMembers(Union(exclude, tried), carried);
  }

  // ----- A whole series of attempts -----

  /** One failed dispatch: the state selected from, the exclusions, the network at the time, and
      the nodes that the delivered exception carried. */
  datatype Attempt = Attempt(cache: Cache, exclude: seq<Address>, network: Network, carried: seq<Address>)

  function Pick(p: Policy, target: Target, a: Attempt): Selection {
    Select(a.cache, p, target, a.exclude, a.network)
  }

  /** The caller feeds triedNodes of every failure back as the next exclusions. Pools and networks
      change freely between attempts; the topology does not. */
  ghost predicate Series(p: Policy, target: Target, attempts: seq<Attempt>) {
    && (forall i :: 0 <= i < |attempts| ==> Pick(p, target, attempts[i]).Chosen?)
    && (forall i :: 0 <= i < |attempts| - 1 ==> Follows(p, target, attempts[i], attempts[i + 1]))
  }

  ghost predicate Follows(p: Policy, target: Target, a: Attempt, b: Attempt)
    requires Pick(p, target, a).Chosen?
  {
    && b.cache.topology == a.cache.topology && b.cache.table == a.cache.table
    && b.exclude == TriedNodes(a.exclude, Pick(p, target, a).node, Pick(p, target, a).tried, Delivered(a.carried))
  }

  lemma SamePool(p: Policy, target: Target, c: Cache, d: Cache)
    requires c.topology == d.topology && c.table == d.table
    ensures Pool(c, p, target) == Pool(d, p, target)
  {
  }

  /** Exclusions only ever grow, and contain every node used before. */
  lemma {:induction false} ExclusionsGrow(p: Policy, target: Target, attempts: seq<Attempt>, i: nat, j: nat)
    requires Series(p, target, attempts) && i < j < |attempts|
    ensures forall a :: a in attempts[i].exclude ==> a in attempts[j].exclude
    ensures Pick(p, target, attempts[i]).node in attempts[j].exclude
    ensures Pool(attempts[i].cache, p, target) == Pool(attempts[j].cache, p, target)
    decreases j
  {
    hide Pick, Pool, TriedNodes;
    var k := j - 1;
    var a := attempts[k];
    assert Follows(p, target, a, attempts[j]);
    SamePool(p, target, a.cache, attempts[j].cache);
    Step(p, target, a);
    if i < k {
      ExclusionsGrow(p, target, attempts, i, k);
    }
  }

  lemma Step(p: Policy, target: Target, a: Attempt)
    requires Pick(p, target, a).Chosen?
    ensures var s := Pick(p, target, a);
      && (forall x :: x in a.exclude || x == s.node ==>
           x in TriedNodes(a.exclude, s.node, s.tried, Delivered(a.carried)))
      && s.node !in a.exclude && s.node in Pool(a.cache, p, target)
  {
    hide Select, Pool, TriedNodes;
    ProgressIff(a.cache, p, target, a.exclude, a.network, Delivered(a.carried));
    ChosenFromPool(a.cache, p, target, a.exclude, a.network);
  }

  lemma {:induction false} DistinctFits<T>(s: seq<T>, pool: seq<T>)
    requires Distinct(s) && forall x :: x in s ==> x in pool
    ensures |s| <= |pool|
  {
    if s != [] {
      var n := |s| - 1;
      assert s[n] in s;
      var i :| 0 <= i < |pool| && pool[i] == s[n];
      var rest := pool[..i] + pool[i + 1..];
      forall x | x in s[..n] ensures x in rest {
        var k :| 0 <= k < n && s[k] == x;
        assert s[k] in s;
        var j :| 0 <= j < |pool| && pool[j] == x;
        assert if j < i then rest[j] == x else rest[j - 1] == x;
      }
      DistinctFits(s[..n], rest);
    }
  }

  /** Retry progress and termination: a series of failed dispatches never uses a node twice, so it
      is no longer than the list of nodes that qualify. */
  lemma RetriesTerminate(p: Policy, target: Target, attempts: seq<Attempt>)
    requires Series(p, target, attempts) && attempts != []
    ensures forall i, j :: 0 <= i < j < |attempts| ==>
      Pick(p, target, attempts[i]).node != Pick(p, target, attempts[j]).node
    ensures |attempts| <= |Pool(attempts[0].cache, p, target)|
  {
    hide Pick, Pool, TriedNodes, Follows;
    var nodes := seq(|attempts|, i requires 0 <= i < |attempts| => Pick(p, target, attempts[i]).node);
    var pool := Pool(attempts[0].cache, p, target);
    forall j | 0 <= j < |attempts| ensures nodes[j] !in attempts[j].exclude && nodes[j] in pool {
      Step(p, target, attempts[j]);
      if j > 0 {
        ExclusionsGrow(p, target, attempts, 0, j);
      }
    }
    forall i, j | 0 <= i < j < |attempts| ensures nodes[i] != nodes[j] {
      ExclusionsGrow(p, target, attempts, i, j);
    }
    DistinctFits(nodes, pool);
  }

  function Members(s: seq<Address>): set<Address> { set x | x in s }

  lemma {:induction false} DistinctCount(s: seq<Address>)
    requires Distinct(s)
    ensures |Members(s)| == |s|
  {
    if s != [] {
      var n := |s| - 1;
      DistinctCount(s[..n]);
      assert s == s[..n] + [s[n]];
      assert Members(s) == Members(s[..n]) + {s[n]};
      assert s[n] !in s[..n];
    }
  }

  lemma SameCount<T>(a: set<T>, b: set<T>)
    requires a <= b && |a| == |b|
    ensures a == b
  {
    assert b == a + (b - a);
    assert |b - a| == 0;
  }

  /** Once there have been as many failed dispatches as there are qualified nodes, the next selection
      is exhausted, whatever the network does by then. */
  lemma SeriesExhausts(p: Policy, target: Target, attempts: seq<Attempt>, next: Attempt)
    requires Series(p, target, attempts) && attempts != []
    requires Follows(p, target, attempts[|attempts| - 1], next) && Routes(next.cache, p, target)
    requires |attempts| == |Members(Pool(attempts[0].cache, p, target))|
    ensures Pick(p, target, next).Exhausted?
  {
    hide Pool, TriedNodes, Select, Routes;
    var last := |attempts| - 1;
    var nodes := seq(|attempts|, i requires 0 <= i < |attempts| => Pick(p, target, attempts[i]).node);
    var pool := Pool(attempts[0].cache, p, target);
    RetriesTerminate(p, target, attempts);
    forall j | 0 <= j < |attempts| ensures nodes[j] in pool && nodes[j] in next.exclude {
      Step(p, target, attempts[j]);
      Step(p, target, attempts[last]);
      if j > 0 {
        ExclusionsGrow(p, target, attempts, 0, j);
      }
      if j < last {
        ExclusionsGrow(p, target, attempts, j, last);
      }
    }
    DistinctCount(nodes);
    SameCount(Members(nodes), Members(pool));
    if last > 0 {
      ExclusionsGrow(p, target, attempts, 0, last);
    }
    SamePool(p, target, attempts[last].cache, next.cache);
    forall a | a in pool ensures a in next.exclude {
      assert a in Members(nodes);
    }
    ExhaustedIff(next.cache, p, target, next.exclude, next.network);
  }

  /** A keyed operation needs at most one failed dispatch for each server of the topology, and
      without proxying one for each owner. */
  lemma KeyedRetriesBounded(p: Policy, key: Blob, attempts: seq<Attempt>)
    requires Series(p, Keyed(key), attempts) && attempts != []
    ensures |attempts| <= |ServerAddresses(attempts[0].cache)|
    ensures !p.proxy ==> |attempts| <= |OwnerAddresses(attempts[0].cache, key)|
  {
    hide Pick, TriedNodes, Follows, OwnerAddresses;
    RetriesTerminate(p, Keyed(key), attempts);
    var c := attempts[0].cache;
    OwnersAreServers(c, key);
    var nodes := seq(|attempts|, i requires 0 <= i < |attempts| => Pick(p, Keyed(key), attempts[i]).node);
    forall j | 0 <= j < |attempts| ensures nodes[j] in ServerAddresses(c) {
      Step(p, Keyed(key), attempts[j]);
      if j > 0 {
        ExclusionsGrow(p, Keyed(key), attempts, 0, j);
      }
    }
    DistinctFits(nodes, ServerAddresses(c));
  }

  // ----- Where it does not hold -----

  /** Two servers, both up. The first attempt's failure is delivered, the second one's is thrown by
      execute: the third attempt goes to the first server again. */
  lemma ThrownFailureForgets(c: Cache, p: Policy, a: Address, b: Address, net: Network)
    requires ServerAddresses(c) == [a, b] && a != b && a in net.up && b in net.up
    ensures Select(c, p, Keyless, [], net) == Chosen(a, [a])
    ensures TriedNodes([], a, [a], Delivered([])) == [a]
    ensures Select(c, p, Keyless, [a], net) == Chosen(b, [b])
    ensures TriedNodes([a], b, [b], Thrown) == [b]
    ensures Select(c, p, Keyless, [b], net) == Chosen(a, [a])
  {
    hide AnyCandidates, Select, Reachable, PushAll;
    TwoCandidates(c, a, b);
    PicksFirst(c, p, [], net);
    PicksFirst(c, p, [a], net);
    PicksFirst(c, p, [b], net);
    UnionOfOne(a);
  }

  lemma UnionOfOne(a: Address)
    ensures Union([], [a]) == [a] && Union([a], []) == [a]
  {
    assert [a][..0] == [];
    assert PushAll([], [], []) == [];
  }

  lemma TwoCandidates(c: Cache, a: Address, b: Address)
    requires ServerAddresses(c) == [a, b] && a != b
    ensures AnyCandidates(c, []) == [a, b] && AnyCandidates(c, [a]) == [b] && AnyCandidates(c, [b]) == [a]
  {
    hide Push, ServerAddresses;
    forall exclude: seq<Address>
      ensures AnyCandidates(c, exclude) == Push(Push([], a, exclude), b, exclude)
    {
      var all := ServerAddresses(c);
      assert [] + all == all && all[..1] == [a] && [a][..0] == [];
      assert PushAll([], [], exclude) == [];
      assert PushAll([], [a], exclude) == Push([], a, exclude);
    }
    Pushes(a, b);
  }

  lemma Pushes(a: Address, b: Address)
    requires a != b
    ensures Push(Push([], a, []), b, []) == [a, b]
    ensures Push(Push([], a, [a]), b, [a]) == [b]
    ensures Push(Push([], a, [b]), b, [b]) == [a]
  {
  }

  lemma PicksFirst(c: Cache, p: Policy, exclude: seq<Address>, net: Network)
    requires c.topology.servers != []
    requires AnyCandidates(c, exclude) != [] && AnyCandidates(c, exclude)[0] in net.up
    ensures var x := AnyCandidates(c, exclude)[0];
      Select(c, p, Keyless, exclude, net) == Chosen(x, [x])
  {
    hide AnyCandidates, PoolKey;
    assert Failures(c, AnyCandidates(c, exclude), net) == 0;
  }

  /** Exclusions make no difference to the selection for a key if and only if the key is not routed.
      Then each attempt gets the default connection again, whatever has been tried. */
  lemma ExclusionsIgnoredIff(c: Cache, p: Policy, key: Blob, net: Network)
    ensures (forall e, f: seq<Address> :: SelectForKey(c, p, key, e, net) == SelectForKey(c, p, key, f, net))
       <==> !Routed(c, p, key)
  {
    hide Candidates, Failures, OwnerAddresses;
    if Routed(c, p, key) {
      var pool := Pool(c, p, Keyed(key));
      var twice := pool + pool;
      EverythingExcluded(c, p, key, twice, net);
      NothingExcluded(c, p, key, net);
      assert SelectForKey(c, p, key, twice, net) != SelectForKey(c, p, key, [], net);
    }
  }

  /** With every qualified node excluded the report is the exclusions. */
  lemma EverythingExcluded(c: Cache, p: Policy, key: Blob, exclude: seq<Address>, net: Network)
    requires Routed(c, p, key) && forall a :: a in Pool(c, p, Keyed(key)) ==> a in exclude
    ensures var s := SelectForKey(c, p, key, exclude, net); s.Exhausted? && s.triedNodes == exclude
  {
    hide Candidates, OwnerAddresses;
    var candidates := KeyCandidates(c, p, key, exclude);
    var _ := CandidatesFilter(OwnerAddresses(c, key), ServerAddresses(c), exclude, p.proxy);
    SomeMember(candidates);
    assert candidates == [];
  }

  lemma SomeMember(s: seq<Address>)
    ensures s == [] || exists a :: a in s
  {
    assert s == [] || s[0] in s;
  }

  lemma NothingExcluded(c: Cache, p: Policy, key: Blob, net: Network)
    requires Routed(c, p, key)
    ensures var s := SelectForKey(c, p, key, [], net);
      s.Exhausted? ==> |s.triedNodes| <= |Pool(c, p, Keyed(key))|
  {
    hide Candidates, Failures, OwnerAddresses, Union;
    var s := SelectForKey(c, p, key, [], net);
    if s.Exhausted? {
      var candidates := KeyCandidates(c, p, key, []);
      var _ := CandidatesFilter(OwnerAddresses(c, key), ServerAddresses(c), [], p.proxy);
      UnionDistinct([], candidates);
      UnionMembers([], candidates);
      DistinctFits(s.triedNodes, Pool(c, p, Keyed(key)));
    }
  }

  lemma UnionDistinct(a: seq<Address>, b: seq<Address>)
    requires Distinct(a)
    ensures Distinct(Union(a, b))
  {
    PushAllExtends(a, b, []);
  }
}
