/** Which servers to try, in which order: include/hotrod/ServerSelection.h. */
module ServerSelection {
  import opened Topologies

  // ----- Appending without repetition -----

  /** pushUnique: drops what is excluded and what is already there. */
  function Push(out: seq<Address>, a: Address, exclude: seq<Address>): seq<Address> {
    if a in exclude || a in out then out else out + [a]
  }

  function PushAll(out: seq<Address>, xs: seq<Address>, exclude: seq<Address>): seq<Address> {
    if xs == [] then out else Push(PushAll(out, xs[..|xs| - 1], exclude), xs[|xs| - 1], exclude)
  }

  lemma {:induction false} PushAllConcat(out: seq<Address>, xs: seq<Address>, ys: seq<Address>, exclude: seq<Address>)
    ensures PushAll(out, xs + ys, exclude) == PushAll(PushAll(out, xs, exclude), ys, exclude)
  {
    if ys == [] {
      assert xs + ys == xs;
    } else {
      assert (xs + ys)[..|xs + ys| - 1] == xs + ys[..|ys| - 1];
      PushAllConcat(out, xs, ys[..|ys| - 1], exclude);
    }
  }

  lemma {:induction false} PushAllMembers(out: seq<Address>, xs: seq<Address>, exclude: seq<Address>)
    ensures forall a :: a in PushAll(out, xs, exclude) <==> a in out || (a in xs && a !in exclude)
  {
    if xs != [] {
      var n := |xs| - 1;
      PushAllMembers(out, xs[..n], exclude);
      assert xs == xs[..n] + [xs[n]];
    }
  }

  /** What was there stays there, in front; what is added is new. */
  lemma {:induction false} PushAllExtends(out: seq<Address>, xs: seq<Address>, exclude: seq<Address>)
    ensures |out| <= |PushAll(out, xs, exclude)| && PushAll(out, xs, exclude)[..|out|] == out
    ensures forall a :: a in PushAll(out, xs, exclude)[|out|..] ==> a !in out && a in xs
    ensures Distinct(out) ==> Distinct(PushAll(out, xs, exclude))
  {
    if xs != [] {
      var n := |xs| - 1;
      PushAllExtends(out, xs[..n], exclude);
      var p := PushAll(out, xs[..n], exclude);
      assert xs == xs[..n] + [xs[n]];
      if Push(p, xs[n], exclude) != p {
        assert (p + [xs[n]])[|out|..] == p[|out|..] + [xs[n]];
      }
    }
  }

  // ----- Candidates -----

  /** orderKeyCandidates. */
  function Candidates(owners: seq<Address>, all: seq<Address>, exclude: seq<Address>, proxy: bool): seq<Address> {
    PushAll([], owners + (if proxy then all else []), exclude)
  }

  /** An independent definition: `out` lists the first occurrences in `source` of everything that
      is not excluded, in the order of `source`; `from` gives their places. */
  ghost predicate FirstOccurrences(out: seq<Address>, source: seq<Address>, exclude: seq<Address>, from: seq<nat>) {
    && |from| == |out|
    && (forall k :: 0 <= k < |out| ==> from[k] < |source| && out[k] == source[from[k]])
    && (forall k :: 0 <= k < |out| ==> out[k] !in exclude && out[k] !in source[..from[k]])
    && (forall k, l :: 0 <= k < l < |out| ==> from[k] < from[l])
    && (forall a :: a in source && a !in exclude ==> a in out)
  }

  lemma {:induction false} PushAllFirst(source: seq<Address>, exclude: seq<Address>) returns (from: seq<nat>)
    ensures FirstOccurrences(PushAll([], source, exclude), source, exclude, from)
  {
    if source == [] {
      from := [];
    } else {
      var n := |source| - 1;
      var before := source[..n];
      var out := PushAll([], before, exclude);
      from := PushAllFirst(before, exclude);
      assert source == before + [source[n]];
      PushAllMembers([], before, exclude);
      forall k | 0 <= k < |out| ensures source[..from[k]] == before[..from[k]] { }
      if source[n] !in exclude && source[n] !in out {
        from := from + [n];
        assert source[..n] == before;
      }
    }
  }

  /** The candidate list is the first-occurrence filter of the owners followed, when proxying, by
      all servers; it repeats nothing and contains exactly what is not excluded. */
  lemma CandidatesFilter(owners: seq<Address>, all: seq<Address>, exclude: seq<Address>, proxy: bool)
    returns (from: seq<nat>)
    ensures FirstOccurrences(Candidates(owners, all, exclude, proxy),
                             owners + (if proxy then all else []), exclude, from)
    ensures Distinct(Candidates(owners, all, exclude, proxy))
    ensures forall a :: a in Candidates(owners, all, exclude, proxy)
                        <==> a !in exclude && (a in owners || (proxy && a in all))
  {
    var source := owners + (if proxy then all else []);
    from := PushAllFirst(source, exclude);
    PushAllExtends([], source, exclude);
    PushAllMembers([], source, exclude);
  }

  /** Owners come first: before a candidate that is no owner stand all owners not excluded. */
  lemma OwnersFirst(owners: seq<Address>, all: seq<Address>, exclude: seq<Address>, proxy: bool, k: nat)
    requires k < |Candidates(owners, all, exclude, proxy)|
    requires Candidates(owners, all, exclude, proxy)[k] !in owners
    ensures proxy
    ensures forall a :: a in owners && a !in exclude ==> a in Candidates(owners, all, exclude, proxy)[..k]
  {
    var p := PushAll([], owners, exclude);
    var rest := if proxy then all else [];
    PushAllConcat([], owners, rest, exclude);
    PushAllMembers([], owners, exclude);
    PushAllExtends(p, rest, exclude);
    var out := PushAll(p, rest, exclude);
    assert forall i :: 0 <= i < |p| ==> out[i] == out[..|p|][i] == p[i];
    assert |p| <= k;
    assert p == out[..k][..|p|];
  }

  method OrderKeyCandidates(owners: seq<Address>, all: seq<Address>, exclude: seq<Address>, proxy: bool)
    returns (out: seq<Address>)
    ensures out == Candidates(owners, all, exclude, proxy)
  {
    out := [];
    for i := 0 to |owners|
      invariant out == PushAll([], owners[..i], exclude)
    {
      assert owners[..i + 1][..i] == owners[..i];
      if owners[i] !in exclude && owners[i] !in out {
        out := out + [owners[i]];
      }
    }
    assert owners[..|owners|] == owners;
    assert owners + [] == owners;
    if proxy {
      ghost var first := out;
      for i := 0 to |all|
        invariant out == PushAll(first, all[..i], exclude)
      {
        assert all[..i + 1][..i] == all[..i];
        if all[i] !in exclude && all[i] !in out {
          out := out + [all[i]];
        }
      }
      assert all[..|all|] == all;
      PushAllConcat([], owners, all, exclude);
    }
  }

  // ----- Accumulating nodes across attempts -----

  /** unionNodes. */
  function Union(a: seq<Address>, b: seq<Address>): seq<Address> { PushAll(a, b, []) }

  lemma UnionMembers(a: seq<Address>, b: seq<Address>)
    ensures forall x :: x in Union(a, b) <==> x in a || x in b
    ensures |a| <= |Union(a, b)| && Union(a, b)[..|a|] == a
  {
    PushAllMembers(a, b, []);
    PushAllExtends(a, b, []);
  }

  method UnionNodes(a: seq<Address>, b: seq<Address>) returns (r: seq<Address>)
    ensures r == Union(a, b)
  {
    r := a;
    for i := 0 to |b|
      invariant r == PushAll(a, b[..i], [])
    {
      assert b[..i + 1][..i] == b[..i];
      if b[i] !in r {
        r := r + [b[i]];
      }
    }
    assert b[..|b|] == b;
  }
}
