/** Segment ownership: src/hash/ConsistentHash.cpp. */
module ConsistentHashing {
  import opened Bytes
  import opened Segments
  import opened Topologies
  import Murmur = MurmurHash3

  /** Segment owners by hash ID. */
  datatype Table = Table(numSegments: int32, numOwners: nat, owners: seq<seq<int32>>)

  const NO_TABLE := Table(0, 0, [])

  // ----- From key to segment -----

  function Octets(key: Blob): Murmur.Octets {
    seq(|key|, i requires 0 <= i < |key| => Bits(key[i]))
  }

  /** The hash sees the bytes of the key. */
  lemma OctetsOfKey(key: Blob)
    ensures |Octets(key)| == |key| && forall i :: 0 <= i < |key| ==> Octets(key)[i] as int == key[i]
  {
    hide Bits;
    forall i | 0 <= i < |key| ensures Octets(key)[i] as int == key[i] {
      OctetBack(key[i]);
    }
  }

  const SEED: bv64 := 9001

  /** hash & 0x7FFFFFFF */
  function Masked(h: bv32): Hash { (h & 0x7FFF_FFFF) as bv31 as int }

  function TopBit(h: bv32): int { (h >> 31) as int }

  function LowBits(h: bv32): int { (h & 0x7FFF_FFFF) as int }

  lemma BitsOfHash(h: bv32)
    ensures h as int == TopBit(h) * 0x8000_0000 + LowBits(h) && LowBits(h) < 0x8000_0000 && Masked(h) == LowBits(h)
  {
  }

  /** Masking off the sign bit is the remainder modulo 2^31. */
  lemma MaskedIsRemainder(h: bv32)
    ensures Masked(h) == (h as int) % 0x8000_0000
  {
    hide Masked, TopBit, LowBits;
    BitsOfHash(h);
  }

  function NormalizedHash(key: Blob): Hash { Masked(Murmur.Hash32(Octets(key), SEED)) }

  method HashKey(key: Blob) returns (h: Hash)
    ensures h == NormalizedHash(key)
  {
    hide Murmur.Hash32, Masked;
    var hash := Murmur.ComputeHash32(Octets(key), SEED);
    h := Masked(hash);
  }

  /** The whole of getSegment, fallbacks included. */
  function SegmentFor(t: Table, key: Blob): nat {
    if t.numSegments <= 0 || t.owners == [] then 0
    else
      var segment := SegmentOf(NormalizedHash(key), t.numSegments);
      if segment >= |t.owners| then 0 else segment
  }

  ghost predicate Consistent(t: Table) { t.numSegments >= 0 && |t.owners| == t.numSegments }

  /** In a consistent table the fallback to segment 0 is dead code. */
  lemma SegmentForIsSegmentOf(t: Table, key: Blob)
    requires Consistent(t) && t.numSegments > 0
    ensures SegmentFor(t, key) == SegmentOf(NormalizedHash(key), t.numSegments) < t.numSegments
  {
    hide NormalizedHash, SegmentOf;
    SegmentInRange(NormalizedHash(key), t.numSegments);
  }

  /** The whole way from a key to its segment, in numbers: the 32-bit hash with seed 9001, modulo 2^31,
      times the number of segments, divided by 2^31. */
  lemma SegmentFormula(t: Table, key: Blob)
    requires Consistent(t) && t.numSegments > 0
    ensures SegmentFor(t, key)
         == (Murmur.Hash32(Octets(key), 9001) as int) % 0x8000_0000 * t.numSegments / 0x8000_0000
  {
    hide Murmur.Hash32, Masked, SegmentFor;
    SegmentForIsSegmentOf(t, key);
    MaskedIsRemainder(Murmur.Hash32(Octets(key), 9001));
  }

  // ----- From topology to table -----

  predicate IndexesValid(t: Topology) {
    forall s :: 0 <= s < |t.segmentOwners| ==> RowValid(t, s)
  }

  predicate RowValid(t: Topology, s: nat)
    requires s < |t.segmentOwners|
  {
    forall i :: 0 <= i < |t.segmentOwners[s]| ==> t.segmentOwners[s][i] < |t.servers|
  }

  function Row(t: Topology, s: nat): (r: seq<int32>)
    requires s < |t.segmentOwners| && RowValid(t, s)
    ensures |r| == |t.segmentOwners[s]|
  {
    seq(|t.segmentOwners[s]|, i requires 0 <= i < |t.segmentOwners[s]| => t.servers[t.segmentOwners[s][i]].hashId)
  }

  predicate Convertible(t: Topology) {
    t.numSegments > 0 && |t.segmentOwners| == ToInt32(t.numSegments) && IndexesValid(t)
  }

  /** updateFromTopology, as a function of the topology alone. */
  function Convert(t: Topology): Table {
    if !Convertible(t) then NO_TABLE
    else Table(ToInt32(t.numSegments), |t.segmentOwners[0]|,
               seq(|t.segmentOwners|, s requires 0 <= s < |t.segmentOwners| => Row(t, s)))
  }

  lemma ConvertConsistent(t: Topology)
    ensures Consistent(Convert(t))
    ensures Convert(t).numSegments > 0 <==> Convertible(t)
  {
  }

  // ----- From segment to owners -----

  /** findServerByHashId: the first match in list order. */
  function FindById(servers: seq<Server>, id: int32): Option<Server> {
    if servers == [] then None
    else if servers[0].hashId == id then Some(servers[0])
    else FindById(servers[1..], id)
  }

  /** The servers found for a row of hash IDs; IDs that name no server are dropped. */
  function Resolve(servers: seq<Server>, ids: seq<int32>): seq<Server> {
    if ids == [] then []
    else
      var rest := Resolve(servers, ids[..|ids| - 1]);
      match FindById(servers, ids[|ids| - 1])
      case Some(server) => rest + [server]
      case None => rest
  }

  /** The whole of getOwners. */
  function Owners(t: Table, servers: seq<Server>, key: Blob): seq<Server> {
    if t.numSegments <= 0 then []
    else
      var segment := SegmentFor(t, key);
      if segment >= |t.owners| then [] else Resolve(servers, t.owners[segment])
  }

  ghost predicate IdsDistinct(servers: seq<Server>) {
    forall i, j :: 0 <= i < j < |servers| ==> servers[i].hashId != servers[j].hashId
  }

  lemma {:induction false} FindByIdAt(servers: seq<Server>, j: nat)
    requires j < |servers| && IdsDistinct(servers)
    ensures FindById(servers, servers[j].hashId) == Some(servers[j])
  {
    if j > 0 {
      FindByIdAt(servers[1..], j - 1);
      assert servers[1..][j - 1] == servers[j];
    }
  }

  /** The servers that an owner list of indexes means. */
  function Indexed(servers: seq<Server>, indexes: Blob): (r: seq<Server>)
    requires forall i :: 0 <= i < |indexes| ==> indexes[i] < |servers|
    ensures |r| == |indexes| && forall i :: 0 <= i < |indexes| ==> r[i] == servers[indexes[i]]
  {
    seq(|indexes|, i requires 0 <= i < |indexes| => servers[indexes[i]])
  }

  lemma {:induction false} ResolveIndexes(servers: seq<Server>, indexes: Blob, ids: seq<int32>)
    requires IdsDistinct(servers) && |ids| == |indexes|
    requires forall i :: 0 <= i < |indexes| ==> indexes[i] < |servers| && ids[i] == servers[indexes[i]].hashId
    ensures Resolve(servers, ids) == Indexed(servers, indexes)
  {
    if ids != [] {
      var n := |ids| - 1;
      ResolveIndexes(servers, indexes[..n], ids[..n]);
      FindByIdAt(servers, indexes[n]);
      assert Indexed(servers, indexes) == Indexed(servers, indexes[..n]) + [servers[indexes[n]]];
    }
  }

  /** The detour over hash IDs is a plain lookup: the owners of a key are the servers at the
      indexes that the topology lists for its segment, none dropped, in the same order. */
  lemma OwnersAreIndexed(t: Topology, key: Blob)
    requires Convertible(t) && IdsDistinct(t.servers)
    ensures SegmentFor(Convert(t), key) < |t.segmentOwners|
    ensures var s := SegmentFor(Convert(t), key);
      RowValid(t, s) && Owners(Convert(t), t.servers, key) == Indexed(t.servers, t.segmentOwners[s])
  {
    hide NormalizedHash, SegmentFor;
    var table := Convert(t);
    ConvertConsistent(t);
    SegmentForIsSegmentOf(table, key);
    var s := SegmentFor(table, key);
    assert RowValid(t, s);
    ResolveIndexes(t.servers, t.segmentOwners[s], Row(t, s));
  }

  /** The same for what the parser makes of an update, with no assumption on hash IDs. */
  lemma ParsedOwnersAreIndexed(u: Update, key: Blob)
    requires UpdateFits(u)
    requires Convertible(TopologyOf(u, HashAware))
    ensures var t := TopologyOf(u, HashAware);
      && SegmentFor(Convert(t), key) < |u.segments|
      && RowValid(t, SegmentFor(Convert(t), key))
      && Owners(Convert(t), t.servers, key) == Indexed(t.servers, u.segments[SegmentFor(Convert(t), key)])
  {
    hide Convertible, Convert, SegmentFor, Owners, RowValid;
    KeptHashIds(u.servers);
    OwnersAreIndexed(TopologyOf(u, HashAware), key);
  }

  /** If the update repeats no address, every owner is the server that the update's own index
      names. (With repetitions it may be another one: see Topologies.SamePosition.) */
  lemma WireOwners(u: Update, key: Blob)
    requires UpdateFits(u) && Distinct(u.servers)
    requires Convertible(TopologyOf(u, HashAware))
    ensures var t := TopologyOf(u, HashAware);
      && SegmentFor(Convert(t), key) < |u.segments|
      && var indexes := u.segments[SegmentFor(Convert(t), key)];
      && |Owners(Convert(t), t.servers, key)| == |indexes|
      && forall i :: 0 <= i < |indexes| ==>
           indexes[i] < |u.servers| && Owners(Convert(t), t.servers, key)[i].address == u.servers[indexes[i]]
  {
    hide Convertible, Convert, SegmentFor, Owners;
    var t := TopologyOf(u, HashAware);
    ParsedOwnersAreIndexed(u, key);
    KeptAll(u.servers);
    var indexes := u.segments[SegmentFor(Convert(t), key)];
    forall i | 0 <= i < |indexes|
      ensures indexes[i] < |u.servers|
      ensures Owners(Convert(t), t.servers, key)[i].address == u.servers[indexes[i]]
    {
      assert Addresses(t.servers)[indexes[i]] == u.servers[indexes[i]];
    }
  }

  // ----- The primary owner -----

  /** The hash ID listed first for the segment of a key. */
  function FirstId(t: Table, key: Blob): Option<int32> {
    if t.numSegments <= 0 || SegmentFor(t, key) >= |t.owners| || t.owners[SegmentFor(t, key)] == [] then None
    else Some(t.owners[SegmentFor(t, key)][0])
  }

  function PrimaryOwner(t: Table, servers: seq<Server>, key: Blob): Option<Server> {
    match FirstId(t, key)
    case None => None
    case Some(id) => FindById(servers, id)
  }

  /** Of a parsed topology that is valid the primary owner is the first of the owners, and there is
      one exactly if the update lists an owner for the segment. */
  lemma PrimaryIsHead(u: Update, key: Blob)
    requires UpdateFits(u) && Convertible(TopologyOf(u, HashAware))
    ensures var t := TopologyOf(u, HashAware);
      var owners := Owners(Convert(t), t.servers, key);
      && SegmentFor(Convert(t), key) < |u.segments|
      && (owners == [] <==> u.segments[SegmentFor(Convert(t), key)] == [])
      && PrimaryOwner(Convert(t), t.servers, key) == if owners == [] then None else Some(owners[0])
  {
    hide SegmentFor, FindById, Resolve;
    ParsedOwnersAreIndexed(u, key);
    var t := TopologyOf(u, HashAware);
    var table := Convert(t);
    var seg := SegmentFor(table, key);
    var owners := Owners(table, t.servers, key);
    ConvertConsistent(t);
    assert table.owners[seg] == Row(t, seg);
    if owners != [] {
      assert IdsDistinct(t.servers) by {
        KeptHashIds(u.servers);
      }
      FindByIdAt(t.servers, u.segments[seg][0]);
    }
  }

  // ----- The class -----

  class ConsistentHash {
    var numSegments: int32
    var numOwners: nat
    var segmentOwners: seq<seq<int32>>

    function View(): Table
      reads this
    {
      Table(numSegments, numOwners, segmentOwners)
    }

    constructor ()
      ensures View() == NO_TABLE
    {
      numSegments, numOwners, segmentOwners := 0, 0, [];
    }

    method Clear()
      modifies this
      ensures View() == NO_TABLE
    {
      numSegments, numOwners, segmentOwners := 0, 0, [];
    }

    /** Fills the table row by row, and clears it as soon as an index is out of range. */
    method UpdateFromTopology(t: Topology)
      modifies this
      ensures View() == Convert(t)
    {
      if t.numSegments == 0 {
        Clear();
        return;
      }
      numSegments := ToInt32(t.numSegments);
      if |t.segmentOwners| != numSegments {
        Clear();
        return;
      }
      numOwners := |t.segmentOwners[0]|;
      segmentOwners := [];
      for seg := 0 to numSegments
        invariant numSegments == ToInt32(t.numSegments) == |t.segmentOwners|
        invariant numOwners == |t.segmentOwners[0]|
        invariant |segmentOwners| == seg
        invariant forall s :: 0 <= s < seg ==> RowValid(t, s) && segmentOwners[s] == Row(t, s)
      {
        var indexes := t.segmentOwners[seg];
        var row: seq<int32> := [];
        for i := 0 to |indexes|
          invariant |row| == i
          invariant forall j :: 0 <= j < i ==> indexes[j] < |t.servers| && row[j] == t.servers[indexes[j]].hashId
        {
          if indexes[i] >= |t.servers| {
            assert !RowValid(t, seg);
            Clear();
            return;
          }
          row := row + [t.servers[indexes[i]].hashId];
        }
        assert RowValid(t, seg) && row == Row(t, seg);
        segmentOwners := segmentOwners + [row];
      }
      assert IndexesValid(t);
      assert segmentOwners == Convert(t).owners;
    }

    method GetSegment(key: Blob) returns (segment: nat)
      ensures segment == SegmentFor(View(), key)
    {
      hide NormalizedHash;
      if numSegments == 0 || segmentOwners == [] {
        return 0;
      }
      if numSegments < 0 {
        return 0;
      }
      var normalizedHash := HashKey(key);
      segment := SegmentOf(normalizedHash, numSegments);
      if segment >= |segmentOwners| {
        return 0;
      }
    }

    method FindServerByHashId(id: int32, servers: seq<Server>) returns (r: Option<Server>)
      ensures r == FindById(servers, id)
    {
      for i := 0 to |servers|
        invariant FindById(servers, id) == FindById(servers[i..], id)
      {
        if servers[i].hashId == id {
          return Some(servers[i]);
        }
        assert servers[i..][1..] == servers[i + 1..];
      }
      r := None;
    }

    method GetOwners(key: Blob, servers: seq<Server>) returns (r: seq<Server>)
      ensures r == Owners(View(), servers, key)
    {
      hide NormalizedHash, SegmentFor, FindById;
      r := [];
      if numSegments <= 0 {
        return;
      }
      var segment := GetSegment(key);
      if segment >= |segmentOwners| {
        return;
      }
      var ids := segmentOwners[segment];
      for i := 0 to |ids|
        invariant r == Resolve(servers, ids[..i])
      {
        assert ids[..i + 1][..i] == ids[..i];
        var server := FindServerByHashId(ids[i], servers);
        if server.Some? {
          r := r + [server.value];
        }
      }
      assert ids[..|ids|] == ids;
    }

    /** The primary owner. A later owner never stands in for a first one that is not found. */
    method GetPrimaryOwner(key: Blob, servers: seq<Server>) returns (r: Option<Server>)
      ensures r == PrimaryOwner(View(), servers, key)
      ensures r.Some? ==> Owners(View(), servers, key) != [] && r.value == Owners(View(), servers, key)[0]
      ensures r.None? <==> FirstId(View(), key).None? || FindById(servers, FirstId(View(), key).value).None?
    {
      hide NormalizedHash, SegmentFor, FindById;
      if numSegments <= 0 {
        return None;
      }
      var segment := GetSegment(key);
      if segment >= |segmentOwners| || segmentOwners[segment] == [] {
        return None;
      }
      r := FindServerByHashId(segmentOwners[segment][0], servers);
      if r.Some? {
        HeadResolves(servers, segmentOwners[segment]);
      }
    }
  }

  lemma {:induction false} HeadResolves(servers: seq<Server>, ids: seq<int32>)
    requires ids != [] && FindById(servers, ids[0]).Some?
    ensures Resolve(servers, ids) != [] && Resolve(servers, ids)[0] == FindById(servers, ids[0]).value
  {
    if |ids| > 1 {
      HeadResolves(servers, ids[..|ids| - 1]);
    }
  }
}
