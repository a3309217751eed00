/** Cluster topologies: src/topology/TopologyInfo.cpp. */
module Topologies {
  import opened Bytes
  import opened Codec
  import opened Connections

  type Port = p: int | 0 <= p < 0x1_0000

  datatype Address = Address(host: Blob, port: Port)

  /** ServerInfo. Two of them are equal, for the source, if their addresses are. */
  datatype Server = Server(address: Address, hashId: int32)

  datatype Topology = Topology(
    id: int32, servers: seq<Server>, hashVersion: byte, numSegments: uint32, segmentOwners: seq<Blob>)

  /** A TopologyInfo before the first update. */
  const EMPTY := Topology(0, [], 0, 0, [])

  datatype Intelligence = Basic | TopologyAware | HashAware

  /** What a server sends. Segment owners are indexes into `servers`. */
  datatype Update = Update(id: uint32, servers: seq<Address>, hashVersion: byte, segments: seq<Blob>)

  // ----- The servers that are kept -----

  function Addresses(ss: seq<Server>): (r: seq<Address>)
    ensures |r| == |ss| && forall i :: 0 <= i < |ss| ==> r[i] == ss[i].address
  {
    seq(|ss|, i requires 0 <= i < |ss| => ss[i].address)
  }

  /** A server is dropped if its address was seen before; one that is kept takes its position in
      the update as its hash ID. */
  function Kept(all: seq<Address>): seq<Server> {
    if all == [] then []
    else Keep(Kept(all[..|all| - 1]), all[|all| - 1], |all| - 1)
  }

  function Keep(kept: seq<Server>, a: Address, i: nat): seq<Server> {
    if a in Addresses(kept) then kept else kept + [Server(a, HashIdAt(i))]
  }

  function HashIdAt(i: nat): int32 { ToInt32(i % TWO32) }

  ghost predicate Distinct<T>(s: seq<T>) {
    forall i, j :: 0 <= i < j < |s| ==> s[i] != s[j]
  }

  lemma KeepMembers(kept: seq<Server>, a: Address, i: nat)
    ensures forall b :: b in Addresses(Keep(kept, a, i)) <==> b in Addresses(kept) || b == a
  {
    var k := Keep(kept, a, i);
    if a !in Addresses(kept) {
      assert Addresses(k) == Addresses(kept) + [a];
    }
  }

  /** Nothing is lost but repetitions. */
  lemma {:induction false} KeptMembers(all: seq<Address>)
    ensures forall a :: a in Addresses(Kept(all)) <==> a in all
    ensures |Kept(all)| <= |all|
  {
    hide Addresses, Keep, HashIdAt;
    if all == [] {
      assert Addresses(Kept(all)) == [];
    } else {
      var most, last := all[..|all| - 1], all[|all| - 1];
      KeptMembers(most);
      KeepMembers(Kept(most), last, |all| - 1);
      KeepGrows(Kept(most), last, |all| - 1);
      assert all == most + [last];
    }
  }

  lemma KeepGrows(kept: seq<Server>, a: Address, i: nat)
    ensures |Keep(kept, a, i)| <= |kept| + 1
  {
  }

  lemma {:induction false} KeptAddressesDistinct(all: seq<Address>)
    ensures Distinct(Addresses(Kept(all)))
  {
    if all != [] {
      KeptAddressesDistinct(all[..|all| - 1]);
    }
  }

  /** `from` says where in `all` each kept server comes from, in order. */
  ghost predicate Positions(all: seq<Address>, kept: seq<Server>, from: seq<nat>) {
    && |from| == |kept|
    && (forall j :: 0 <= j < |from| ==> from[j] < |all| && kept[j] == Server(all[from[j]], HashIdAt(from[j])))
    && (forall i, j :: 0 <= i < j < |from| ==> from[i] < from[j])
  }

  /** A server that is dropped moves nothing. */
  lemma PositionsDropped(most: seq<Address>, a: Address, kept: seq<Server>, from: seq<nat>)
    requires Positions(most, kept, from)
    ensures Positions(most + [a], kept, from)
  {
    hide HashIdAt;
  }

  /** A server that is kept comes last, from the last position. */
  lemma PositionsKept(most: seq<Address>, a: Address, kept: seq<Server>, from: seq<nat>)
    requires Positions(most, kept, from)
    ensures Positions(most + [a], kept + [Server(a, HashIdAt(|most|))], from + [|most|])
  {
    hide HashIdAt;
    var all, more, places := most + [a], kept + [Server(a, HashIdAt(|most|))], from + [|most|];
    forall j | 0 <= j < |places|
      ensures places[j] < |all| && more[j] == Server(all[places[j]], HashIdAt(places[j]))
    {
      if j < |from| {
        assert places[j] == from[j] && more[j] == kept[j];
      }
    }
  }

  /** Kept servers come from different positions, in order. */
  lemma {:induction false} KeptFrom(all: seq<Address>) returns (from: seq<nat>)
    ensures Positions(all, Kept(all), from)
  {
    hide HashIdAt, Positions;
    if all == [] {
      from := [];
      NoPositions();
    } else {
      var most, last := all[..|all| - 1], all[|all| - 1];
      assert all == most + [last];
      from := KeptFrom(most);
      if last in Addresses(Kept(most)) {
        assert Kept(all) == Kept(most);
        PositionsDropped(most, last, Kept(most), from);
      } else {
        assert Kept(all) == Kept(most) + [Server(last, HashIdAt(|most|))];
        PositionsKept(most, last, Kept(most), from);
        from := from + [|most|];
      }
    }
  }

  lemma NoPositions()
    ensures Positions([], [], [])
  {
  }

  lemma PositionAsId(i: nat)
    ensures i < 0x8000_0000 ==> HashIdAt(i) == i
  {
  }

  lemma HashIdsDiffer(i: nat, j: nat)
    requires i < j < TWO32
    ensures HashIdAt(i) != HashIdAt(j)
    ensures j < 0x8000_0000 ==> HashIdAt(i) < HashIdAt(j)
    ensures j < 0x8000_0000 ==> HashIdAt(i) == i && HashIdAt(j) == j
  {
  }

  /** Hash IDs identify servers, and grow with the position as long as they stay positive. */
  lemma KeptHashIds(all: seq<Address>)
    requires |all| <= TWO32
    ensures forall i, j :: 0 <= i < j < |Kept(all)| ==> Kept(all)[i].hashId != Kept(all)[j].hashId
    ensures |all| <= 0x8000_0000 ==>
      forall i, j :: 0 <= i < j < |Kept(all)| ==> Kept(all)[i].hashId < Kept(all)[j].hashId
    ensures |all| <= 0x8000_0000 ==>
      forall j :: 0 <= j < |Kept(all)| ==> 0 <= Kept(all)[j].hashId < |all| && all[Kept(all)[j].hashId] == Kept(all)[j].address
  {
    hide HashIdAt, Kept;
    var from := KeptFrom(all);
    forall j | 0 <= j < |Kept(all)| && |all| <= 0x8000_0000
      ensures 0 <= Kept(all)[j].hashId < |all| && all[Kept(all)[j].hashId] == Kept(all)[j].address
    {
      PositionAsId(from[j]);
    }
    forall i, j | 0 <= i < j < |Kept(all)|
      ensures Kept(all)[i].hashId != Kept(all)[j].hashId
      ensures |all| <= 0x8000_0000 ==> Kept(all)[i].hashId < Kept(all)[j].hashId
    {
      HashIdsDiffer(from[i], from[j]);
    }
  }

  lemma {:induction false} KeptPrefix(all: seq<Address>, n: nat)
    requires n <= |all|
    ensures |Kept(all[..n])| <= |Kept(all)| && Kept(all)[..|Kept(all[..n])|] == Kept(all[..n])
  {
    if n == |all| {
      assert all[..n] == all;
    } else {
      var most := all[..|all| - 1];
      assert most[..n] == all[..n];
      KeptPrefix(most, n);
    }
  }

  lemma {:induction false} KeptAll(all: seq<Address>)
    ensures |Kept(all)| == |all| <==> Distinct(all)
    ensures Distinct(all) ==> Addresses(Kept(all)) == all
  {
    if all != [] {
      var most, last := all[..|all| - 1], all[|all| - 1];
      assert all == most + [last];
      KeptAll(most);
      KeptMembers(most);
      if Distinct(all) {
        assert Distinct(most);
        assert last !in most;
        assert Addresses(Kept(all)) == Addresses(Kept(most)) + [last];
      } else if Distinct(most) {
        assert last in most;
      }
    }
  }

  lemma {:induction false} Position(all: seq<Address>, j: nat)
    requires j < |all| && !Distinct(all[..j + 1])
    ensures all[j] in Addresses(Kept(all[..j + 1])) && |Kept(all[..j + 1])| <= j
  {
    KeptMembers(all[..j + 1]);
    assert all[j] == all[..j + 1][j];
    KeptAll(all[..j + 1]);
  }

  /** Server number `j` of the client is server number `j` of the update exactly if no address
      is repeated up to there. */
  lemma SamePosition(all: seq<Address>, j: nat)
    requires j < |Kept(all)|
    ensures j < |all|
    ensures Kept(all)[j].address == all[j] <==> Distinct(all[..j + 1])
  {
    KeptMembers(all);
    var upTo := all[..j + 1];
    KeptPrefix(all, j + 1);
    KeptAll(upTo);
    if Distinct(upTo) {
      assert Kept(all)[j] == Kept(upTo)[j];
      assert Addresses(Kept(upTo))[j] == upTo[j];
    } else {
      Position(all, j);
      var i :| 0 <= i < |Kept(upTo)| && Addresses(Kept(upTo))[i] == all[j];
      KeptAddressesDistinct(all);
      assert Kept(all)[i] == Kept(upTo)[i];
      assert Addresses(Kept(all))[i] == all[j] && i < j;
    }
  }

  // ----- The wire format -----

  function EncodePort(p: Port): Blob { [p / 256, p % 256] }

  function PortOf(b: Blob): Port
    requires |b| == 2
  {
    var high: int := b[0];
    high * 256 + b[1]
  }

  function EncodeAddress(a: Address): Blob { EncodeBlob(a.host) + EncodePort(a.port) }

  function EncodeServers(all: seq<Address>): Blob {
    if all == [] then [] else EncodeAddress(all[0]) + EncodeServers(all[1..])
  }

  function EncodeSegments(segments: seq<Blob>): Blob {
    if segments == [] then [] else [|segments[0]| % 256] + segments[0] + EncodeSegments(segments[1..])
  }

  function EncodeHash(u: Update, intelligence: Intelligence): Blob {
    if intelligence != HashAware then []
    else [u.hashVersion] + EncodeVar(|u.segments| % TWO32) + EncodeSegments(u.segments)
  }

  function EncodeUpdate(u: Update, intelligence: Intelligence): Blob {
    EncodeVar(u.id) + EncodeVar(|u.servers| % TWO32) + EncodeServers(u.servers) + EncodeHash(u, intelligence)
  }

  function ReadAddress(s: Blob): Parse<Address> {
    var (host, s1) :- ReadBlob(s);
    var (port, s2) :- Take(s1, 2);
    Ok(Address(host, PortOf(port)), s2)
  }

  function ReadServers(s: Blob, n: nat): Parse<seq<Address>>
    decreases n
  {
    if n == 0 then Ok([], s)
    else
      var (a, s1) :- ReadAddress(s);
      var (more, s2) :- ReadServers(s1, n - 1);
      Ok([a] + more, s2)
  }

  function ReadSegment(s: Blob): Parse<Blob> {
    var (n, s1) :- ReadByte(s);
    Take(s1, n)
  }

  function ReadSegments(s: Blob, n: nat): Parse<seq<Blob>>
    decreases n
  {
    if n == 0 then Ok([], s)
    else
      var (owners, s1) :- ReadSegment(s);
      var (more, s2) :- ReadSegments(s1, n - 1);
      Ok([owners] + more, s2)
  }

  datatype HashPart = HashPart(version: byte, segments: seq<Blob>)

  function ReadHash(s: Blob, intelligence: Intelligence): (r: Parse<HashPart>)
    ensures r.Ok? ==> |r.value.segments| < TWO32
  {
    if intelligence != HashAware then Ok(HashPart(0, []), s)
    else
      var (version, s1) :- ReadByte(s);
      var (n, s2) :- ReadVar(s1, W32);
      var (segments, s3) :- ReadSegments(s2, n);
      ReadSegmentsCount(s2, n);
      Ok(HashPart(version, segments), s3)
  }

  lemma {:induction false} ReadSegmentsCount(s: Blob, n: nat)
    ensures ReadSegments(s, n).Ok? ==> |ReadSegments(s, n).value| == n
    decreases n
  {
    if n > 0 && ReadSegment(s).Ok? {
      ReadSegmentsCount(ReadSegment(s).rest, n - 1);
    }
  }

  function ReadTopology(s: Blob, intelligence: Intelligence): Parse<Topology> {
    var (id, s1) :- ReadVar(s, W32);
    var (n, s2) :- ReadVar(s1, W32);
    var (all, s3) :- ReadServers(s2, n);
    var (hash, s4) :- ReadHash(s3, intelligence);
    Ok(Topology(ToInt32(id), Kept(all), hash.version, |hash.segments|, hash.segments), s4)
  }

  /** What the client makes of an update. */
  function TopologyOf(u: Update, intelligence: Intelligence): Topology {
    if intelligence == HashAware
    then Topology(ToInt32(u.id), Kept(u.servers), u.hashVersion, |u.segments| % TWO32, u.segments)
    else Topology(ToInt32(u.id), Kept(u.servers), 0, 0, [])
  }

  ghost predicate UpdateFits(u: Update) {
    && |u.servers| < TWO32 && |u.segments| < TWO32
    && (forall i :: 0 <= i < |u.servers| ==> |u.servers[i].host| < TWO32)
    && (forall i :: 0 <= i < |u.segments| ==> |u.segments[i]| < 256)
  }

  lemma ReadWrittenAddress(a: Address, rest: Blob)
    requires |a.host| < TWO32
    ensures ReadAddress(EncodeAddress(a) + rest) == Ok(a, rest)
  {
    hide EncodeBlob, ReadBlob;
    var s1 := EncodePort(a.port) + rest;
    assert EncodeAddress(a) + rest == EncodeBlob(a.host) + s1;
    ReadWrittenBlob(a.host, s1);
    TakeBack(EncodePort(a.port), rest);
  }

  lemma {:induction false} ReadWrittenServers(all: seq<Address>, rest: Blob)
    requires forall i :: 0 <= i < |all| ==> |all[i].host| < TWO32
    ensures ReadServers(EncodeServers(all) + rest, |all|) == Ok(all, rest)
  {
    hide EncodeAddress, ReadAddress;
    if all == [] {
      assert EncodeServers(all) + rest == rest;
    } else {
      var s1 := EncodeServers(all[1..]) + rest;
      assert EncodeServers(all) + rest == EncodeAddress(all[0]) + s1;
      ReadWrittenAddress(all[0], s1);
      ReadWrittenServers(all[1..], rest);
      assert [all[0]] + all[1..] == all;
    }
  }

  lemma {:induction false} ReadWrittenSegments(segments: seq<Blob>, rest: Blob)
    requires forall i :: 0 <= i < |segments| ==> |segments[i]| < 256
    ensures ReadSegments(EncodeSegments(segments) + rest, |segments|) == Ok(segments, rest)
  {
    if segments == [] {
      assert EncodeSegments(segments) + rest == rest;
    } else {
      var s2 := EncodeSegments(segments[1..]) + rest;
      var s1 := segments[0] + s2;
      assert EncodeSegments(segments) + rest == [|segments[0]|] + s1;
      ReadWrittenByte(|segments[0]|, s1);
      TakeBack(segments[0], s2);
      ReadWrittenSegments(segments[1..], rest);
      assert [segments[0]] + segments[1..] == segments;
    }
  }

  lemma ReadWrittenHash(u: Update, intelligence: Intelligence, rest: Blob)
    requires UpdateFits(u)
    ensures ReadHash(EncodeHash(u, intelligence) + rest, intelligence)
         == Ok(if intelligence == HashAware then HashPart(u.hashVersion, u.segments) else HashPart(0, []), rest)
  {
    hide EncodeVar, ReadVar, EncodeSegments, ReadSegments;
    if intelligence != HashAware {
      assert EncodeHash(u, intelligence) + rest == rest;
    } else {
      var s2 := EncodeSegments(u.segments) + rest;
      var s1 := EncodeVar(|u.segments|) + s2;
      assert EncodeHash(u, intelligence) + rest == [u.hashVersion] + s1;
      ReadWrittenByte(u.hashVersion, s1);
      ReadWritten(|u.segments|, W32, s2);
      ReadWrittenSegments(u.segments, rest);
    }
  }

  /** An update is consumed to its last byte, at every level of client intelligence. */
  lemma ReadWrittenUpdate(u: Update, intelligence: Intelligence, rest: Blob)
    requires UpdateFits(u)
    ensures ReadTopology(EncodeUpdate(u, intelligence) + rest, intelligence)
         == Ok(TopologyOf(u, intelligence), rest)
  {
    hide EncodeVar, ReadVar, EncodeServers, ReadServers, EncodeHash, ReadHash, Kept;
    var s3 := EncodeHash(u, intelligence) + rest;
    var s2 := EncodeServers(u.servers) + s3;
    var s1 := EncodeVar(|u.servers|) + s2;
    assert EncodeUpdate(u, intelligence) + rest == EncodeVar(u.id) + s1;
    ReadWritten(u.id, W32, s1);
    ReadWritten(|u.servers|, W32, s2);
    ReadWrittenServers(u.servers, s3);
    ReadWrittenHash(u, intelligence, rest);
  }

  // ----- parseTopologyInfo -----

  /** The parser's own reader of variable-length integers first collects the bytes, up to and
      including the first below 128, and decodes them afterwards. */
  method ReceiveCollected(c: Connection) returns (r: Parse<nat>)
    requires c.connected
    modifies c`incoming
    ensures r.Ok? <==> ReadVar(old(c.incoming), W32).Ok?
    ensures r.Ok? ==> r == ReadVar(old(c.incoming), W32) && c.incoming == r.rest
  {
    hide ReadVar, DecodeVar;
    var bytes: Blob := [];
    ghost var s := c.incoming;
    var last: byte := 128;
    while last >= 128
      invariant c.connected && s == bytes + c.incoming
      invariant last == if bytes == [] then 128 else bytes[|bytes| - 1]
      invariant forall i :: 0 <= i < |bytes| - 1 ==> bytes[i] >= 128
      decreases |c.incoming|
    {
      ghost var ahead := c.incoming;
      var b := c.ReceiveByte();
      if !b.Ok? {
        assert s == bytes;
        NeverEnds(s, W32);
        return Short;
      }
      assert ahead == [b.value] + c.incoming;
      bytes := bytes + [b.value];
      last := b.value;
    }
    EndsThere(bytes, c.incoming, W32);
    assert bytes[0..] == bytes;
    var v, _ := ReadVarAt(bytes, 0, W32);
    r := match v { case Ok(n, _) => Ok(n, c.incoming) case _ => v };
  }

  lemma {:induction false} DecodeNeverEnds(s: Blob, limit: nat)
    requires forall i :: 0 <= i < |s| ==> s[i] >= 128
    ensures !DecodeVar(s, limit).Ok?
  {
    if s != [] && limit > 0 {
      DecodeNeverEnds(s[1..], limit - 1);
    }
  }

  lemma NeverEnds(s: Blob, w: Width)
    requires forall i :: 0 <= i < |s| ==> s[i] >= 128
    ensures !ReadVar(s, w).Ok?
  {
    hide DecodeVar;
    DecodeNeverEnds(s, w.Limit());
  }

  lemma {:induction false} DecodeEndsThere(s: Blob, rest: Blob, limit: nat)
    requires s != [] && s[|s| - 1] < 128 && forall i :: 0 <= i < |s| - 1 ==> s[i] >= 128
    ensures var p, q := DecodeVar(s, limit), DecodeVar(s + rest, limit);
      && (p.Ok? <==> q.Ok?)
      && (p.Ok? ==> p.value == q.value && p.rest == [] && q.rest == rest)
  {
    assert (s + rest)[1..] == s[1..] + rest;
    if limit > 0 && s[0] >= 128 {
      DecodeEndsThere(s[1..], rest, limit - 1);
    }
  }

  lemma EndsThere(s: Blob, rest: Blob, w: Width)
    requires s != [] && s[|s| - 1] < 128 && forall i :: 0 <= i < |s| - 1 ==> s[i] >= 128
    ensures var p, q := ReadVar(s, w), ReadVar(s + rest, w);
      && (p.Ok? <==> q.Ok?)
      && (p.Ok? ==> p.value == q.value && q.rest == rest)
  {
    hide DecodeVar;
    DecodeEndsThere(s, rest, w.Limit());
  }

  /** A successful read of the rest of a list, with what was read before put in front. */
  function Prefixed<T>(before: seq<T>, p: Parse<seq<T>>): Parse<seq<T>> {
    match p
    case Ok(more, rest) => Ok(before + more, rest)
    case Short => Short
    case Bad => Bad
    case Undefined => Undefined
  }

  lemma PrefixedByNothing<T>(p: Parse<seq<T>>)
    ensures Prefixed([], p) == p
  {
    if p.Ok? {
      assert [] + p.value == p.value;
    }
  }

  lemma ReadNoServers(s: Blob)
    ensures ReadServers(s, 0) == Ok([], s)
  {
  }

  lemma ReadServersStep(s: Blob, before: seq<Address>, n: nat)
    requires n > 0
    ensures !ReadAddress(s).Ok? ==> !ReadServers(s, n).Ok?
    ensures ReadAddress(s).Ok? ==>
      Prefixed(before, ReadServers(s, n))
      == Prefixed(before + [ReadAddress(s).value], ReadServers(ReadAddress(s).rest, n - 1))
  {
    hide ReadAddress;
    if !ReadAddress(s).Ok? {
      return;
    }
    var a, s1 := ReadAddress(s).value, ReadAddress(s).rest;
    if ReadServers(s1, n - 1).Ok? {
      var more := ReadServers(s1, n - 1).value;
      assert before + ([a] + more) == before + [a] + more;
    }
  }

  lemma ReadNoSegments(s: Blob)
    ensures ReadSegments(s, 0) == Ok([], s)
  {
  }

  lemma ReadSegmentsStep(s: Blob, before: seq<Blob>, n: nat)
    requires n > 0
    ensures !ReadSegment(s).Ok? ==> !ReadSegments(s, n).Ok?
    ensures ReadSegment(s).Ok? ==>
      Prefixed(before, ReadSegments(s, n))
      == Prefixed(before + [ReadSegment(s).value], ReadSegments(ReadSegment(s).rest, n - 1))
  {
    hide ReadSegment;
    if !ReadSegment(s).Ok? {
      return;
    }
    var a, s1 := ReadSegment(s).value, ReadSegment(s).rest;
    if ReadSegments(s1, n - 1).Ok? {
      var more := ReadSegments(s1, n - 1).value;
      assert before + ([a] + more) == before + [a] + more;
    }
  }

  lemma KeptNext(all: seq<Address>, a: Address)
    ensures Kept(all + [a]) == Keep(Kept(all), a, |all|)
  {
    assert (all + [a])[..|all|] == all;
  }

  method ReceiveAddress(c: Connection) returns (r: Parse<Address>)
    requires c.connected
    modifies c`incoming
    ensures r.Ok? <==> ReadAddress(old(c.incoming)).Ok?
    ensures r.Ok? ==> r == ReadAddress(old(c.incoming)) && c.incoming == r.rest
  {
    hide ReadBlob;
    var host := ReceiveHost(c);
    if !host.Ok? {
      return Short;
    }
    var port := c.Receive(2);
    if !port.Ok? {
      return Short;
    }
    r := Ok(Address(host.value, PortOf(port.value)), c.incoming);
  }

  /** The server list is read and de-duplicated in one loop. */
  method ReceiveServers(c: Connection, n: nat) returns (ok: bool, servers: seq<Server>)
    requires c.connected
    modifies c`incoming
    ensures ok <==> ReadServers(old(c.incoming), n).Ok?
    ensures ok ==> servers == Kept(ReadServers(old(c.incoming), n).value)
    ensures ok ==> c.incoming == ReadServers(old(c.incoming), n).rest
  {
    hide ReadServers, ReadAddress, HashIdAt, Kept, Addresses;
    ghost var s := c.incoming;
    servers := [];
    ghost var all: seq<Address> := [];
    assert servers == Kept(all) by {
      KeptNothing();
    }
    PrefixedByNothing(ReadServers(s, n));
    for i := 0 to n
      invariant c.connected && |all| == i && servers == Kept(all)
      invariant ReadServers(s, n) == Prefixed(all, ReadServers(c.incoming, n - i))
    {
      ReadServersStep(c.incoming, all, n - i);
      var server := ReceiveAddress(c);
      if !server.Ok? {
        return false, servers;
      }
      KeptNext(all, server.value);
      all := all + [server.value];
      if server.value !in Addresses(servers) {
        servers := servers + [Server(server.value, HashIdAt(i))];
      }
    }
    ReadNoServers(c.incoming);
    assert all + [] == all;
    ok := true;
  }

  lemma KeptNothing()
    ensures Kept([]) == []
  {
  }

  /** The parser's readString: its own reader for the length. */
  method ReceiveHost(c: Connection) returns (r: Parse<Blob>)
    requires c.connected
    modifies c`incoming
    ensures r.Ok? <==> ReadBlob(old(c.incoming)).Ok?
    ensures r.Ok? ==> r == ReadBlob(old(c.incoming)) && c.incoming == r.rest
  {
    hide ReadVar;
    var length := ReceiveCollected(c);
    if !length.Ok? {
      return Short;
    }
    if length.value == 0 {
      return Ok([], c.incoming);
    }
    r := c.Receive(length.value);
  }

  method ReceiveSegments(c: Connection, n: nat) returns (ok: bool, owners: seq<Blob>)
    requires c.connected
    modifies c`incoming
    ensures ok <==> ReadSegments(old(c.incoming), n).Ok?
    ensures ok ==> owners == ReadSegments(old(c.incoming), n).value
    ensures ok ==> c.incoming == ReadSegments(old(c.incoming), n).rest
  {
    hide ReadSegments;
    ghost var s := c.incoming;
    owners := [];
    PrefixedByNothing(ReadSegments(s, n));
    for i := 0 to n
      invariant c.connected && |owners| == i
      invariant ReadSegments(s, n) == Prefixed(owners, ReadSegments(c.incoming, n - i))
    {
      ghost var ahead := c.incoming;
      var count := c.ReceiveByte();
      var indices := Short;
      if count.Ok? {
        indices := c.Receive(count.value);
      }
      ReadSegmentsStep(ahead, owners, n - i);
      if !indices.Ok? {
        return false, owners;
      }
      owners := owners + [indices.value];
    }
    ReadNoSegments(c.incoming);
    assert owners + [] == owners;
    ok := true;
  }

  /** parseTopologyInfo accepts exactly the streams that carry an update, takes from them what
      the update means, and stops at its end. */
  method ParseTopologyInfo(c: Connection, intelligence: Intelligence) returns (ok: bool, t: Topology)
    requires c.connected
    modifies c`incoming
    ensures ok <==> ReadTopology(old(c.incoming), intelligence).Ok?
    ensures ok ==> Ok(t, c.incoming) == ReadTopology(old(c.incoming), intelligence)
  {
    hide ReadVar, ReadServers, ReadSegments, Kept;
    ok, t := false, EMPTY;
    var id := ReceiveCollected(c);
    if !id.Ok? {
      return;
    }
    var numServers := ReceiveCollected(c);
    if !numServers.Ok? {
      return;
    }
    var read, servers := ReceiveServers(c, numServers.value);
    if !read {
      return;
    }
    var version: byte, owners: seq<Blob> := 0, [];
    if intelligence == HashAware {
      var v := c.ReceiveByte();
      if !v.Ok? {
        return;
      }
      version := v.value;
      var numSegments := ReceiveCollected(c);
      if !numSegments.Ok? {
        return;
      }
      ReadSegmentsCount(c.incoming, numSegments.value);
      read, owners := ReceiveSegments(c, numSegments.value);
      if !read {
        return;
      }
    }
    ok, t := true, Topology(ToInt32(id.value), servers, version, |owners|, owners);
  }
}
