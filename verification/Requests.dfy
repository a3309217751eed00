/** Requests on the wire: the header of src/codec/HeaderCodec.cpp and the bodies that
    src/operations/RemoteCache.cpp builds, with the decoder a server needs for them. */
module Requests {
  import opened Bytes
  import opened Codec

  const REQUEST_MAGIC: byte := 0xA0
  const VERSION_40: byte := 40

  /** otherParams is a std::map in the source; here it is the sequence in iteration order. */
  datatype Param = Param(key: Blob, value: Blob)

  datatype Header = Header(
    messageId: uint64, version: byte, opcode: byte, cacheName: Blob, flags: uint32,
    intelligence: byte, topologyId: uint32, keyMediaType: byte, valueMediaType: byte,
    otherParams: seq<Param>)

  /** Zero durations mean "server default" and are not sent. */
  datatype Expiration = Expiration(lifespan: uint64, maxIdle: uint64)

  datatype Command =
    | Put(key: Blob, expiration: Expiration, value: Blob)
    | Get(key: Blob)
    | PutIfAbsent(key: Blob, expiration: Expiration, value: Blob)
    | Replace(key: Blob, expiration: Expiration, value: Blob)
    | ReplaceWithVersion(key: Blob, expiration: Expiration, version: int64, value: Blob)
    | Remove(key: Blob)
    | RemoveWithVersion(key: Blob, version: int64)
    | ContainsKey(key: Blob)
    | GetWithMetadata(key: Blob)

  function Opcode(c: Command): byte {
    match c
    case Put(_, _, _) => 0x01
    case Get(_) => 0x03
    case PutIfAbsent(_, _, _) => 0x05
    case Replace(_, _, _) => 0x07
    case ReplaceWithVersion(_, _, _, _) => 0x09
    case Remove(_) => 0x0B
    case RemoveWithVersion(_, _) => 0x0D
    case ContainsKey(_) => 0x0F
    case GetWithMetadata(_) => 0x1B
  }

  // ----- Writing -----

  function EncodeParams(ps: seq<Param>): Blob {
    if ps == [] then [] else EncodeBlob(ps[0].key) + EncodeBlob(ps[0].value) + EncodeParams(ps[1..])
  }

  /** Magic, message ID, version and opcode. */
  function EncodeLead(h: Header): Blob {
    [REQUEST_MAGIC] + EncodeVar(h.messageId) + [h.version, h.opcode]
  }

  function EncodeScope(h: Header): Blob {
    EncodeBlob(h.cacheName) + EncodeVar(h.flags) + [h.intelligence] + EncodeVar(h.topologyId)
  }

  /** Media types and other parameters, only from protocol 4.0 on. */
  function EncodeExtras(h: Header): Blob {
    if h.version < VERSION_40 then []
    else [h.keyMediaType, h.valueMediaType] + EncodeVar(|h.otherParams| % TWO32) + EncodeParams(h.otherParams)
  }

  function EncodeHeader(h: Header): Blob { EncodeLead(h) + EncodeScope(h) + EncodeExtras(h) }

  function TimeUnits(e: Expiration): byte {
    (if e.lifespan == 0 then 0x70 else 0) + (if e.maxIdle == 0 then 0x07 else 0)
  }

  function EncodeDuration(d: uint64): Blob { if d == 0 then [] else EncodeVar(d) }

  function EncodeExpiration(e: Expiration): Blob {
    [TimeUnits(e)] + EncodeDuration(e.lifespan) + EncodeDuration(e.maxIdle)
  }

  /** What follows the key. */
  function EncodeArguments(c: Command): Blob {
    match c
    case Put(_, e, v) => EncodeExpiration(e) + EncodeBlob(v)
    case PutIfAbsent(_, e, v) => EncodeExpiration(e) + EncodeBlob(v)
    case Replace(_, e, v) => EncodeExpiration(e) + EncodeBlob(v)
    case ReplaceWithVersion(_, e, n, v) => EncodeExpiration(e) + EncodeLong(n) + EncodeBlob(v)
    case RemoveWithVersion(_, n) => EncodeLong(n)
    case _ => []
  }

  function EncodeBody(c: Command): Blob { EncodeBlob(c.key) + EncodeArguments(c) }

  datatype Request = Request(header: Header, command: Command)

  /** buildRequest: header, then body. */
  function EncodeRequest(r: Request): Blob { EncodeHeader(r.header) + EncodeBody(r.command) }

  function EncodeAll(rs: seq<Request>): Blob {
    if rs == [] then [] else EncodeRequest(rs[0]) + EncodeAll(rs[1..])
  }

  // ----- Reading -----

  function ReadParams(s: Blob, n: nat): Parse<seq<Param>>
    decreases n
  {
    if n == 0 then Ok([], s)
    else
      var (k, s1) :- ReadBlob(s);
      var (v, s2) :- ReadBlob(s1);
      var (ps, s3) :- ReadParams(s2, n - 1);
      Ok([Param(k, v)] + ps, s3)
  }

  datatype Lead = Lead(messageId: uint64, version: byte, opcode: byte)

  function ReadLead(s: Blob): Parse<Lead> {
    var (magic, s0) :- ReadByte(s);
    if magic != REQUEST_MAGIC then Bad
    else
      var (id, s1) :- ReadVar(s0, W64);
      var (version, s2) :- ReadByte(s1);
      var (opcode, s3) :- ReadByte(s2);
      Ok(Lead(id, version, opcode), s3)
  }

  datatype Scope = Scope(cacheName: Blob, flags: uint32, intelligence: byte, topologyId: uint32)

  function ReadScope(s: Blob): Parse<Scope> {
    var (cacheName, s1) :- ReadBlob(s);
    var (flags, s2) :- ReadVar(s1, W32);
    var (intelligence, s3) :- ReadByte(s2);
    var (topologyId, s4) :- ReadVar(s3, W32);
    Ok(Scope(cacheName, flags, intelligence, topologyId), s4)
  }

  datatype Extras = Extras(keyMediaType: byte, valueMediaType: byte, otherParams: seq<Param>)

  function ReadExtras(s: Blob, version: byte): Parse<Extras> {
    if version < VERSION_40 then Ok(Extras(0, 0, []), s)
    else
      var (k, s1) :- ReadByte(s);
      var (v, s2) :- ReadByte(s1);
      var (n, s3) :- ReadVar(s2, W32);
      var (ps, s4) :- ReadParams(s3, n);
      Ok(Extras(k, v, ps), s4)
  }

  function ReadHeader(s: Blob): Parse<Header> {
    var (l, s1) :- ReadLead(s);
    var (c, s2) :- ReadScope(s1);
    var (x, s3) :- ReadExtras(s2, l.version);
    Ok(Header(l.messageId, l.version, l.opcode, c.cacheName, c.flags, c.intelligence, c.topologyId,
              x.keyMediaType, x.valueMediaType, x.otherParams), s3)
  }

  /** Unit 0 is seconds, unit 7 stands for the server's default; no other unit is ever written. */
  function ReadDuration(s: Blob, unit: nat): Parse<uint64> {
    if unit == 7 then Ok(0, s) else if unit == 0 then ReadVar(s, W64) else Bad
  }

  function ReadExpiration(s: Blob): Parse<Expiration> {
    var (units, s1) :- ReadByte(s);
    var (lifespan, s2) :- ReadDuration(s1, units / 16);
    var (maxIdle, s3) :- ReadDuration(s2, units % 16);
    Ok(Expiration(lifespan, maxIdle), s3)
  }

  datatype Store = Store(expiration: Expiration, value: Blob)

  function ReadStore(s: Blob): Parse<Store> {
    var (e, s1) :- ReadExpiration(s);
    var (v, s2) :- ReadBlob(s1);
    Ok(Store(e, v), s2)
  }

  function ReadArguments(s: Blob, opcode: byte, key: Blob): Parse<Command> {
    if opcode == 0x01 || opcode == 0x05 || opcode == 0x07 then
      var (x, s1) :- ReadStore(s);
      Ok(if opcode == 0x01 then Put(key, x.expiration, x.value)
         else if opcode == 0x05 then PutIfAbsent(key, x.expiration, x.value)
         else Replace(key, x.expiration, x.value), s1)
    else if opcode == 0x09 then
      var (e, s1) :- ReadExpiration(s);
      var (n, s2) :- ReadLong(s1);
      var (v, s3) :- ReadBlob(s2);
      Ok(ReplaceWithVersion(key, e, n, v), s3)
    else if opcode == 0x0D then
      var (n, s1) :- ReadLong(s);
      Ok(RemoveWithVersion(key, n), s1)
    else if opcode == 0x03 then Ok(Get(key), s)
    else if opcode == 0x0B then Ok(Remove(key), s)
    else if opcode == 0x0F then Ok(ContainsKey(key), s)
    else if opcode == 0x1B then Ok(GetWithMetadata(key), s)
    else Bad
  }

  function ReadBody(s: Blob, opcode: byte): Parse<Command> {
    var (key, s1) :- ReadBlob(s);
    ReadArguments(s1, opcode, key)
  }

  function ReadRequest(s: Blob): Parse<Request> {
    var (h, s1) :- ReadHeader(s);
    var (c, s2) :- ReadBody(s1, h.opcode);
    Ok(Request(h, c), s2)
  }

  // ----- Every request can be read back -----

  ghost predicate Short32(b: Blob) { |b| < TWO32 }

  /** What the wire can carry: lengths below 2^32, and before 4.0 none of the 4.0 fields. */
  ghost predicate HeaderFits(h: Header) {
    && Short32(h.cacheName)
    && |h.otherParams| < TWO32
    && (forall i :: 0 <= i < |h.otherParams| ==> Short32(h.otherParams[i].key) && Short32(h.otherParams[i].value))
    && (h.version < VERSION_40 ==> h.keyMediaType == 0 && h.valueMediaType == 0 && h.otherParams == [])
  }

  ghost predicate CommandFits(c: Command) {
    && Short32(c.key)
    && (!c.Get? && !c.Remove? && !c.RemoveWithVersion? && !c.ContainsKey? && !c.GetWithMetadata? ==> Short32(c.value))
  }

  ghost predicate Fits(r: Request) {
    HeaderFits(r.header) && CommandFits(r.command) && r.header.opcode == Opcode(r.command)
  }

  lemma {:induction false} ReadWrittenParams(ps: seq<Param>, rest: Blob)
    requires forall i :: 0 <= i < |ps| ==> Short32(ps[i].key) && Short32(ps[i].value)
    ensures ReadParams(EncodeParams(ps) + rest, |ps|) == Ok(ps, rest)
  {
    hide EncodeBlob, ReadBlob;
    if ps == [] {
      assert EncodeParams(ps) + rest == rest;
    } else {
      var s3 := EncodeParams(ps[1..]) + rest;
      var s2 := EncodeBlob(ps[0].value) + s3;
      assert EncodeParams(ps) + rest == EncodeBlob(ps[0].key) + s2;
      ReadWrittenBlob(ps[0].key, s2);
      ReadWrittenBlob(ps[0].value, s3);
      ReadWrittenParams(ps[1..], rest);
      assert [Param(ps[0].key, ps[0].value)] + ps[1..] == ps;
    }
  }

  lemma ReadWrittenLead(h: Header, rest: Blob)
    ensures ReadLead(EncodeLead(h) + rest) == Ok(Lead(h.messageId, h.version, h.opcode), rest)
  {
    hide EncodeVar, ReadVar;
    var s2 := [h.version] + ([h.opcode] + rest);
    var s1 := EncodeVar(h.messageId) + s2;
    assert EncodeLead(h) + rest == [REQUEST_MAGIC] + s1;
    ReadWrittenByte(REQUEST_MAGIC, s1);
    ReadWritten(h.messageId, W64, s2);
    ReadWrittenByte(h.version, [h.opcode] + rest);
    ReadWrittenByte(h.opcode, rest);
  }

  lemma ReadWrittenScope(h: Header, rest: Blob)
    requires HeaderFits(h)
    ensures ReadScope(EncodeScope(h) + rest)
         == Ok(Scope(h.cacheName, h.flags, h.intelligence, h.topologyId), rest)
  {
    hide EncodeVar, ReadVar, EncodeBlob, ReadBlob;
    var s3 := EncodeVar(h.topologyId) + rest;
    var s2 := [h.intelligence] + s3;
    var s1 := EncodeVar(h.flags) + s2;
    assert EncodeScope(h) + rest == EncodeBlob(h.cacheName) + s1;
    ReadWrittenBlob(h.cacheName, s1);
    ReadWritten(h.flags, W32, s2);
    ReadWrittenByte(h.intelligence, s3);
    ReadWritten(h.topologyId, W32, rest);
  }

  lemma ReadWrittenExtras(h: Header, rest: Blob)
    requires HeaderFits(h)
    ensures ReadExtras(EncodeExtras(h) + rest, h.version)
         == Ok(Extras(h.keyMediaType, h.valueMediaType, h.otherParams), rest)
  {
    hide EncodeVar, ReadVar, EncodeParams, ReadParams;
    if h.version < VERSION_40 {
      assert EncodeExtras(h) + rest == rest;
    } else {
      var s3 := EncodeParams(h.otherParams) + rest;
      var s2 := EncodeVar(|h.otherParams|) + s3;
      var s1 := [h.valueMediaType] + s2;
      assert EncodeExtras(h) + rest == [h.keyMediaType] + s1;
      ReadWrittenByte(h.keyMediaType, s1);
      ReadWrittenByte(h.valueMediaType, s2);
      ReadWritten(|h.otherParams|, W32, s3);
      ReadWrittenParams(h.otherParams, rest);
    }
  }

  lemma ReadWrittenHeader(h: Header, rest: Blob)
    requires HeaderFits(h)
    ensures ReadHeader(EncodeHeader(h) + rest) == Ok(h, rest)
  {
    hide EncodeLead, ReadLead, EncodeScope, ReadScope, EncodeExtras, ReadExtras;
    var s2 := EncodeExtras(h) + rest;
    var s1 := EncodeScope(h) + s2;
    assert EncodeHeader(h) + rest == EncodeLead(h) + s1;
    ReadWrittenLead(h, s1);
    ReadWrittenScope(h, s2);
    ReadWrittenExtras(h, rest);
  }

  lemma ReadWrittenDuration(d: uint64, rest: Blob)
    ensures ReadDuration(EncodeDuration(d) + rest, if d == 0 then 7 else 0) == Ok(d, rest)
  {
    hide EncodeVar, ReadVar;
    if d == 0 {
      assert EncodeDuration(d) + rest == rest;
    } else {
      ReadWritten(d, W64, rest);
    }
  }

  lemma ReadWrittenExpiration(e: Expiration, rest: Blob)
    ensures ReadExpiration(EncodeExpiration(e) + rest) == Ok(e, rest)
  {
    hide EncodeDuration, ReadDuration;
    var s2 := EncodeDuration(e.maxIdle) + rest;
    var s1 := EncodeDuration(e.lifespan) + s2;
    assert EncodeExpiration(e) + rest == [TimeUnits(e)] + s1;
    ReadWrittenByte(TimeUnits(e), s1);
    ReadWrittenDuration(e.lifespan, s2);
    ReadWrittenDuration(e.maxIdle, rest);
  }

  lemma ReadWrittenStore(e: Expiration, v: Blob, rest: Blob)
    requires Short32(v)
    ensures ReadStore(EncodeExpiration(e) + EncodeBlob(v) + rest) == Ok(Store(e, v), rest)
  {
    hide EncodeExpiration, ReadExpiration, EncodeBlob, ReadBlob;
    assert EncodeExpiration(e) + EncodeBlob(v) + rest == EncodeExpiration(e) + (EncodeBlob(v) + rest);
    ReadWrittenExpiration(e, EncodeBlob(v) + rest);
    ReadWrittenBlob(v, rest);
  }

  lemma ReadWrittenArguments(c: Command, rest: Blob)
    requires CommandFits(c)
    ensures ReadArguments(EncodeArguments(c) + rest, Opcode(c), c.key) == Ok(c, rest)
  {
    hide EncodeExpiration, ReadExpiration, EncodeBlob, ReadBlob, EncodeLong, ReadLong, ReadStore;
    match c
    case Put(_, e, v) => ReadWrittenStore(e, v, rest);
    case PutIfAbsent(_, e, v) => ReadWrittenStore(e, v, rest);
    case Replace(_, e, v) => ReadWrittenStore(e, v, rest);
    case ReplaceWithVersion(_, e, n, v) =>
      var s2 := EncodeBlob(v) + rest;
      var s1 := EncodeLong(n) + s2;
      assert EncodeArguments(c) + rest == EncodeExpiration(e) + s1;
      ReadWrittenExpiration(e, s1);
      ReadWrittenLong(n, s2);
      ReadWrittenBlob(v, rest);
    case RemoveWithVersion(_, n) => ReadWrittenLong(n, rest);
    case _ => assert EncodeArguments(c) + rest == rest;
  }

  lemma ReadWrittenBody(c: Command, rest: Blob)
    requires CommandFits(c)
    ensures ReadBody(EncodeBody(c) + rest, Opcode(c)) == Ok(c, rest)
  {
    hide EncodeBlob, ReadBlob, EncodeArguments, ReadArguments;
    assert EncodeBody(c) + rest == EncodeBlob(c.key) + (EncodeArguments(c) + rest);
    ReadWrittenBlob(c.key, EncodeArguments(c) + rest);
    ReadWrittenArguments(c, rest);
  }

  /** A written frame determines every header field and every field of its command, and the
      reader stops exactly at its end. */
  lemma ReadWrittenRequest(r: Request, rest: Blob)
    requires Fits(r)
    ensures ReadRequest(EncodeRequest(r) + rest) == Ok(r, rest)
  {
    hide EncodeHeader, ReadHeader, EncodeBody, ReadBody, Opcode;
    assert EncodeRequest(r) + rest == EncodeHeader(r.header) + (EncodeBody(r.command) + rest);
    ReadWrittenHeader(r.header, EncodeBody(r.command) + rest);
    ReadWrittenBody(r.command, rest);
  }

  lemma RequestNotEmpty(r: Request)
    ensures |EncodeRequest(r)| > 0
  {
  }

  /** Any concatenation of frames splits back in only one way. */
  lemma {:induction false} SplitsOneWay(rs: seq<Request>, qs: seq<Request>)
    requires forall i :: 0 <= i < |rs| ==> Fits(rs[i])
    requires forall i :: 0 <= i < |qs| ==> Fits(qs[i])
    requires EncodeAll(rs) == EncodeAll(qs)
    ensures rs == qs
  {
    hide EncodeRequest, ReadRequest, Fits;
    if rs == [] {
      if qs != [] {
        RequestNotEmpty(qs[0]);
      }
    } else if qs == [] {
      RequestNotEmpty(rs[0]);
    } else {
      ReadWrittenRequest(rs[0], EncodeAll(rs[1..]));
      ReadWrittenRequest(qs[0], EncodeAll(qs[1..]));
      SplitsOneWay(rs[1..], qs[1..]);
      assert rs == [rs[0]] + rs[1..] && qs == [qs[0]] + qs[1..];
    }
  }

  lemma {:induction false} EncodeAllAppends(rs: seq<Request>, r: Request)
    ensures EncodeAll(rs + [r]) == EncodeAll(rs) + EncodeRequest(r)
  {
    hide EncodeRequest;
    if rs == [] {
      assert rs + [r] == [r];
      assert EncodeAll([r]) == EncodeRequest(r) + EncodeAll([]);
    } else {
      assert (rs + [r])[1..] == rs[1..] + [r];
      EncodeAllAppends(rs[1..], r);
    }
  }

  // ----- The writers, as the source appends them -----

  method WriteBlob(buffer: Blob, value: Blob) returns (r: Blob)
    ensures r == buffer + EncodeBlob(value)
  {
    r := WriteVar(buffer, |value| % TWO32);
    r := r + value;
  }

  method WriteRequestHeader(buffer: Blob, h: Header) returns (r: Blob)
    ensures r == buffer + EncodeHeader(h)
  {
    hide EncodeVar, EncodeBlob, EncodeParams;
    r := buffer + [REQUEST_MAGIC];
    r := WriteVar(r, h.messageId);
    r := r + [h.version];
    r := r + [h.opcode];
    assert r == buffer + EncodeLead(h);
    ghost var lead := r;
    r := WriteBlob(r, h.cacheName);
    r := WriteVar(r, h.flags);
    r := r + [h.intelligence];
    r := WriteVar(r, h.topologyId);
    assert r == lead + EncodeScope(h);
    ghost var scope := r;
    if h.version >= VERSION_40 {
      r := r + [h.keyMediaType];
      r := r + [h.valueMediaType];
      r := WriteVar(r, |h.otherParams| % TWO32);
      r := WriteParams(r, h.otherParams);
    }
    assert r == scope + EncodeExtras(h);
    assert r == buffer + EncodeHeader(h);
  }

  method WriteParams(buffer: Blob, ps: seq<Param>) returns (r: Blob)
    ensures r == buffer + EncodeParams(ps)
  {
    hide EncodeBlob;
    r := buffer;
    for i := 0 to |ps|
      invariant r + EncodeParams(ps[i..]) == buffer + EncodeParams(ps)
    {
      ghost var was := r;
      r := WriteBlob(r, ps[i].key);
      r := WriteBlob(r, ps[i].value);
      assert r + EncodeParams(ps[i + 1..]) == was + EncodeParams(ps[i..]) by {
        assert ps[i..][1..] == ps[i + 1..];
      }
    }
    assert ps[|ps|..] == [];
  }

  method WriteExpiration(buffer: Blob, e: Expiration) returns (r: Blob)
    ensures r == buffer + EncodeExpiration(e)
  {
    hide EncodeVar;
    var timeUnits := 0;
    if e.lifespan == 0 {
      timeUnits := timeUnits + 0x70;
    }
    if e.maxIdle == 0 {
      timeUnits := timeUnits + 0x07;
    }
    r := buffer + [timeUnits];
    if e.lifespan > 0 {
      r := WriteVar(r, e.lifespan);
    }
    if e.maxIdle > 0 {
      r := WriteVar(r, e.maxIdle);
    }
  }

  /** The request bodies of the keyed operations. */
  method BuildBody(c: Command) returns (r: Blob)
    ensures r == EncodeBody(c)
  {
    hide EncodeBlob, EncodeExpiration, EncodeLong;
    r := WriteBlob([], c.key);
    match c {
      case ReplaceWithVersion(_, e, n, v) =>
        r := WriteExpiration(r, e);
        r := WriteLong(r, n);
        r := WriteBlob(r, v);
      case RemoveWithVersion(_, n) =>
        r := WriteLong(r, n);
      case Get(_) =>
      case Remove(_) =>
      case ContainsKey(_) =>
      case GetWithMetadata(_) =>
      case _ =>
        r := WriteExpiration(r, c.expiration);
        r := WriteBlob(r, c.value);
    }
  }
}
