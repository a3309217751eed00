/** Responses on the wire: the header that the read loop of src/transport/MultiplexedConnection.cpp
    reads, and the body parsers of src/operations/RemoteCache.cpp (all but PING's). */
module Responses {
  import opened Bytes
  import opened Codec
  import opened Connections
  import opened Entries
  import opened Requests
  import opened Topologies

  const RESPONSE_MAGIC: byte := 0xA1
  const ERROR_RESPONSE: byte := 0x50

  /** The opcode that the client expects. */
  function ResponseOpcode(c: Command): byte { Opcode(c) + 1 }

  /** The opcode that the protocol gives to the response. */
  function ReplyOpcode(c: Command): byte {
    match c
    case Put(_, _, _) => 0x02
    case Get(_) => 0x04
    case PutIfAbsent(_, _, _) => 0x06
    case Replace(_, _, _) => 0x08
    case ReplaceWithVersion(_, _, _, _) => 0x0A
    case Remove(_) => 0x0C
    case RemoveWithVersion(_, _) => 0x0E
    case ContainsKey(_) => 0x10
    case GetWithMetadata(_) => 0x1C
  }

  lemma OpcodesMeet(c: Command)
    ensures ResponseOpcode(c) == ReplyOpcode(c)
  {
  }

  // ----- Bodies -----

  datatype Body = NoBody | ValueBody(value: Blob) | EntryBody(entry: Entry)

  /** What a parser reads for a given status. `Refuse` is a typed exception that reads nothing. */
  datatype Shape = Nothing | AValue | AnEntry | Refuse

  function ShapeOf(c: Command, status: byte, version: byte): Shape {
    match c
    case Get(_) =>
      if status == 1 || status == 2 then Nothing else if status != 0 then Refuse else AValue
    case GetWithMetadata(_) =>
      if status == 1 || status == 2 then Nothing else if status != 0 then Refuse else AnEntry
    case Put(_, _, _) =>
      if status == 3 then (if version >= VERSION_40 then AnEntry else AValue) else Nothing
    case ContainsKey(_) =>
      if status <= 2 then Nothing else Refuse
    case _ =>
      if status == 3 || status == 4 then AnEntry else if status <= 2 then Nothing else Refuse
  }

  /** A body parser: `Bad` is its typed exception. */
  function ParseBody(c: Command, status: byte, version: byte, s: Blob): Parse<Body> {
    match ShapeOf(c, status, version)
    case Refuse => Bad
    case Nothing => Ok(NoBody, s)
    case AValue =>
      var (v, rest) :- ReadBlob(s);
      Ok(ValueBody(v), rest)
    case AnEntry =>
      var (e, rest) :- ReadEntry(s);
      Ok(EntryBody(e), rest)
  }

  function EncodeReply(b: Body): Blob {
    match b
    case NoBody => []
    case ValueBody(v) => EncodeBlob(v)
    case EntryBody(e) => EncodeEntry(e)
  }

  // What a server sends is laid down here, apart from what the client's parsers read.

  /** Commands whose response can carry the previous entry under two statuses. */
  predicate Conditional(c: Command) {
    c.PutIfAbsent? || c.Replace? || c.ReplaceWithVersion? || c.Remove? || c.RemoveWithVersion?
  }

  predicate EntryDue(c: Command, status: byte, version: byte) {
    || (c.GetWithMetadata? && status == 0)
    || (c.Put? && status == 3 && version >= 40)
    || (Conditional(c) && (status == 3 || status == 4))
  }

  predicate ValueDue(c: Command, status: byte, version: byte) {
    (c.Get? && status == 0) || (c.Put? && status == 3 && version < 40)
  }

  /** Statuses that mean failure to the client. */
  predicate MeansFailure(c: Command, status: byte) {
    ((c.Get? || c.GetWithMetadata? || c.ContainsKey?) && status > 2) || (Conditional(c) && status > 4)
  }

  /** The body that the protocol prescribes for this command and status. */
  ghost predicate BodyFits(c: Command, status: byte, version: byte, b: Body) {
    if EntryDue(c, status, version) then b.EntryBody? && |b.entry.value| < TWO32
    else if ValueDue(c, status, version) then b.ValueBody? && |b.value| < TWO32
    else b == NoBody
  }

  /** Where the protocol has an entry the parser reads exactly that entry. */
  lemma EntryIsRead(c: Command, status: byte, version: byte, e: Entry, rest: Blob)
    requires EntryDue(c, status, version) && |e.value| < TWO32
    ensures ParseBody(c, status, version, EncodeEntry(e) + rest) == Ok(EntryBody(e), rest)
  {
    hide ReadEntry, EncodeEntry;
    ReadWrittenEntry(e, rest);
  }

  /** Where it has a value the parser reads exactly that value. */
  lemma ValueIsRead(c: Command, status: byte, version: byte, v: Blob, rest: Blob)
    requires ValueDue(c, status, version) && |v| < TWO32
    ensures ParseBody(c, status, version, EncodeBlob(v) + rest) == Ok(ValueBody(v), rest)
  {
    hide ReadBlob, EncodeBlob;
    ReadWrittenBlob(v, rest);
  }

  /** Everywhere else it reads nothing, whatever is on the stream; it throws exactly for the statuses
      that mean failure. */
  lemma NothingIsRead(c: Command, status: byte, version: byte, s: Blob)
    requires !EntryDue(c, status, version) && !ValueDue(c, status, version)
    ensures ParseBody(c, status, version, s) == if MeansFailure(c, status) then Bad else Ok(NoBody, s)
  {
  }

  lemma ThrowsIff(c: Command, status: byte, version: byte, s: Blob)
    ensures ParseBody(c, status, version, s).Bad? <==> MeansFailure(c, status)
  {
    hide ReadBlob, ReadEntry;
    NeverBad(s);
  }

  /** A parser reads the body of its own command to the last byte; when it throws there was none. */
  lemma ParseWrittenBody(c: Command, status: byte, version: byte, b: Body, rest: Blob)
    requires BodyFits(c, status, version, b)
    ensures ParseBody(c, status, version, EncodeReply(b) + rest) == if MeansFailure(c, status) then Bad else Ok(b, rest)
    ensures MeansFailure(c, status) ==> EncodeReply(b) + rest == rest
  {
    hide ParseBody, EncodeBlob, EncodeEntry;
    match b
    case NoBody =>
      assert EncodeReply(b) + rest == rest;
      NothingIsRead(c, status, version, rest);
    case ValueBody(v) => ValueIsRead(c, status, version, v, rest);
    case EntryBody(e) => EntryIsRead(c, status, version, e, rest);
  }

  /** The body parsers, reading from the connection. */
  method ReceiveBody(conn: Connection, c: Command, status: byte, version: byte) returns (r: Parse<Body>)
    requires conn.connected
    modifies conn`incoming
    ensures r == ParseBody(c, status, version, old(conn.incoming))
    ensures r.Ok? ==> conn.incoming == r.rest
    ensures MeansFailure(c, status) ==> conn.incoming == old(conn.incoming)
  {
    hide ReadBlob, ReadMetadata;
    match ShapeOf(c, status, version)
    case Refuse =>
      r := Bad;
    case Nothing =>
      r := Ok(NoBody, conn.incoming);
    case AValue =>
      var v := conn.ReceiveByteArray();
      r := if v.Ok? then Ok(ValueBody(v.value), v.rest) else v.PropagateFailure();
    case AnEntry =>
      var m := conn.ReceiveMetadata();
      if !m.Ok? {
        return m.PropagateFailure();
      }
      var v := conn.ReceiveByteArray();
      r := if v.Ok? then Ok(EntryBody(Entry(m.value, v.value)), v.rest) else v.PropagateFailure();
  }

  // ----- Headers -----

  /** Everything the read loop reads before it looks for the waiting request: an update of the
      topology, and the text of an error, are consumed here. */
  datatype Head = Head(id: uint64, opcode: byte, status: byte, topology: Option<Topology>, error: Option<Blob>)

  function ReadUpdate(s: Blob, marker: byte, intelligence: Intelligence): Parse<Option<Topology>> {
    if marker == 0 || intelligence == Basic then Ok(None, s)
    else
      var (t, rest) :- ReadTopology(s, intelligence);
      Ok(Some(t), rest)
  }

  function ReadError(s: Blob, opcode: byte): Parse<Option<Blob>> {
    if opcode != ERROR_RESPONSE then Ok(None, s)
    else
      var (m, rest) :- ReadBlob(s);
      Ok(Some(m), rest)
  }

  function ReadHead(s: Blob, intelligence: Intelligence): Parse<Head> {
    var (magic, s0) :- ReadByte(s);
    if magic != RESPONSE_MAGIC then Bad
    else
      var (id, s1) :- ReadVar(s0, W64);
      var (tail, s2) :- Take(s1, 3);
      var (topology, s3) :- ReadUpdate(s2, tail[2], intelligence);
      var (error, s4) :- ReadError(s3, tail[0]);
      Ok(Head(id, tail[0], tail[1], topology, error), s4)
  }

  predicate BadMagic(s: Blob) { s != [] && s[0] != RESPONSE_MAGIC }

  /** A response as a server sends it. */
  datatype Frame = Frame(id: uint64, opcode: byte, status: byte, marker: byte, update: Option<Update>,
                         error: Blob, body: Body)

  function EncodeHead(f: Frame, intelligence: Intelligence): Blob {
    [RESPONSE_MAGIC] + EncodeVar(f.id) + HeadTail(f) + UpdatePart(f, intelligence) + ErrorPart(f)
  }

  function HeadTail(f: Frame): Blob { [f.opcode, f.status, f.marker] }

  function UpdatePart(f: Frame, intelligence: Intelligence): Blob {
    if f.update.Some? then EncodeUpdate(f.update.value, intelligence) else []
  }

  function ErrorPart(f: Frame): Blob { if f.opcode == ERROR_RESPONSE then EncodeBlob(f.error) else [] }

  function EncodeFrame(f: Frame, intelligence: Intelligence): Blob {
    EncodeHead(f, intelligence) + EncodeReply(f.body)
  }

  /** An update travels only if it is announced and the client said that it reads updates. */
  ghost predicate HeadFits(f: Frame, intelligence: Intelligence) {
    && (f.update.Some? <==> f.marker != 0 && intelligence != Basic)
    && (f.update.Some? ==> UpdateFits(f.update.value))
    && |f.error| < TWO32
  }

  function HeadOf(f: Frame, intelligence: Intelligence): Head {
    Head(f.id, f.opcode, f.status,
         if f.update.Some? then Some(TopologyOf(f.update.value, intelligence)) else None,
         if f.opcode == ERROR_RESPONSE then Some(f.error) else None)
  }

  lemma ReadWrittenUpdatePart(f: Frame, intelligence: Intelligence, rest: Blob)
    requires HeadFits(f, intelligence)
    ensures ReadUpdate(UpdatePart(f, intelligence) + rest, f.marker, intelligence)
         == Ok(HeadOf(f, intelligence).topology, rest)
  {
    hide EncodeUpdate, ReadTopology, TopologyOf;
    if f.update.Some? {
      ReadWrittenUpdate(f.update.value, intelligence, rest);
    } else {
      assert UpdatePart(f, intelligence) + rest == rest;
    }
  }

  lemma ReadWrittenErrorPart(f: Frame, rest: Blob)
    requires |f.error| < TWO32
    ensures ReadError(ErrorPart(f) + rest, f.opcode)
         == Ok(if f.opcode == ERROR_RESPONSE then Some(f.error) else None, rest)
  {
    hide EncodeBlob, ReadBlob;
    if f.opcode == ERROR_RESPONSE {
      ReadWrittenBlob(f.error, rest);
    } else {
      assert ErrorPart(f) + rest == rest;
    }
  }

  lemma ReadWrittenHead(f: Frame, intelligence: Intelligence, rest: Blob)
    requires HeadFits(f, intelligence)
    ensures ReadHead(EncodeHead(f, intelligence) + rest, intelligence) == Ok(HeadOf(f, intelligence), rest)
  {
    hide EncodeVar, ReadVar, UpdatePart, ReadUpdate, TopologyOf, ErrorPart, ReadError;
    var s3 := ErrorPart(f) + rest;
    var s2 := UpdatePart(f, intelligence) + s3;
    var s1 := HeadTail(f) + s2;
    var s0 := EncodeVar(f.id) + s1;
    assert EncodeHead(f, intelligence) + rest == [RESPONSE_MAGIC] + s0;
    ReadWrittenByte(RESPONSE_MAGIC, s0);
    ReadWritten(f.id, W64, s1);
    TakeBack(HeadTail(f), s2);
    ReadWrittenUpdatePart(f, intelligence, s3);
    ReadWrittenErrorPart(f, rest);
  }

  /** The first half of an iteration of the read loop. It succeeds on exactly the streams that
      ReadHead accepts, and stops at the same byte; `sane` says that the magic byte was no reason
      to fail. */
  method ReceiveHead(conn: Connection, intelligence: Intelligence) returns (ok: bool, h: Head, sane: bool)
    requires conn.connected
    modifies conn`incoming
    ensures ok <==> ReadHead(old(conn.incoming), intelligence).Ok?
    ensures ok ==> Ok(h, conn.incoming) == ReadHead(old(conn.incoming), intelligence)
    ensures sane <==> !BadMagic(old(conn.incoming))
  {
    hide ReadVar, ReadTopology, ReadBlob;
    ok, h := false, Head(0, 0, 0, None, None);
    var magic := conn.ReceiveByte();
    sane := !magic.Ok? || magic.value == RESPONSE_MAGIC;
    if !magic.Ok? || magic.value != RESPONSE_MAGIC {
      return;
    }
    var id := conn.ReceiveVar(W64);
    if !id.Ok? {
      return;
    }
    var tail := conn.Receive(3);
    if !tail.Ok? {
      return;
    }
    var opcode, status, marker := tail.value[0], tail.value[1], tail.value[2];
    var topology: Option<Topology> := None;
    if marker != 0 && (intelligence == TopologyAware || intelligence == HashAware) {
      var read, t := ParseTopologyInfo(conn, intelligence);
      if !read {
        return;
      }
      topology := Some(t);
    }
    var error: Option<Blob> := None;
    if opcode == ERROR_RESPONSE {
      var m := conn.ReceiveByteArray();
      if !m.Ok? {
        return;
      }
      error := Some(m.value);
    }
    ok, h := true, Head(id.value, opcode, status, topology, error);
  }
}
