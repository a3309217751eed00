/** The SASL handshake of src/auth/SaslAuthenticator.cpp, over the bytes of a connection. */
module Sasl {
  import opened Bytes
  import opened Codec
  import opened Connections
  import opened Requests
  import opened Responses
  import opened Scram
  import opened Topologies

  const AUTH_MECH_LIST_REQUEST: byte := 0x21
  const AUTH_MECH_LIST_RESPONSE: byte := 0x22
  const AUTH_REQUEST: byte := 0x23
  const AUTH_RESPONSE: byte := 0x24

  datatype Credentials = Credentials(user: Blob, password: Blob, mechanism: Blob)

  datatype Phase = BeforeSend | AfterSend | ServerError

  /** A HotRodClientException carries its phase; any other exception is untyped. */
  datatype Failure = Typed(phase: Phase) | Untyped

  datatype Step<+T> = Got(value: T, rest: Blob) | Threw(failure: Failure)
  {
    predicate IsFailure() { Threw? }

    function PropagateFailure<U>(): Step<U>
      requires Threw?
    {
      Threw(failure)
    }

    function Extract(): (T, Blob)
      requires Got?
    {
      (value, rest)
    }
  }

  function Lift<T>(p: Parse<T>): Step<T> {
    match p
    case Ok(v, rest) => Got(v, rest)
    case _ => Threw(Untyped)
  }

  // ----- Reading -----

  /** readResponseHeader: a topology update that rides along is consumed and dropped. */
  function ReadOpcode(s: Blob, intelligence: Intelligence): Step<byte> {
    match ReadHead(s, intelligence)
    case Ok(h, rest) =>
      if h.error.Some? || h.status != 0 then Threw(Typed(ServerError)) else Got(h.opcode, rest)
    case _ => Threw(if BadMagic(s) then Typed(AfterSend) else Untyped)
  }

  function ExpectOpcode(s: Blob, intelligence: Intelligence, opcode: byte): Step<byte> {
    var (op, rest) :- ReadOpcode(s, intelligence);
    if op == opcode then Got(op, rest) else Threw(Typed(AfterSend))
  }

  function ReadNames(s: Blob, n: nat): Step<seq<Blob>>
    decreases n
  {
    if n == 0 then Got([], s)
    else
      var (name, s1) :- Lift(ReadBlob(s));
      var (names, s2) :- ReadNames(s1, n - 1);
      Got([name] + names, s2)
  }

  function ReadMechanisms(s: Blob, intelligence: Intelligence): Step<seq<Blob>> {
    var (_, s1) :- ExpectOpcode(s, intelligence, AUTH_MECH_LIST_RESPONSE);
    var (count, s2) :- Lift(ReadVar(s1, W32));
    ReadNames(s2, count)
  }

  datatype Challenge = Challenge(completed: bool, text: Blob)

  function ReadAuth(s: Blob, intelligence: Intelligence): Step<Challenge> {
    var (_, s1) :- ExpectOpcode(s, intelligence, AUTH_RESPONSE);
    var (completed, s2) :- Lift(ReadByte(s1));
    var (text, s3) :- Lift(ReadBlob(s2));
    Got(Challenge(completed != 0, text), s3)
  }

  // ----- The exchange -----

  datatype AuthRequest = MechList | Auth(token: Blob)

  /** What was sent, and how it ended: `None` is a normal return. */
  datatype Run = Run(sent: seq<AuthRequest>, end: Option<Failure>)

  datatype Reply = Proceed(message: Blob, fields: Fields) | Stop(failure: Failure)

  /** From the server-first message to the client-final message. */
  function Answer(k: Crypto, d: Digest, c: Credentials, nonce: Blob, first: Challenge): Reply {
    if first.completed then Stop(Typed(ServerError))
    else
      match ParseServerFirst(first.text)
      case None => Stop(Typed(ServerError))
      case Some(f) =>
        if !(nonce <= f.nonce) then Stop(Typed(ServerError))
        else
          match ClientFinal(k, d, c.password, ClientFirstBare(c.user, nonce), first.text, f)
          case None => Stop(Untyped)
          case Some(m) => Proceed(m, f)
  }

  function Judge(k: Crypto, d: Digest, c: Credentials, nonce: Blob, first: Blob, sent: Blob, f: Fields, final: Blob): Option<Failure> {
    if final == [] then Some(Typed(ServerError))
    else
      match Verify(k, d, final, c.password, AuthMessage(ClientFirstBare(c.user, nonce), first, CutAtProof(sent)), f)
      case None => Some(Untyped)
      case Some(valid) => if valid then None else Some(Typed(ServerError))
  }

  function Turns(k: Crypto, d: Digest, c: Credentials, nonce: Blob, intelligence: Intelligence, s: Blob): Run {
    var sent := [MechList, Auth(ClientFirst(c.user, nonce))];
    match ReadAuth(s, intelligence)
    case Threw(e) => Run(sent, Some(e))
    case Got(first, s1) =>
      match Answer(k, d, c, nonce, first)
      case Stop(e) => Run(sent, Some(e))
      case Proceed(m, f) =>
        match ReadAuth(s1, intelligence)
        case Threw(e) => Run(sent + [Auth(m)], Some(e))
        case Got(final, _) => Run(sent + [Auth(m)], Judge(k, d, c, nonce, first.text, m, f, final.text))
  }

  /** The whole handshake, as a function of the bytes that arrive. */
  function Handshake(k: Crypto, c: Credentials, nonce: Blob, intelligence: Intelligence, s: Blob): Run {
    match DigestForMechanism(c.mechanism)
    case None => Run([], Some(Typed(BeforeSend)))
    case Some(d) =>
      match ReadMechanisms(s, intelligence)
      case Threw(e) => Run([MechList], Some(e))
      case Got(names, s1) =>
        if c.mechanism !in names then Run([MechList], Some(Typed(AfterSend)))
        else Turns(k, d, c, nonce, intelligence, s1)
  }

  // ----- Writing -----

  function AuthBody(mechanism: Blob, r: AuthRequest): Blob {
    match r
    case MechList => []
    case Auth(token) => EncodeBlob(mechanism) + EncodeBlob(token)
  }

  function AuthHeader(id: uint64, version: byte, intelligence: Intelligence, r: AuthRequest): Header {
    Header(id, version, if r.MechList? then AUTH_MECH_LIST_REQUEST else AUTH_REQUEST, [], 0,
           match intelligence case Basic => 1 case TopologyAware => 2 case HashAware => 3,
           0, 0, 0, [])
  }

  datatype Session = Session(version: byte, intelligence: Intelligence, mechanism: Blob, start: uint64)

  function EncodeAuth(g: Session, n: nat, r: AuthRequest): Blob {
    EncodeHeader(AuthHeader((g.start + n) % TWO64, g.version, g.intelligence, r)) + AuthBody(g.mechanism, r)
  }

  function EncodeSession(g: Session, rs: seq<AuthRequest>): Blob {
    if rs == [] then [] else EncodeSession(g, rs[..|rs| - 1]) + EncodeAuth(g, |rs| - 1, rs[|rs| - 1])
  }

  lemma {:induction false} SessionPrefix(g: Session, rs: seq<AuthRequest>, n: nat)
    requires n <= |rs|
    ensures EncodeSession(g, rs[..n]) <= EncodeSession(g, rs)
  {
    hide EncodeAuth;
    if n < |rs| {
      assert rs[..|rs| - 1][..n] == rs[..n];
      SessionPrefix(g, rs[..|rs| - 1], n);
    } else {
      assert rs[..n] == rs;
    }
  }

  lemma SessionStep(g: Session, rs: seq<AuthRequest>, r: AuthRequest)
    ensures EncodeSession(g, rs + [r]) == EncodeSession(g, rs) + EncodeAuth(g, |rs|, r)
  {
    assert (rs + [r])[..|rs|] == rs;
  }

  // ----- The transport and the driver -----

  class ConnectionSaslTransport {
    const conn: Connection
    const version: byte
    const intelligence: Intelligence
    var nextMessageId: uint64

    constructor (conn: Connection, version: byte, intelligence: Intelligence)
      ensures this.conn == conn && this.version == version && this.intelligence == intelligence
      ensures nextMessageId == 0
    {
      this.conn, this.version, this.intelligence := conn, version, intelligence;
      nextMessageId := 0;
    }

    /** A failed send leaves part of the request behind. `o` is what had been written before the
        handshake, `sent` what the handshake has sent. */
    method SendRequest(mechanism: Blob, r: AuthRequest, ghost g: Session, ghost o: Blob, ghost sent: seq<AuthRequest>)
      returns (ok: bool)
      requires g == Session(version, intelligence, mechanism, g.start) && nextMessageId == (g.start + |sent|) % TWO64
      requires Wrote(o, conn.outgoing, g, sent)
      modifies this, conn`outgoing
      ensures nextMessageId == (g.start + |sent| + 1) % TWO64
      ensures PartOf(o, conn.outgoing, g, sent + [r])
      ensures ok ==> Wrote(o, conn.outgoing, g, sent + [r])
    {
      hide EncodeHeader, AuthHeader, EncodeBlob, EncodeSession, PartOf, Wrote;
      var header := AuthHeader(nextMessageId, version, intelligence, r);
      nextMessageId := (nextMessageId + 1) % TWO64;
      var frame := WriteRequestHeader([], header);
      assert frame == EncodeHeader(header);
      if r.Auth? {
        frame := WriteBlob(frame, mechanism);
        frame := WriteBlob(frame, r.token);
      }
      assert frame == EncodeAuth(g, |sent|, r);
      ghost var before := conn.outgoing;
      ok := conn.Send(frame);
      Sending(g, o, before, conn.outgoing, sent, r);
    }

    method ReadResponseHeader() returns (r: Step<byte>)
      requires conn.connected
      modifies conn`incoming
      ensures r == ReadOpcode(old(conn.incoming), intelligence)
      ensures r.Got? ==> conn.incoming == r.rest
    {
      hide ReadHead;
      var ok, h, sane := ReceiveHead(conn, intelligence);
      if !ok {
        return Threw(if sane then Untyped else Typed(AfterSend));
      }
      if h.error.Some? {
        return Threw(Typed(ServerError));
      }
      if h.status != 0 {
        return Threw(Typed(ServerError));
      }
      r := Got(h.opcode, conn.incoming);
    }

    /** The mechanism list; it is read to its end even after ours was found. */
    method ReceiveOffer(mechanism: Blob) returns (r: Step<bool>)
      requires conn.connected
      modifies conn`incoming
      ensures var m := ReadMechanisms(old(conn.incoming), intelligence);
        r == match m { case Threw(e) => Threw(e) case Got(names, rest) => Got(mechanism in names, rest) }
      ensures r.Got? ==> conn.incoming == r.rest
    {
      hide ReadOpcode, ReadVar, ReadBlob;
      var op := ReadResponseHeader();
      if op.Threw? {
        return Threw(op.failure);
      }
      if op.value != AUTH_MECH_LIST_RESPONSE {
        return Threw(Typed(AfterSend));
      }
      var count := conn.ReceiveVar(W32);
      if !count.Ok? {
        return Threw(Untyped);
      }
      var offered := false;
      ghost var s := conn.incoming;
      ghost var names: seq<Blob> := [];
      AfterNothing(ReadNames(s, count.value));
      for i := 0 to count.value
        invariant conn.connected && offered == (mechanism in names)
        invariant ReadNames(s, count.value) == After(names, ReadNames(conn.incoming, count.value - i))
      {
        AfterName(names, conn.incoming, count.value - i);
        var name := conn.ReceiveByteArray();
        if !name.Ok? {
          return Threw(Untyped);
        }
        if name.value == mechanism {
          offered := true;
        }
        names := names + [name.value];
      }
      assert names + [] == names;
      r := Got(offered, conn.incoming);
    }

    method ReceiveAuth() returns (r: Step<Challenge>)
      requires conn.connected
      modifies conn`incoming
      ensures r == ReadAuth(old(conn.incoming), intelligence)
      ensures r.Got? ==> conn.incoming == r.rest
    {
      hide ReadOpcode, ReadBlob;
      var op := ReadResponseHeader();
      if op.Threw? {
        return Threw(op.failure);
      }
      if op.value != AUTH_RESPONSE {
        return Threw(Typed(AfterSend));
      }
      var completed := conn.ReceiveByte();
      if !completed.Ok? {
        return Threw(Untyped);
      }
      var challenge := conn.ReceiveByteArray();
      if !challenge.Ok? {
        return Threw(Untyped);
      }
      r := Got(Challenge(completed.value != 0, challenge.value), conn.incoming);
    }
  }

  ghost function After(names: seq<Blob>, p: Step<seq<Blob>>): Step<seq<Blob>> {
    match p
    case Threw(e) => Threw(e)
    case Got(more, rest) => Got(names + more, rest)
  }

  lemma AfterNothing(p: Step<seq<Blob>>)
    ensures After([], p) == p
  {
    if p.Got? {
      assert [] + p.value == p.value;
    }
  }

  lemma AfterName(names: seq<Blob>, s: Blob, n: nat)
    requires n > 0
    ensures After(names, ReadNames(s, n))
         == match Lift(ReadBlob(s)) { case Threw(e) => Threw(e)
                                      case Got(name, rest) => After(names + [name], ReadNames(rest, n - 1)) }
  {
    hide ReadBlob;
    var b := Lift(ReadBlob(s));
    if b.Got? {
      var p := ReadNames(b.rest, n - 1);
      if p.Got? {
        assert names + ([b.value] + p.value) == names + [b.value] + p.value;
      }
    }
  }

  ghost predicate Wrote(o: Blob, now: Blob, g: Session, rs: seq<AuthRequest>) { now == o + EncodeSession(g, rs) }

  ghost predicate PartOf(o: Blob, now: Blob, g: Session, rs: seq<AuthRequest>) { o <= now <= o + EncodeSession(g, rs) }

  lemma WroteNothing(o: Blob, g: Session)
    ensures Wrote(o, o, g, [])
  {
    assert o + EncodeSession(g, []) == o;
  }

  lemma Sending(g: Session, o: Blob, before: Blob, now: Blob, sent: seq<AuthRequest>, r: AuthRequest)
    requires Wrote(o, before, g, sent) && before <= now <= before + EncodeAuth(g, |sent|, r)
    ensures PartOf(o, now, g, sent + [r])
    ensures now == before + EncodeAuth(g, |sent|, r) ==> Wrote(o, now, g, sent + [r])
  {
    hide EncodeAuth;
    SessionStep(g, sent, r);
    assert before + EncodeAuth(g, |sent|, r) == o + EncodeSession(g, sent + [r]);
  }

  lemma PartOfAll(o: Blob, now: Blob, g: Session, rs: seq<AuthRequest>, n: nat)
    requires n <= |rs|
    requires PartOf(o, now, g, rs[..n]) || Wrote(o, now, g, rs[..n])
    ensures PartOf(o, now, g, rs)
  {
    SessionPrefix(g, rs, n);
  }

  /** authenticate, with the generated nonce as a parameter. If no send fails it ends as Handshake
      says and has sent what Handshake says; otherwise it has sent a part of that. */
  method Authenticate(k: Crypto, c: Credentials, transport: ConnectionSaslTransport, nonce: Blob)
    returns (r: Option<Failure>, unsent: bool)
    requires transport.conn.connected
    modifies transport, transport.conn
    ensures var run := Handshake(k, c, nonce, transport.intelligence, old(transport.conn.incoming));
      var g := Session(transport.version, transport.intelligence, c.mechanism, old(transport.nextMessageId));
      if unsent then r == Some(Typed(AfterSend)) && PartOf(old(transport.conn.outgoing), transport.conn.outgoing, g, run.sent)
      else r == run.end && Wrote(old(transport.conn.outgoing), transport.conn.outgoing, g, run.sent)
  {
    hide ReadMechanisms, DigestForMechanism, Wrote, PartOf, Turns;
    ghost var o := transport.conn.outgoing;
    ghost var run := Handshake(k, c, nonce, transport.intelligence, transport.conn.incoming);
    ghost var g := Session(transport.version, transport.intelligence, c.mechanism, transport.nextMessageId);
    WroteNothing(o, g);
    var digest := DigestForMechanism(c.mechanism);
    if digest.None? {
      return Some(Typed(BeforeSend)), false;
    }
    var ok := transport.SendRequest(c.mechanism, MechList, g, o, []);
    assert [] + [MechList] == [MechList];
    if !ok {
      SentFirst(k, c, nonce, transport.intelligence, old(transport.conn.incoming));
      PartOfAll(o, transport.conn.outgoing, g, run.sent, 1);
      return Some(Typed(AfterSend)), true;
    }
    var offered := transport.ReceiveOffer(c.mechanism);
    if offered.Threw? {
      return Some(offered.failure), false;
    }
    if !offered.value {
      return Some(Typed(AfterSend)), false;
    }
    r, unsent := TakeTurns(k, digest.value, c, transport, nonce, g, o);
  }

  lemma SentFirst(k: Crypto, c: Credentials, nonce: Blob, intelligence: Intelligence, s: Blob)
    requires DigestForMechanism(c.mechanism).Some?
    ensures var sent := Handshake(k, c, nonce, intelligence, s).sent; |sent| >= 1 && sent[..1] == [MechList]
  {
    hide ReadMechanisms, ReadAuth, Answer, Judge, DigestForMechanism, ClientFirst;
  }

  /** From the server-first message to the client-final message. */
  method RespondTo(k: Crypto, d: Digest, c: Credentials, nonce: Blob, first: Challenge) returns (r: Reply)
    ensures r == Answer(k, d, c, nonce, first)
  {
    hide ParseServerFirst, ClientFinal, ClientFirstBare;
    if first.completed {
      return Stop(Typed(ServerError));
    }
    var fields := ParseServerFirstMessage(first.text);
    if fields.None? {
      return Stop(Typed(ServerError));
    }
    if !(nonce <= fields.value.nonce) {
      return Stop(Typed(ServerError));
    }
    var clientFinal := CreateClientFinalMessage(k, d, c.password, ClientFirstBare(c.user, nonce), first.text, fields.value);
    if clientFinal.None? {
      return Stop(Untyped);
    }
    r := Proceed(clientFinal.value, fields.value);
  }

  /** The two SCRAM turns, once the mechanism is known to be offered. */
  method TakeTurns(k: Crypto, d: Digest, c: Credentials, transport: ConnectionSaslTransport, nonce: Blob,
                   ghost g: Session, ghost o: Blob)
    returns (r: Option<Failure>, unsent: bool)
    requires transport.conn.connected
    requires g == Session(transport.version, transport.intelligence, c.mechanism, g.start)
    requires transport.nextMessageId == (g.start + 1) % TWO64 && Wrote(o, transport.conn.outgoing, g, [MechList])
    modifies transport, transport.conn
    ensures var run := Turns(k, d, c, nonce, transport.intelligence, old(transport.conn.incoming));
      if unsent then r == Some(Typed(AfterSend)) && PartOf(o, transport.conn.outgoing, g, run.sent)
      else r == run.end && Wrote(o, transport.conn.outgoing, g, run.sent)
  {
    hide ReadAuth, Wrote, PartOf, Answer, Judge, ClientFirst;
    ghost var run := Turns(k, d, c, nonce, transport.intelligence, transport.conn.incoming);
    var clientFirst := ClientFirst(c.user, nonce);
    ghost var two := [MechList, Auth(clientFirst)];
    var ok := transport.SendRequest(c.mechanism, Auth(clientFirst), g, o, [MechList]);
    assert [MechList] + [Auth(clientFirst)] == two && run.sent[..2] == two;
    if !ok {
      PartOfAll(o, transport.conn.outgoing, g, run.sent, 2);
      return Some(Typed(AfterSend)), true;
    }
    var first := transport.ReceiveAuth();
    if first.Threw? {
      return Some(first.failure), false;
    }
    var answer := RespondTo(k, d, c, nonce, first.value);
    if answer.Stop? {
      return Some(answer.failure), false;
    }
    ok := transport.SendRequest(c.mechanism, Auth(answer.message), g, o, two);
    if !ok {
      return Some(Typed(AfterSend)), true;
    }
    var final := transport.ReceiveAuth();
    if final.Threw? {
      return Some(final.failure), false;
    }
    r, unsent := Judge(k, d, c, nonce, first.value.text, answer.message, answer.fields, final.value.text), false;
  }
}
