/** What the SASL handshake achieves: with an honest server it succeeds, and when it succeeds both
    sides agree on everything that was said. */
module Authentication {
  import opened Bytes
  import opened Codec
  import opened Requests
  import opened Responses
  import opened Sasl
  import opened Scram
  import opened Topologies
  import opened Truncation

  // ----- Messages instead of bytes -----

  /** What a server says in a handshake that gets to its end. */
  datatype Script = Script(names: seq<Blob>, first: Challenge, final: Challenge)

  /** The handshake on the level of messages. */
  function Conversation(k: Crypto, d: Digest, c: Credentials, nonce: Blob, t: Script): Run {
    if c.mechanism !in t.names then Run([MechList], Some(Typed(AfterSend)))
    else
      var sent := [MechList, Auth(ClientFirst(c.user, nonce))];
      match Answer(k, d, c, nonce, t.first)
      case Stop(e) => Run(sent, Some(e))
      case Proceed(m, f) => Run(sent + [Auth(m)], Judge(k, d, c, nonce, t.first.text, m, f, t.final.text))
  }

  function EncodeNames(names: seq<Blob>): Blob {
    if names == [] then [] else EncodeBlob(names[0]) + EncodeNames(names[1..])
  }

  function EncodeMechanisms(f: Frame, intelligence: Intelligence, names: seq<Blob>): Blob {
    EncodeHead(f, intelligence) + EncodeVar(|names|) + EncodeNames(names)
  }

  function EncodeChallenge(f: Frame, intelligence: Intelligence, c: Challenge): Blob {
    EncodeHead(f, intelligence) + [if c.completed then 1 else 0] + EncodeBlob(c.text)
  }

  /** A header without error. It may carry any message ID and any topology update. */
  ghost predicate Carries(f: Frame, intelligence: Intelligence, opcode: byte) {
    HeadFits(f, intelligence) && f.opcode == opcode && f.status == 0
  }

  ghost predicate ScriptFits(t: Script) {
    && |t.names| < TWO32 && (forall i :: 0 <= i < |t.names| ==> |t.names[i]| < TWO32)
    && |t.first.text| < TWO32 && |t.final.text| < TWO32
  }

  lemma ReadWrittenOpcode(f: Frame, intelligence: Intelligence, opcode: byte, rest: Blob)
    requires Carries(f, intelligence, opcode) && opcode != ERROR_RESPONSE
    ensures ExpectOpcode(EncodeHead(f, intelligence) + rest, intelligence, opcode) == Got(opcode, rest)
  {
    hide EncodeHead, ReadHead, HeadFits;
    ReadWrittenHead(f, intelligence, rest);
  }

  lemma {:induction false} ReadWrittenNames(names: seq<Blob>, rest: Blob)
    requires forall i :: 0 <= i < |names| ==> |names[i]| < TWO32
    ensures ReadNames(EncodeNames(names) + rest, |names|) == Got(names, rest)
  {
    hide EncodeBlob, ReadBlob;
    if names == [] {
      assert EncodeNames(names) + rest == rest;
    } else {
      var s := EncodeNames(names[1..]) + rest;
      assert EncodeNames(names) + rest == EncodeBlob(names[0]) + s;
      ReadWrittenBlob(names[0], s);
      ReadWrittenNames(names[1..], rest);
      assert [names[0]] + names[1..] == names;
    }
  }

  lemma ReadWrittenMechanisms(f: Frame, intelligence: Intelligence, names: seq<Blob>, rest: Blob)
    requires Carries(f, intelligence, AUTH_MECH_LIST_RESPONSE)
    requires |names| < TWO32 && forall i :: 0 <= i < |names| ==> |names[i]| < TWO32
    ensures ReadMechanisms(EncodeMechanisms(f, intelligence, names) + rest, intelligence) == Got(names, rest)
  {
    hide EncodeHead, ExpectOpcode, EncodeVar, ReadVar, EncodeNames, ReadNames, HeadFits;
    var s1 := EncodeNames(names) + rest;
    var s := EncodeVar(|names|) + s1;
    assert EncodeMechanisms(f, intelligence, names) + rest == EncodeHead(f, intelligence) + s;
    ReadWrittenOpcode(f, intelligence, AUTH_MECH_LIST_RESPONSE, s);
    ReadWritten(|names|, W32, s1);
    ReadWrittenNames(names, rest);
  }

  lemma ReadWrittenChallenge(f: Frame, intelligence: Intelligence, c: Challenge, rest: Blob)
    requires Carries(f, intelligence, AUTH_RESPONSE) && |c.text| < TWO32
    ensures ReadAuth(EncodeChallenge(f, intelligence, c) + rest, intelligence) == Got(c, rest)
  {
    hide EncodeHead, ExpectOpcode, EncodeBlob, ReadBlob, HeadFits;
    var flag: byte := if c.completed then 1 else 0;
    var s1 := EncodeBlob(c.text) + rest;
    assert EncodeChallenge(f, intelligence, c) + rest == EncodeHead(f, intelligence) + ([flag] + s1);
    ReadWrittenOpcode(f, intelligence, AUTH_RESPONSE, [flag] + s1);
    ReadWrittenByte(flag, s1);
    ReadWrittenBlob(c.text, rest);
  }

  datatype Envelopes = Envelopes(list: Frame, first: Frame, final: Frame)

  ghost predicate EnvelopesFit(e: Envelopes, intelligence: Intelligence) {
    && Carries(e.list, intelligence, AUTH_MECH_LIST_RESPONSE)
    && Carries(e.first, intelligence, AUTH_RESPONSE)
    && Carries(e.final, intelligence, AUTH_RESPONSE)
  }

  function EncodeScript(e: Envelopes, intelligence: Intelligence, t: Script): Blob {
    EncodeMechanisms(e.list, intelligence, t.names) + EncodeChallenge(e.first, intelligence, t.first)
    + EncodeChallenge(e.final, intelligence, t.final)
  }

  /** Whatever the server says, and whatever updates its headers carry, the handshake over the bytes
      is the conversation over the messages. */
  lemma BytesAreMessages(k: Crypto, d: Digest, c: Credentials, nonce: Blob, intelligence: Intelligence,
                         e: Envelopes, t: Script, rest: Blob)
    requires DigestForMechanism(c.mechanism) == Some(d) && EnvelopesFit(e, intelligence) && ScriptFits(t)
    ensures Handshake(k, c, nonce, intelligence, EncodeScript(e, intelligence, t) + rest)
         == Conversation(k, d, c, nonce, t)
  {
    hide EncodeMechanisms, ReadMechanisms, EncodeChallenge, ReadAuth, Answer, Judge, DigestForMechanism, Carries, ClientFirst;
    var s2 := EncodeChallenge(e.final, intelligence, t.final) + rest;
    var s1 := EncodeChallenge(e.first, intelligence, t.first) + s2;
    assert EncodeScript(e, intelligence, t) + rest == EncodeMechanisms(e.list, intelligence, t.names) + s1;
    ReadWrittenMechanisms(e.list, intelligence, t.names, s1);
    ReadWrittenChallenge(e.first, intelligence, t.first, s2);
    ReadWrittenChallenge(e.final, intelligence, t.final, rest);
  }

  // ----- Completeness -----

  /** What an honest server with these accounts says to this client: the answers are computed from
      the client's messages alone. */
  ghost predicate Honest(k: Crypto, d: Digest, accounts: map<Blob, Account>, suffix: Blob,
                         clientFirst: Blob, t: Script, clientFinal: Blob) {
    var hello := ReadClientFirst(clientFirst);
    && |clientFirst| >= 3 && hello.Some? && hello.value.user in accounts
    && var a := accounts[hello.value.user];
    && t.first == Challenge(false, ServerFirst(a, hello.value.nonce, suffix))
    && ServerFinal(k, d, a, clientFirst[3..], t.first.text, hello.value.nonce + suffix, clientFinal) == Some(t.final.text)
  }

  /** The script of the server with the account of this user. */
  function HonestScript(k: Crypto, d: Digest, a: Account, c: Credentials, nonce: Blob, suffix: Blob,
                        names: seq<Blob>, flag: bool): Script {
    var first := ServerFirst(a, nonce, suffix);
    Script(names, Challenge(false, first),
           Challenge(flag, ServerSignature(k, d, a,
             AuthMessage(ClientFirstBare(c.user, nonce), first, WithoutProof(nonce + suffix)))))
  }

  ghost predicate Agreed(k: Crypto, d: Digest, c: Credentials, nonce: Blob, suffix: Blob, a: Account) {
    && Lawful(k) && c.mechanism == MechanismName(d) && Enrolled(k, d, a, c.password)
    && nonce != [] && CommaFree(nonce) && CommaFree(suffix)
  }

  lemma HonestAnswer(k: Crypto, d: Digest, c: Credentials, nonce: Blob, suffix: Blob, a: Account)
    requires Agreed(k, d, c, nonce, suffix, a)
    ensures var first := ServerFirst(a, nonce, suffix);
      var r := Answer(k, d, c, nonce, Challenge(false, first));
      && r.Proceed? && r.fields == Fields(nonce + suffix, a.saltText, a.iterations)
      && ParseServerFirst(first) == Some(r.fields)
      && ClientFinal(k, d, c.password, ClientFirstBare(c.user, nonce), first, r.fields) == Some(r.message)
      && ServerFinal(k, d, a, ClientFirstBare(c.user, nonce), first, nonce + suffix, r.message)
         == Some(ServerSignature(k, d, a, AuthMessage(ClientFirstBare(c.user, nonce), first, WithoutProof(nonce + suffix))))
  {
    hide ParseServerFirst, ClientFinal, ServerFinal, ServerFirst, ClientFirstBare, AuthMessage, WithoutProof, ServerSignature,
      DigestForMechanism, MechanismName;
    HonestServerFirst(a, nonce, suffix);
    ClientAccepted(k, d, a, c.password, ClientFirstBare(c.user, nonce), ServerFirst(a, nonce, suffix), nonce + suffix);
  }

  lemma HonestJudged(k: Crypto, d: Digest, c: Credentials, nonce: Blob, suffix: Blob, a: Account)
    requires Agreed(k, d, c, nonce, suffix, a)
    ensures var first := ServerFirst(a, nonce, suffix);
      var r := Answer(k, d, c, nonce, Challenge(false, first));
      var authMessage := AuthMessage(ClientFirstBare(c.user, nonce), first, WithoutProof(nonce + suffix));
      r.Proceed? && Judge(k, d, c, nonce, first, r.message, r.fields, ServerSignature(k, d, a, authMessage)) == None
  {
    hide Answer, ParseServerFirst, ClientFinal, ServerFinal, ServerFirst, ClientFirstBare, AuthMessage, WithoutProof,
      CutAtProof, Verify, DigestForMechanism;
    HonestAnswer(k, d, c, nonce, suffix, a);
    var first := ServerFirst(a, nonce, suffix);
    var bare := ClientFirstBare(c.user, nonce);
    SignedMessageRecovered(k, d, c.password, bare, first);
    SignatureAccepted(k, d, a, c.password, AuthMessage(bare, first, WithoutProof(nonce + suffix)),
                      Fields(nonce + suffix, a.saltText, a.iterations));
  }

  /** For every digest, user name without comma and equals sign, password, nonce, salt and positive
      iteration count: a server with the same password reads the user name, accepts the proof and
      signs; the client accepts the signature, whatever `completed` flag comes with it. */
  lemma Completeness(k: Crypto, d: Digest, c: Credentials, nonce: Blob, suffix: Blob, accounts: map<Blob, Account>,
                     names: seq<Blob>, flag: bool)
    requires COMMA !in c.user && EQUALS !in c.user && c.mechanism in names
    requires c.user in accounts && Agreed(k, d, c, nonce, suffix, accounts[c.user])
    ensures var t := HonestScript(k, d, accounts[c.user], c, nonce, suffix, names, flag);
      var run := Conversation(k, d, c, nonce, t);
      && run.end == None
      && |run.sent| == 3 && run.sent[0] == MechList && run.sent[1] == Auth(ClientFirst(c.user, nonce)) && run.sent[2].Auth?
      && Honest(k, d, accounts, suffix, run.sent[1].token, t, run.sent[2].token)
  {
    hide Answer, Judge, ServerFinal, ServerFirst, ClientFirstBare, AuthMessage, WithoutProof, ServerSignature,
      DigestForMechanism, ReadClientFirst, Enrolled, ParseServerFirst, ClientFinal;
    UserNameRecoveredIff(c.user, nonce);
    HonestAnswer(k, d, c, nonce, suffix, accounts[c.user]);
    HonestJudged(k, d, c, nonce, suffix, accounts[c.user]);
    assert ClientFirst(c.user, nonce)[3..] == ClientFirstBare(c.user, nonce);
  }

  lemma SignatureFits(k: Crypto, d: Digest, a: Account, authMessage: Blob)
    requires Lawful(k)
    ensures |ServerSignature(k, d, a, authMessage)| < TWO32
  {
    assert |k.hmac(d, a.serverKey, authMessage)| == d.Size();
  }

  /** The same over the bytes, with any topology updates riding on the three responses. */
  lemma CompletenessOnTheWire(k: Crypto, d: Digest, c: Credentials, nonce: Blob, suffix: Blob,
                              accounts: map<Blob, Account>, names: seq<Blob>, flag: bool,
                              intelligence: Intelligence, e: Envelopes, rest: Blob)
    requires COMMA !in c.user && EQUALS !in c.user && c.mechanism in names
    requires c.user in accounts && Agreed(k, d, c, nonce, suffix, accounts[c.user])
    requires EnvelopesFit(e, intelligence) && |ServerFirst(accounts[c.user], nonce, suffix)| < TWO32
    requires |names| < TWO32 && forall i :: 0 <= i < |names| ==> |names[i]| < TWO32
    ensures var t := HonestScript(k, d, accounts[c.user], c, nonce, suffix, names, flag);
      Handshake(k, c, nonce, intelligence, EncodeScript(e, intelligence, t) + rest).end == None
  {
    hide Conversation, ServerFirst, ClientFirstBare, AuthMessage, WithoutProof, ServerSignature, DigestForMechanism,
      Enrolled, EncodeScript, Handshake, EnvelopesFit, Lawful, Honest;
    var a := accounts[c.user];
    Completeness(k, d, c, nonce, suffix, accounts, names, flag);
    SignatureFits(k, d, a, AuthMessage(ClientFirstBare(c.user, nonce), ServerFirst(a, nonce, suffix), WithoutProof(nonce + suffix)));
    MechanismsNamed(c.mechanism, d);
    BytesAreMessages(k, d, c, nonce, intelligence, e, HonestScript(k, d, a, c, nonce, suffix, names, flag), rest);
  }

  // ----- Soundness -----

  /** The signature that the client computes for what it sent and received. */
  function Expected(k: Crypto, d: Digest, c: Credentials, nonce: Blob, first: Blob, f: Fields, salted: Blob): Blob {
    k.hmac(d, ServerKey(k, d, salted), AuthMessage(ClientFirstBare(c.user, nonce), first, WithoutProof(f.nonce)))
  }

  /** What makes the client accept: an offered mechanism, a readable server-first message whose nonce
      extends the client's, and the signature of all that was said. */
  ghost predicate Acceptable(k: Crypto, d: Digest, c: Credentials, nonce: Blob, t: Script) {
    && c.mechanism in t.names && !t.first.completed
    && var f := ParseServerFirst(t.first.text);
    && f.Some? && nonce <= f.value.nonce
    && var salted := SaltedPassword(k, d, c.password, f.value);
    && salted.Some?
    && IsField(t.final.text, 'v')
    && k.decode(t.final.text[2..]) == Some(Expected(k, d, c, nonce, t.first.text, f.value, salted.value))
  }

  lemma AnswerProceedsIff(k: Crypto, d: Digest, c: Credentials, nonce: Blob, first: Challenge)
    requires Lawful(k)
    ensures Answer(k, d, c, nonce, first).Proceed? <==>
      && !first.completed && ParseServerFirst(first.text).Some? && nonce <= ParseServerFirst(first.text).value.nonce
      && SaltedPassword(k, d, c.password, ParseServerFirst(first.text).value).Some?
    ensures var r := Answer(k, d, c, nonce, first);
      r.Proceed? ==> Some(r.fields) == ParseServerFirst(first.text) && CutAtProof(r.message) == WithoutProof(r.fields.nonce)
    ensures var r := Answer(k, d, c, nonce, first);
      r == Stop(Untyped) <==>
        && !first.completed && ParseServerFirst(first.text).Some? && nonce <= ParseServerFirst(first.text).value.nonce
        && SaltedPassword(k, d, c.password, ParseServerFirst(first.text).value).None?
  {
    hide ParseServerFirst, CutAtProof, WithoutProof, AuthMessage, ClientFirstBare, SaltedPassword;
    if Answer(k, d, c, nonce, first).Proceed? {
      SignedMessageRecovered(k, d, c.password, ClientFirstBare(c.user, nonce), first.text);
    }
  }

  /** The handshake succeeds if and only if the server's last message carries the signature of the
      message that the client's own proof was made for. */
  lemma AuthenticatedIff(k: Crypto, d: Digest, c: Credentials, nonce: Blob, t: Script)
    requires Lawful(k)
    ensures Conversation(k, d, c, nonce, t).end == None <==> Acceptable(k, d, c, nonce, t)
  {
    hide Answer, ParseServerFirst, CutAtProof, WithoutProof, AuthMessage, ClientFirstBare, SaltedPassword, Lawful;
    AnswerProceedsIff(k, d, c, nonce, t.first);
  }

  /** The server gets as far as naming a salt and a count, and then the salt is not base64, the key
      derivation refuses the count, or the signature is not base64. */
  ghost predicate CryptoFails(k: Crypto, d: Digest, c: Credentials, nonce: Blob, t: Script) {
    && c.mechanism in t.names && !t.first.completed
    && var f := ParseServerFirst(t.first.text);
    && f.Some? && nonce <= f.value.nonce
    && (SaltedPassword(k, d, c.password, f.value).None?
        || (IsField(t.final.text, 'v') && k.decode(t.final.text[2..]).None?))
  }

  /** In a complete conversation only cryptography fails without a phase. */
  lemma UntypedIff(k: Crypto, d: Digest, c: Credentials, nonce: Blob, t: Script)
    requires Lawful(k)
    ensures Conversation(k, d, c, nonce, t).end == Some(Untyped) <==> CryptoFails(k, d, c, nonce, t)
  {
    hide Answer, ParseServerFirst, CutAtProof, WithoutProof, AuthMessage, ClientFirstBare, SaltedPassword, Lawful;
    AnswerProceedsIff(k, d, c, nonce, t.first);
  }

  /** Both sides saw the same conversation. If the client accepts what a server signed for its own
      view (user, client nonce, server-first message, combined nonce) with the user's server key, and
      the keyed hash does not collide on the two views, the views are equal. */
  lemma SameConversation(k: Crypto, d: Digest, c: Credentials, nonce: Blob, t: Script, a: Account,
                         user: Blob, clientNonce: Blob, first: Blob, combined: Blob)
    requires Lawful(k) && Conversation(k, d, c, nonce, t).end == None
    requires CommaFree(c.user) && CommaFree(nonce) && CommaFree(user) && CommaFree(clientNonce) && CommaFree(combined)
    requires var theirs := AuthMessage(ClientFirstBare(user, clientNonce), first, WithoutProof(combined));
      var f := ParseServerFirst(t.first.text).value;
      var ours := AuthMessage(ClientFirstBare(c.user, nonce), t.first.text, WithoutProof(f.nonce));
      && t.final.text == ServerSignature(k, d, a, theirs)
      && (k.hmac(d, a.serverKey, theirs) == Expected(k, d, c, nonce, t.first.text, f, SaltedPassword(k, d, c.password, f).value)
          ==> theirs == ours)
    ensures user == c.user && clientNonce == nonce && first == t.first.text
    ensures combined == ParseServerFirst(t.first.text).value.nonce
  {
    hide Conversation, ParseServerFirst, AuthMessage, WithoutProof, ClientFirstBare, SaltedPassword, Expected;
    AuthenticatedIff(k, d, c, nonce, t);
    AcceptedNonceCommaFree(t.first.text);
    var f := ParseServerFirst(t.first.text).value;
    var signed := k.hmac(d, a.serverKey, AuthMessage(ClientFirstBare(user, clientNonce), first, WithoutProof(combined)));
    assert ServerSignature(k, d, a, AuthMessage(ClientFirstBare(user, clientNonce), first, WithoutProof(combined)))[2..] == k.encode(signed);
    SignedMessageDetermines(user, clientNonce, first, combined, c.user, nonce, t.first.text, f.nonce);
  }

  // ----- Failures -----

  /** Nothing that is read, computed or compared fails with phase BeforeSend. */
  lemma OpcodeNeverBefore(s: Blob, intelligence: Intelligence, opcode: byte)
    ensures ExpectOpcode(s, intelligence, opcode) != Threw(Typed(BeforeSend))
  {
    hide ReadHead;
  }

  lemma ReadsNeverBefore(s: Blob, intelligence: Intelligence)
    ensures ReadMechanisms(s, intelligence) != Threw(Typed(BeforeSend))
    ensures ReadAuth(s, intelligence) != Threw(Typed(BeforeSend))
  {
    hide ExpectOpcode, ReadVar, ReadBlob, ReadNames;
    OpcodeNeverBefore(s, intelligence, AUTH_MECH_LIST_RESPONSE);
    OpcodeNeverBefore(s, intelligence, AUTH_RESPONSE);
    var op := ExpectOpcode(s, intelligence, AUTH_MECH_LIST_RESPONSE);
    if op.Got? && ReadVar(op.rest, W32).Ok? {
      NamesUntyped(ReadVar(op.rest, W32).rest, ReadVar(op.rest, W32).value);
    }
  }

  lemma TurnsNeverBefore(k: Crypto, d: Digest, c: Credentials, nonce: Blob, intelligence: Intelligence, s: Blob)
    ensures var run := Turns(k, d, c, nonce, intelligence, s);
      run.end != Some(Typed(BeforeSend)) && run.sent != []
  {
    hide ReadAuth, ClientFirst, ParseServerFirst, ClientFinal, Verify, ClientFirstBare, AuthMessage, CutAtProof;
    ReadsNeverBefore(s, intelligence);
    if ReadAuth(s, intelligence).Got? {
      ReadsNeverBefore(ReadAuth(s, intelligence).rest, intelligence);
    }
  }

  /** A failure before anything was sent is a mechanism that is not one of the three, and only that. */
  lemma BeforeSendIff(k: Crypto, c: Credentials, nonce: Blob, intelligence: Intelligence, s: Blob)
    ensures var run := Handshake(k, c, nonce, intelligence, s);
      && (run.sent == [] <==> DigestForMechanism(c.mechanism) == None)
      && (run.end == Some(Typed(BeforeSend)) <==> DigestForMechanism(c.mechanism) == None)
  {
    hide ReadMechanisms, DigestForMechanism, Turns;
    ReadsNeverBefore(s, intelligence);
    var d, names := DigestForMechanism(c.mechanism), ReadMechanisms(s, intelligence);
    if d.Some? && names.Got? {
      TurnsNeverBefore(k, d.value, c, nonce, intelligence, names.rest);
    }
  }

  lemma {:induction false} NamesUntyped(s: Blob, n: nat)
    ensures ReadNames(s, n).Threw? ==> ReadNames(s, n).failure == Untyped
    decreases n
  {
    hide ReadBlob;
    if n > 0 && ReadBlob(s).Ok? {
      NamesUntyped(ReadBlob(s).rest, n - 1);
    }
  }

  // ----- A stream that ends -----

  lemma {:induction false} NamesExtend(s: Blob, n: nat, t: Blob)
    ensures var p := ReadNames(s, n); p.Got? ==> ReadNames(s + t, n) == Got(p.value, p.rest + t)
    decreases n
  {
    hide ReadBlob;
    if n > 0 {
      BlobExtends(s, t);
      if ReadBlob(s).Ok? {
        NamesExtend(ReadBlob(s).rest, n - 1, t);
      }
    }
  }

  lemma OpcodeCut(f: Frame, intelligence: Intelligence, opcode: byte, rest: Blob, n: nat)
    requires HeadFits(f, intelligence) && n < |EncodeHead(f, intelligence)|
    ensures ExpectOpcode((EncodeHead(f, intelligence) + rest)[..n], intelligence, opcode) == Threw(Untyped)
  {
    hide EncodeHead, ReadHead, HeadFits, BadMagic;
    assert (EncodeHead(f, intelligence) + rest)[..n] == EncodeHead(f, intelligence)[..n];
    HeadCut(f, intelligence, n);
  }

  /** The names behind their count, cut off. */
  lemma CountedNamesCut(names: seq<Blob>, n: nat)
    requires |names| < TWO32 && forall i :: 0 <= i < |names| ==> |names[i]| < TWO32
    requires n < |EncodeVar(|names|) + EncodeNames(names)|
    ensures var s := (EncodeVar(|names|) + EncodeNames(names))[..n];
      var count := Lift(ReadVar(s, W32));
      count == Threw(Untyped) || (count.Got? && ReadNames(count.rest, count.value) == Threw(Untyped))
  {
    hide EncodeVar, ReadVar, EncodeNames, ReadNames;
    var whole := EncodeVar(|names|) + EncodeNames(names);
    Cut(whole, n);
    VarExtends(whole[..n], W32, whole[n..]);
    ReadWritten(|names|, W32, EncodeNames(names));
    var count := ReadVar(whole[..n], W32);
    if count.Ok? {
      NamesExtend(count.rest, count.value, whole[n..]);
      ReadWrittenNames(names, []);
      assert EncodeNames(names) + [] == EncodeNames(names);
      NamesUntyped(count.rest, count.value);
    }
  }

  /** How a response header by itself ends the handshake: an error or a status, or another opcode. */
  function HeadFailure(f: Frame, opcode: byte): Option<Failure> {
    if f.opcode == ERROR_RESPONSE || f.status != 0 then Some(Typed(ServerError))
    else if f.opcode != opcode then Some(Typed(AfterSend))
    else None
  }

  lemma HeadJudged(f: Frame, intelligence: Intelligence, opcode: byte, rest: Blob)
    requires HeadFits(f, intelligence)
    ensures ExpectOpcode(EncodeHead(f, intelligence) + rest, intelligence, opcode)
         == match HeadFailure(f, opcode) { case Some(e) => Threw(e) case None => Got(opcode, rest) }
  {
    hide EncodeHead, ReadHead, HeadFits;
    ReadWrittenHead(f, intelligence, rest);
  }

  /** How much of a message is read: only its header, if that ends the handshake. */
  function ListNeeds(f: Frame, intelligence: Intelligence, names: seq<Blob>): nat {
    if HeadFailure(f, AUTH_MECH_LIST_RESPONSE).Some? then |EncodeHead(f, intelligence)|
    else |EncodeMechanisms(f, intelligence, names)|
  }

  function ChallengeNeeds(f: Frame, intelligence: Intelligence, c: Challenge): nat {
    if HeadFailure(f, AUTH_RESPONSE).Some? then |EncodeHead(f, intelligence)| else |EncodeChallenge(f, intelligence, c)|
  }

  /** Any response to the first request, with anything behind it, cut anywhere. */
  lemma ListCut(f: Frame, intelligence: Intelligence, names: seq<Blob>, z: Blob, n: nat)
    requires HeadFits(f, intelligence)
    requires |names| < TWO32 && forall i :: 0 <= i < |names| ==> |names[i]| < TWO32
    requires n <= |EncodeMechanisms(f, intelligence, names) + z|
    ensures var whole := EncodeMechanisms(f, intelligence, names);
      var r := ReadMechanisms((whole + z)[..n], intelligence);
      if n < ListNeeds(f, intelligence, names) then r == Threw(Untyped)
      else match HeadFailure(f, AUTH_MECH_LIST_RESPONSE)
        case Some(e) => r == Threw(e)
        case None => n >= |whole| && r == Got(names, z[..n - |whole|])
  {
    hide EncodeHead, ExpectOpcode, EncodeVar, ReadVar, EncodeNames, ReadNames, HeadFits;
    var head, body := EncodeHead(f, intelligence), EncodeVar(|names|) + EncodeNames(names);
    var whole := EncodeMechanisms(f, intelligence, names);
    assert whole == head + body && whole + z == head + (body + z);
    if n < |head| {
      OpcodeCut(f, intelligence, AUTH_MECH_LIST_RESPONSE, body + z, n);
    } else {
      var m := n - |head|;
      assert (head + (body + z))[..n] == head + (body + z)[..m];
      HeadJudged(f, intelligence, AUTH_MECH_LIST_RESPONSE, (body + z)[..m]);
      if m < |body| {
        assert (body + z)[..m] == body[..m];
        CountedNamesCut(names, m);
      } else {
        assert (body + z)[..m] == EncodeVar(|names|) + (EncodeNames(names) + z[..m - |body|]);
        ReadWritten(|names|, W32, EncodeNames(names) + z[..m - |body|]);
        ReadWrittenNames(names, z[..m - |body|]);
      }
    }
  }

  /** The same for the other two. */
  lemma ChallengeCut(f: Frame, intelligence: Intelligence, c: Challenge, z: Blob, n: nat)
    requires HeadFits(f, intelligence) && |c.text| < TWO32
    requires n <= |EncodeChallenge(f, intelligence, c) + z|
    ensures var whole := EncodeChallenge(f, intelligence, c);
      var r := ReadAuth((whole + z)[..n], intelligence);
      if n < ChallengeNeeds(f, intelligence, c) then r == Threw(Untyped)
      else match HeadFailure(f, AUTH_RESPONSE)
        case Some(e) => r == Threw(e)
        case None => n >= |whole| && r == Got(c, z[..n - |whole|])
  {
    hide EncodeHead, ExpectOpcode, EncodeBlob, ReadBlob, HeadFits;
    var flag: byte := if c.completed then 1 else 0;
    var head, text := EncodeHead(f, intelligence), EncodeBlob(c.text);
    var body := [flag] + text;
    var whole := EncodeChallenge(f, intelligence, c);
    assert whole == head + body && whole + z == head + (body + z);
    if n < |head| {
      OpcodeCut(f, intelligence, AUTH_RESPONSE, body + z, n);
    } else {
      var m := n - |head|;
      assert (head + (body + z))[..n] == head + (body + z)[..m];
      HeadJudged(f, intelligence, AUTH_RESPONSE, (body + z)[..m]);
      if 0 < m < |body| {
        assert (body + z)[..m] == [flag] + text[..m - 1];
        ReadWrittenByte(flag, text[..m - 1]);
        BlobCut(c.text, m - 1);
      } else if m >= |body| {
        var rest := z[..m - |body|];
        assert (body + z)[..m] == [flag] + (text + rest);
        ReadWrittenByte(flag, text + rest);
        ReadWrittenBlob(c.text, rest);
      }
    }
  }

  // ----- Any three responses -----

  ghost predicate HeadsFit(e: Envelopes, intelligence: Intelligence) {
    HeadFits(e.list, intelligence) && HeadFits(e.first, intelligence) && HeadFits(e.final, intelligence)
  }

  /** The handshake on the level of messages, if any of the responses may be an error, carry a status or
      have another opcode. */
  function Dialogue(k: Crypto, d: Digest, c: Credentials, nonce: Blob, e: Envelopes, t: Script): Run {
    var sent := [MechList, Auth(ClientFirst(c.user, nonce))];
    var list, first, final :=
      HeadFailure(e.list, AUTH_MECH_LIST_RESPONSE), HeadFailure(e.first, AUTH_RESPONSE), HeadFailure(e.final, AUTH_RESPONSE);
    if list.Some? then Run([MechList], list)
    else if c.mechanism !in t.names then Run([MechList], Some(Typed(AfterSend)))
    else if first.Some? then Run(sent, first)
    else
      match Answer(k, d, c, nonce, t.first)
      case Stop(x) => Run(sent, Some(x))
      case Proceed(m, f) =>
        Run(sent + [Auth(m)], if final.Some? then final else Judge(k, d, c, nonce, t.first.text, m, f, t.final.text))
  }

  /** Without such responses it is the conversation. */
  lemma DialogueIsConversation(k: Crypto, d: Digest, c: Credentials, nonce: Blob, intelligence: Intelligence, e: Envelopes, t: Script)
    requires EnvelopesFit(e, intelligence)
    ensures HeadsFit(e, intelligence) && Dialogue(k, d, c, nonce, e, t) == Conversation(k, d, c, nonce, t)
  {
    hide Answer, Judge, HeadFits, ClientFirst;
  }

  /** How many bytes of the responses the handshake reads. */
  function Needed(k: Crypto, d: Digest, c: Credentials, nonce: Blob, intelligence: Intelligence, e: Envelopes, t: Script): nat {
    var list := ListNeeds(e.list, intelligence, t.names);
    var first := ChallengeNeeds(e.first, intelligence, t.first);
    if HeadFailure(e.list, AUTH_MECH_LIST_RESPONSE).Some? || c.mechanism !in t.names then list
    else if HeadFailure(e.first, AUTH_RESPONSE).Some? || Answer(k, d, c, nonce, t.first).Stop? then list + first
    else list + first + ChallengeNeeds(e.final, intelligence, t.final)
  }

  /** Whatever the server answers, and wherever the stream ends: if the cut falls inside what the
      handshake still had to read, the failure is untyped; if not, the cut changes nothing. */
  lemma CutStream(k: Crypto, d: Digest, c: Credentials, nonce: Blob, intelligence: Intelligence,
                  e: Envelopes, t: Script, n: nat)
    requires DigestForMechanism(c.mechanism) == Some(d) && HeadsFit(e, intelligence) && ScriptFits(t)
    requires n <= |EncodeScript(e, intelligence, t)|
    ensures var run := Handshake(k, c, nonce, intelligence, EncodeScript(e, intelligence, t)[..n]);
      if n < Needed(k, d, c, nonce, intelligence, e, t)
      then run.end == Some(Untyped) && run.sent <= Dialogue(k, d, c, nonce, e, t).sent
      else run == Dialogue(k, d, c, nonce, e, t)
  {
    hide EncodeMechanisms, ReadMechanisms, EncodeChallenge, ReadAuth, Answer, Judge, DigestForMechanism, HeadFits, ClientFirst,
      HeadFailure, ListNeeds, ChallengeNeeds;
    var a := EncodeMechanisms(e.list, intelligence, t.names);
    var b := EncodeChallenge(e.first, intelligence, t.first);
    var z := EncodeChallenge(e.final, intelligence, t.final);
    assert EncodeScript(e, intelligence, t) == a + (b + z) && z + [] == z;
    ListCut(e.list, intelligence, t.names, b + z, n);
    NeedsNoMore(e, intelligence, t);
    if n >= |a| {
      ChallengeCut(e.first, intelligence, t.first, z, n - |a|);
      if n >= |a| + |b| {
        assert (z + [])[..n - |a| - |b|] == z[..n - |a| - |b|];
        ChallengeCut(e.final, intelligence, t.final, [], n - |a| - |b|);
      }
    }
  }

  lemma NeedsNoMore(e: Envelopes, intelligence: Intelligence, t: Script)
    ensures ListNeeds(e.list, intelligence, t.names) <= |EncodeMechanisms(e.list, intelligence, t.names)|
    ensures ChallengeNeeds(e.first, intelligence, t.first) <= |EncodeChallenge(e.first, intelligence, t.first)|
    ensures ChallengeNeeds(e.final, intelligence, t.final) <= |EncodeChallenge(e.final, intelligence, t.final)|
    ensures HeadFailure(e.list, AUTH_MECH_LIST_RESPONSE).None? ==>
      ListNeeds(e.list, intelligence, t.names) == |EncodeMechanisms(e.list, intelligence, t.names)|
    ensures HeadFailure(e.first, AUTH_RESPONSE).None? ==>
      ChallengeNeeds(e.first, intelligence, t.first) == |EncodeChallenge(e.first, intelligence, t.first)|
  {
    hide EncodeHead, EncodeVar, EncodeNames, EncodeBlob;
  }

  /** The server gets as far as naming a salt and a count, and then the salt is not base64, the key
      derivation refuses the count, or the server's last response succeeds and its signature is not
      base64. */
  ghost predicate CryptoFailsIn(k: Crypto, d: Digest, c: Credentials, nonce: Blob, e: Envelopes, t: Script) {
    && HeadFailure(e.list, AUTH_MECH_LIST_RESPONSE).None? && c.mechanism in t.names
    && HeadFailure(e.first, AUTH_RESPONSE).None? && !t.first.completed
    && var f := ParseServerFirst(t.first.text);
    && f.Some? && nonce <= f.value.nonce
    && (SaltedPassword(k, d, c.password, f.value).None?
        || (HeadFailure(e.final, AUTH_RESPONSE).None? && IsField(t.final.text, 'v') && k.decode(t.final.text[2..]).None?))
  }

  lemma DialogueUntypedIff(k: Crypto, d: Digest, c: Credentials, nonce: Blob, e: Envelopes, t: Script)
    requires Lawful(k)
    ensures Dialogue(k, d, c, nonce, e, t).end == Some(Untyped) <==> CryptoFailsIn(k, d, c, nonce, e, t)
  {
    hide Answer, ParseServerFirst, CutAtProof, WithoutProof, AuthMessage, ClientFirstBare, SaltedPassword, Lawful, ClientFirst;
    AnswerProceedsIff(k, d, c, nonce, t.first);
  }

  /** A response that is no error but has another opcode, and one that goes through. */
  predicate WrongOpcode(f: Frame, opcode: byte) { f.opcode != 0x50 && f.status == 0 && f.opcode != opcode }

  predicate GoesThrough(f: Frame, opcode: byte) { f.status == 0 && f.opcode == opcode }

  /** The phase AfterSend means exactly this: a response with an unexpected opcode to a request that was
      made, or a mechanism that is not offered. */
  lemma AfterSendIff(k: Crypto, d: Digest, c: Credentials, nonce: Blob, e: Envelopes, t: Script)
    requires Lawful(k)
    ensures Dialogue(k, d, c, nonce, e, t).end == Some(Typed(AfterSend)) <==>
      || WrongOpcode(e.list, 0x22)
      || (GoesThrough(e.list, 0x22)
          && (|| c.mechanism !in t.names
              || WrongOpcode(e.first, 0x24)
              || (GoesThrough(e.first, 0x24) && WrongOpcode(e.final, 0x24) && Answer(k, d, c, nonce, t.first).Proceed?)))
  {
    hide ParseServerFirst, ClientFinal, Verify, CutAtProof, AuthMessage, ClientFirstBare, ClientFirst, Lawful;
  }

  /** Exactly when the promise that every failure is typed is broken, for any three responses and every
      place at which the stream may end: it ends too early, or cryptography fails. */
  lemma UntypedOnTheWireIff(k: Crypto, d: Digest, c: Credentials, nonce: Blob, intelligence: Intelligence,
                            e: Envelopes, t: Script, n: nat)
    requires Lawful(k) && DigestForMechanism(c.mechanism) == Some(d) && HeadsFit(e, intelligence) && ScriptFits(t)
    requires n <= |EncodeScript(e, intelligence, t)|
    ensures Handshake(k, c, nonce, intelligence, EncodeScript(e, intelligence, t)[..n]).end == Some(Untyped) <==>
      n < Needed(k, d, c, nonce, intelligence, e, t) || CryptoFailsIn(k, d, c, nonce, e, t)
  {
    hide Handshake, Dialogue, Needed, EncodeScript, HeadsFit, DigestForMechanism, Lawful, CryptoFailsIn;
    CutStream(k, d, c, nonce, intelligence, e, t, n);
    DialogueUntypedIff(k, d, c, nonce, e, t);
  }

  // ----- What a server reads -----

  datatype Received = Received(header: Header, mechanism: Blob, token: Blob)

  function ReadAuthRequest(s: Blob): Parse<Received> {
    var (h, s1) :- ReadHeader(s);
    if h.opcode == AUTH_MECH_LIST_REQUEST then Ok(Received(h, [], []), s1)
    else
      var (mechanism, s2) :- ReadBlob(s1);
      var (token, s3) :- ReadBlob(s2);
      Ok(Received(h, mechanism, token), s3)
  }

  /** Each request of a session is read back whole: its ID, its opcode, the mechanism and the token; it
      belongs to no cache, has no flags and claims no topology. */
  lemma ReadWrittenAuth(g: Session, n: nat, r: AuthRequest, rest: Blob)
    requires |g.mechanism| < TWO32 && (r.Auth? ==> |r.token| < TWO32)
    ensures var p := ReadAuthRequest(EncodeAuth(g, n, r) + rest);
      && p.Ok? && p.rest == rest
      && p.value.mechanism == (if r.Auth? then g.mechanism else []) && p.value.token == (if r.Auth? then r.token else [])
      && p.value.header == Header((g.start + n) % TWO64, g.version, if r.MechList? then 0x21 else 0x23, [], 0,
                                  if g.intelligence == Basic then 1 else if g.intelligence == TopologyAware then 2 else 3,
                                  0, 0, 0, [])
  {
    hide EncodeHeader, ReadHeader, EncodeBlob, ReadBlob;
    var h := AuthHeader((g.start + n) % TWO64, g.version, g.intelligence, r);
    if r.Auth? {
      var s2 := EncodeBlob(r.token) + rest;
      var s1 := EncodeBlob(g.mechanism) + s2;
      assert EncodeAuth(g, n, r) + rest == EncodeHeader(h) + s1;
      ReadWrittenHeader(h, s1);
      ReadWrittenBlob(g.mechanism, s2);
      ReadWrittenBlob(r.token, rest);
    } else {
      assert EncodeAuth(g, n, r) + rest == EncodeHeader(h) + rest;
      ReadWrittenHeader(h, rest);
    }
  }
}
