/** Where the stream loses its alignment: responses whose body the read loop does not read. */
module Misalignment {
  import opened Alignment
  import opened Bytes
  import opened Codec
  import opened Delivery
  import opened Multiplexing
  import opened Requests
  import opened Responses

  // ----- One frame -----

  /** The loop reads no body: the response is an error, nobody waits for it, its opcode is not the
      expected one, or its parser returns or throws without reading. */
  ghost predicate Skips(g: Config, pending: map<uint64, Pending>, f: Frame) {
    || f.opcode == ERROR_RESPONSE
    || f.id !in pending
    || f.opcode != ReplyOpcode(pending[f.id].command)
    || (!EntryDue(pending[f.id].command, f.status, g.version) && !ValueDue(pending[f.id].command, f.status, g.version))
  }

  lemma SkippedReply(b: Body, rest: Blob)
    ensures EncodeReply(b) + rest == rest <==> b == NoBody
  {
    if b == NoBody {
      NoReplyBytes(rest);
    } else {
      assert |EncodeReply(b)| > 0;
      assert |EncodeReply(b) + rest| > |rest|;
    }
  }

  /** A response nobody waits for is dropped with its body unread: the loop goes on at the next
      frame exactly if there was no body. (The text of an error has been read by then.) */
  lemma OrphanKeepsAlignmentIff(g: Config, s: State, f: Frame, rest: Blob)
    requires s.reader == GotHead(HeadOf(f, g.intelligence)) && f.id !in s.ledger.pending
    requires s.link.stream == EncodeReply(f.body) + rest
    ensures Apply(g, s, Claim).link.stream == rest <==> f.body == NoBody
    ensures Apply(g, s, Claim).reader.AtGuard? && Apply(g, s, Claim).link.stream == s.link.stream
  {
    hide EncodeReply;
    SkippedReply(f.body, rest);
  }

  /** So it is with a response to a waiting request whose opcode is not the expected one, or whose
      status its parser refuses. */
  lemma SkippedKeepsAlignmentIff(g: Config, s: State, f: Frame, rest: Blob)
    requires s.reader.Claimed? && s.reader.head == HeadOf(f, g.intelligence) && f.id in s.ledger.promises
    requires Skips(g, map[f.id := s.reader.request], f) && !s.link.broken
    requires s.link.stream == EncodeReply(f.body) + rest
    ensures Enabled(g, s, Deliver)
    ensures Apply(g, s, Deliver).link.stream == rest <==> f.body == NoBody
    ensures Apply(g, s, Deliver).reader.AtGuard? && Apply(g, s, Deliver).link.stream == s.link.stream
  {
    hide EncodeReply, ParseBody, EntryDue, ValueDue, ResponseOpcode, ReplyOpcode;
    SkippedReply(f.body, rest);
    OpcodesMeet(s.reader.request.command);
    if ReadsBody(s.reader.head, s.reader.request) {
      NothingIsRead(s.reader.request.command, f.status, g.version, s.link.stream);
    }
  }

  /** What happens when a frame arrives that is the only thing on the stream. */
  ghost function Iteration(g: Config, s: State, f: Frame): seq<Event> {
    [Emit(f), Guard, ReadHeader, Claim] + (if f.id in s.ledger.pending then [Deliver] else [])
  }

  lemma FrameArrives(g: Config, s: State, f: Frame) returns (states: seq<State>)
    requires Idle(g, s) && s.link.unread == [] && HeadFits(f, g.intelligence)
    ensures |states| == 4 && IsRun(g, s, [Emit(f), Guard, ReadHeader], states)
    ensures var t := states[3];
      && t.reader == GotHead(HeadOf(f, g.intelligence)) && t.ledger == s.ledger && !t.link.broken
      && t.link.stream == EncodeReply(f.body) + [] && t.link.unread == []
  {
    hide EncodeFrame, ReadHead, EncodeReply, HeadOf, Aligned, Consistent;
    NothingLeft(g, s);
    var a := Apply(g, s, Emit(f));
    assert a.link.stream == EncodeFrame(f, g.intelligence) + [];
    var b := AtGuardGoesOn(g, a);
    FrameSplits(f, [], g.intelligence);
    var c := Apply(g, b, ReadHeader);
    states := [s, a, b, c];
  }

  /** After every clean run that has read all there is: the server sends one frame of which the loop
      does not read the body. Once the loop has dealt with it, it stands at the start of the next
      frame if and only if the frame had no body. */
  lemma UnreadBodyIff(g: Config, s: State, f: Frame) returns (states: seq<State>)
    requires Idle(g, s) && s.link.unread == [] && HeadFits(f, g.intelligence) && Skips(g, s.ledger.pending, f)
    ensures |states| == |Iteration(g, s, f)| + 1 && IsRun(g, s, Iteration(g, s, f), states)
    ensures var t := states[|Iteration(g, s, f)|];
      && t.reader.AtGuard? && t.link.unread == [] && t.link.stream == EncodeReply(f.body)
      && (Positioned(g, t) <==> f.body == NoBody)
  {
    hide EncodeFrame, EncodeReply, HeadOf, Skips, Idle, IsRun, Enabled, Apply;
    var arrived := FrameArrives(g, s, f);
    var head := [Emit(f), Guard, ReadHeader];
    HeadKeepsId(f, g);
    assert EncodeReply(f.body) + [] == EncodeReply(f.body);
    if f.id in s.ledger.pending {
      PendingHasPromise(g, s, f.id);
      var rest := ClaimedAndSkipped(g, arrived[3], f);
      RunsJoin(g, s, head, arrived, [Claim, Deliver], rest);
      assert Iteration(g, s, f) == head + [Claim, Deliver];
      states := arrived[..3] + rest;
      AtNextFrame(g, rest[2]);
    } else {
      var rest := Orphaned(g, arrived[3], f);
      RunsJoin(g, s, head, arrived, [Claim], rest);
      assert Iteration(g, s, f) == head + [Claim];
      states := arrived[..3] + rest;
      AtNextFrame(g, rest[1]);
    }
  }

  lemma Orphaned(g: Config, s: State, f: Frame) returns (states: seq<State>)
    requires s.reader == GotHead(HeadOf(f, g.intelligence)) && f.id !in s.ledger.pending
    requires s.link.stream == EncodeReply(f.body) + []
    ensures |states| == 2 && IsRun(g, s, [Claim], states)
    ensures states[1] == Apply(g, s, Claim)
    ensures var t := states[1];
      && t.reader.AtGuard? && t.link.current.None? && t.link.unread == s.link.unread
      && t.link.stream == EncodeReply(f.body) + [] && (t.link.stream == [] <==> f.body == NoBody)
  {
    hide EncodeReply, HeadOf, IsRun;
    HeadKeepsId(f, g);
    OrphanKeepsAlignmentIff(g, s, f, []);
    OneStep(g, s, Claim);
    states := [s, Apply(g, s, Claim)];
  }

  lemma ClaimedAndSkipped(g: Config, s: State, f: Frame) returns (states: seq<State>)
    requires s.reader == GotHead(HeadOf(f, g.intelligence)) && f.id in s.ledger.pending && f.id in s.ledger.promises
    requires s.link.stream == EncodeReply(f.body) + [] && !s.link.broken && Skips(g, s.ledger.pending, f)
    ensures |states| == 3 && IsRun(g, s, [Claim, Deliver], states)
    ensures var t := states[2];
      && t.reader.AtGuard? && t.link.current.None? && t.link.unread == s.link.unread
      && t.link.stream == EncodeReply(f.body) + [] && (t.link.stream == [] <==> f.body == NoBody)
  {
    hide EncodeReply, HeadOf, Skips, Conclusion;
    HeadKeepsId(f, g);
    SkipsAlone(g, s.ledger.pending, f);
    var u := Apply(g, s, Claim);
    SkippedKeepsAlignmentIff(g, u, f, []);
    states := [s, u, Apply(g, u, Deliver)];
  }

  lemma AtNextFrame(g: Config, s: State)
    requires s.reader.AtGuard? && s.link.unread == [] && s.link.current.None?
    ensures Positioned(g, s) <==> s.link.stream == []
  {
  }

  lemma HeadKeepsId(f: Frame, g: Config)
    ensures HeadOf(f, g.intelligence).id == f.id
  {
  }

  lemma SkipsAlone(g: Config, pending: map<uint64, Pending>, f: Frame)
    requires Skips(g, pending, f) && f.id in pending
    ensures Skips(g, map[f.id := pending[f.id]], f)
  {
  }

  lemma PendingHasPromise(g: Config, s: State, id: uint64)
    requires Idle(g, s) && id in s.ledger.pending
    ensures id in s.ledger.promises
  {
  }

  // ----- A foreign answer -----

  /** An answer with ID 0 that comes after request 0 has been withdrawn. */
  function Late(v: Blob): Frame { Frame(0, 0x04, 0, 0, None, [], ValueBody(v)) }

  /** What the loop makes of the body of that answer. */
  function Phantom(w: Blob): Frame { Frame(1, 0x04, 0, 0, None, [], ValueBody(w)) }

  /** A value of 161 bytes, whose length prefix is a magic byte and message ID 1. */
  function Disguise(w: Blob, pad: Blob): Blob { [0x04, 0, 0] + EncodeBlob(w) + pad }

  lemma PhantomHead(w: Blob, g: Config)
    ensures EncodeHead(Phantom(w), g.intelligence) == [0xA1, 0x01, 0x04, 0, 0]
  {
    assert EncodeVar(1) == [1];
  }

  /** The body of one answer is, byte for byte, the whole of another. */
  lemma TwoReadings(g: Config, w: Blob, pad: Blob)
    requires |Disguise(w, pad)| == 161
    ensures EncodeReply(ValueBody(Disguise(w, pad))) == EncodeFrame(Phantom(w), g.intelligence) + pad
  {
    hide EncodeBlob, EncodeHead;
    PhantomHead(w, g);
    var v := Disguise(w, pad);
    LengthPrefix(v);
    assert [0xA1, 0x01] + v == [0xA1, 0x01, 0x04, 0, 0] + EncodeBlob(w) + pad;
  }

  lemma LengthPrefix(v: Blob)
    requires |v| == 161
    ensures EncodeBlob(v) == [0xA1, 0x01] + v
  {
    assert EncodeVar(1) == [1];
    assert EncodeVar(161) == [161] + EncodeVar(1);
  }

  lemma HeadsFit(g: Config, v: Blob)
    ensures HeadFits(Late(v), g.intelligence) && HeadFits(Phantom(v), g.intelligence)
  {
  }

  /** The read loop on the late answer: an orphan, then a header out of its body. */
  lemma LoopIsFooled(g: Config, s: State, w: Blob, pad: Blob) returns (states: seq<State>)
    requires s.reader.AtGuard? && s.connected && !s.stopReadLoop && !s.link.broken
    requires |Disguise(w, pad)| == 161 && s.link.stream == EncodeFrame(Late(Disguise(w, pad)), g.intelligence)
    requires 0 !in s.ledger.pending && 1 in s.ledger.pending && s.ledger.pending[1].command.Get?
    requires 1 in s.ledger.promises
    ensures |states| == 8 && IsRun(g, s, [Guard, ReadHeader, Claim, Guard, ReadHeader, Claim, Deliver], states)
    ensures var t := states[7];
      && t.link.answers == s.link.answers && t.ledger.registered == s.ledger.registered
      && 1 in t.ledger.promises
      && t.ledger.promises[1] == s.ledger.promises[1] + [OutcomeOf(g, s.ledger.pending[1], Phantom(w))]
  {
    hide EncodeFrame, EncodeReply, HeadOf, Disguise, OutcomeOf, Enabled, Apply, IsRun;
    var v := Disguise(w, pad);
    HeadsFit(g, v);
    HeadsFit(g, w);
    HeadKeepsId(Late(v), g);
    HeadKeepsId(Phantom(w), g);
    assert s.link.stream == EncodeFrame(Late(v), g.intelligence) + [];
    var dropped := HeadIsRead(g, s, Late(v), []);
    var orphan := Orphaned(g, dropped[2], Late(v));
    var c := orphan[1];
    assert c.link.stream == EncodeReply(ValueBody(v)) + [] == EncodeReply(ValueBody(v));
    OrphanChangesNothing(g, dropped[2], Late(v));
    TwoReadings(g, w, pad);
    var taken := HeadIsRead(g, c, Phantom(w), pad);
    var settled := PhantomSettled(g, taken[2], w, pad);
    RunsJoin(g, s, [Guard, ReadHeader], dropped, [Claim], orphan);
    var e, r := [Guard, ReadHeader] + [Claim], dropped[..2] + orphan;
    RunsJoin(g, s, e, r, [Guard, ReadHeader], taken);
    e, r := e + [Guard, ReadHeader], r[..3] + taken;
    RunsJoin(g, s, e, r, [Claim, Deliver], settled);
    e, r := e + [Claim, Deliver], r[..5] + settled;
    assert e == [Guard, ReadHeader, Claim, Guard, ReadHeader, Claim, Deliver];
    states := r;
  }

  lemma HeadIsRead(g: Config, s: State, f: Frame, rest: Blob) returns (states: seq<State>)
    requires s.reader.AtGuard? && s.connected && !s.stopReadLoop && !s.link.broken
    requires HeadFits(f, g.intelligence) && s.link.stream == EncodeFrame(f, g.intelligence) + rest
    ensures |states| == 3 && IsRun(g, s, [Guard, ReadHeader], states)
    ensures var t := states[2];
      && t.reader == GotHead(HeadOf(f, g.intelligence)) && t.link.stream == EncodeReply(f.body) + rest
      && t.ledger == s.ledger && t.connected && !t.stopReadLoop && !t.link.broken
      && t.link.answers == s.link.answers
  {
    hide EncodeFrame, EncodeReply, ReadHead, HeadOf;
    var a := AtGuardGoesOn(g, s);
    FrameSplits(f, rest, g.intelligence);
    states := [s, a, Apply(g, a, ReadHeader)];
  }

  lemma OrphanChangesNothing(g: Config, s: State, f: Frame)
    requires s.reader == GotHead(HeadOf(f, g.intelligence)) && f.id !in s.ledger.pending
    ensures var t := Apply(g, s, Claim);
      && t.ledger == s.ledger && t.connected == s.connected && t.stopReadLoop == s.stopReadLoop
      && t.link.broken == s.link.broken && t.link.answers == s.link.answers
  {
  }

  lemma PhantomSettled(g: Config, s: State, w: Blob, pad: Blob) returns (states: seq<State>)
    requires s.reader == GotHead(HeadOf(Phantom(w), g.intelligence)) && !s.link.broken
    requires s.link.stream == EncodeReply(ValueBody(w)) + pad && |Disguise(w, pad)| == 161
    requires 1 in s.ledger.pending && s.ledger.pending[1].command.Get? && 1 in s.ledger.promises
    ensures |states| == 3 && IsRun(g, s, [Claim, Deliver], states)
    ensures var t := states[2];
      && t.link.answers == s.link.answers && t.ledger.registered == s.ledger.registered
      && 1 in t.ledger.promises
      && t.ledger.promises[1] == s.ledger.promises[1] + [OutcomeOf(g, s.ledger.pending[1], Phantom(w))]
  {
    hide EncodeReply, HeadOf, Disguise, Conclusion, OutcomeOf;
    HeadKeepsId(Phantom(w), g);
    PhantomConcluded(g, s.ledger.pending[1], w, pad);
    var u := Apply(g, s, Claim);
    states := [s, u, Apply(g, u, Deliver)];
  }

  lemma PhantomConcluded(g: Config, p: Pending, w: Blob, pad: Blob)
    requires p.command.Get? && |Disguise(w, pad)| == 161
    ensures Conclusion(g, HeadOf(Phantom(w), g.intelligence), p, EncodeReply(ValueBody(w)) + pad)
         == Some((OutcomeOf(g, p, Phantom(w)), pad))
  {
    hide EncodeReply, ParseBody;
    assert |w| < TWO32;
    ParseWrittenBody(p.command, 0, g.version, ValueBody(w), pad);
  }

  // ----- Reaching it -----

  /** All of request 0 but its last byte. */
  function Torn(g: Config, k0: Blob): Blob {
    var bytes := EncodeRequest(BuildRequest(g, 0, Pending(0, Get(k0), [], 0), 0));
    if bytes == [] then [] else bytes[..|bytes| - 1]
  }

  /** Request 0 has been written up to its last byte and withdrawn, and nothing else has happened. */
  ghost predicate FirstWithdrawn(g: Config, s: State, k0: Blob) {
    var p := Pending(0, Get(k0), [], 0);
    && s == START.(roster := s.roster, ledger := s.ledger, link := START.link.(wire := s.link.wire, log := s.link.log))
    && s.roster.calls.Keys == {0} && s.roster.issued == 1
    && s.ledger.pending == map[] && s.ledger.registered == map[0 := p] && s.ledger.promises == map[0 := []]
    && s.link.wire == Torn(g, k0)
  }

  predicate FromServer(e: Event) { e.Answer? || e.Emit? || e.Noise? }

  lemma WithdrawFirst(g: Config, k0: Blob) returns (events: seq<Event>, states: seq<State>)
    ensures |states| == |events| + 1 && IsRun(g, START, events, states)
    ensures forall i :: 0 <= i < |events| ==> !FromServer(events[i])
    ensures FirstWithdrawn(g, states[|events|], k0)
  {
    hide IsRun, BuildRequest, EncodeRequest;
    assert IdOf(0) == 0;
    var first := CallGetsThere(g, START, Pending(0, Get(k0), [], 0));
    var r := first[4].roster.calls[0].request;
    RequestNotEmpty(r);
    var n := |EncodeRequest(r)| - 1;
    var fails, failed := SendFails(g, first[4], n);
    RunsJoin(g, START, Calling(Pending(0, Get(k0), [], 0)), first, fails, failed);
    events, states := Calling(Pending(0, Get(k0), [], 0)) + fails, first[..4] + failed;
    assert [] + EncodeRequest(r)[..n] == Torn(g, k0);
  }

  lemma SendSecond(g: Config, s: State, k0: Blob, k1: Blob) returns (events: seq<Event>, states: seq<State>)
    requires FirstWithdrawn(g, s, k0)
    ensures |states| == |events| + 1 && IsRun(g, s, events, states)
    ensures forall i :: 0 <= i < |events| ==> !FromServer(events[i])
    ensures SecondSent(g, states[|events|], k0, k1)
  {
    hide IsRun, BuildRequest, EncodeRequest, Torn;
    assert IdOf(1) == 1;
    var second := CallGetsThere(g, s, Pending(1, Get(k1), [], 0));
    var t := second[4];
    var sent := Apply(g, t, SendOk(1));
    OneStep(g, t, SendOk(1));
    RunsJoin(g, s, Calling(Pending(1, Get(k1), [], 0)), second, [SendOk(1)], [t, sent]);
    events, states := Calling(Pending(1, Get(k1), [], 0)) + [SendOk(1)], second[..4] + [t, sent];
  }

  /** Request 0 has been withdrawn, and request 1 has been sent. */
  ghost predicate SecondSent(g: Config, s: State, k0: Blob, k1: Blob) {
    var p, q := Pending(0, Get(k0), [], 0), Pending(1, Get(k1), [], 0);
    && s.reader.AtGuard? && s.connected && !s.stopReadLoop && !s.link.broken
    && s.link.stream == [] && s.link.answers == map[]
    && s.ledger.pending == map[1 := q] && s.ledger.registered == map[0 := p, 1 := q]
    && s.ledger.promises == map[0 := [], 1 := []]
    && s.link.wire == Torn(g, k0) + EncodeRequest(BuildRequest(g, 1, q, 0))
  }

  lemma Prepared(g: Config, k0: Blob, k1: Blob) returns (events: seq<Event>, states: seq<State>)
    ensures |states| == |events| + 1 && IsRun(g, START, events, states)
    ensures forall i :: 0 <= i < |events| ==> !FromServer(events[i])
    ensures SecondSent(g, states[|events|], k0, k1)
  {
    hide IsRun, FirstWithdrawn, SecondSent;
    events, states := WithdrawFirst(g, k0);
    var more, after := SendSecond(g, states[|events|], k0, k1);
    RunsJoin(g, START, events, states, more, after);
    events, states := events + more, states[..|events|] + after;
  }

  lemma SendFails(g: Config, s: State, n: nat) returns (events: seq<Event>, states: seq<State>)
    requires 0 in s.roster.calls && s.roster.calls[0].Built? && n < |EncodeRequest(s.roster.calls[0].request)|
    ensures events == [SendFail(0, n), Withdraw(0)] && |states| == 3 && IsRun(g, s, events, states)
    ensures var r, id := s.roster.calls[0].request, s.roster.calls[0].id;
      states[2] == s.(roster := s.roster.(calls := s.roster.calls[0 := Failed(id)]),
                      link := s.link.(wire := s.link.wire + EncodeRequest(r)[..n], log := s.link.log + [Write(0, r, n)]),
                      ledger := Erased(s.ledger, id))
  {
    hide EncodeRequest;
    var a := Apply(g, s, SendFail(0, n));
    var b := Apply(g, a, Withdraw(0));
    assert b.roster.calls == s.roster.calls[0 := Failed(s.roster.calls[0].id)];
    events, states := [SendFail(0, n), Withdraw(0)], [s, a, b];
  }

  // ----- What the server reads -----

  /** A request whose last byte is missing is completed by the first byte of what follows. */
  lemma Spliced(h: Header, k: Blob, next: Blob)
    requires HeaderFits(h) && h.opcode == 0x03 && k != [] && |k| < TWO32 && next != []
    ensures var bytes := EncodeRequest(Request(h, Get(k)));
      && bytes != []
      && ReadRequest(bytes[..|bytes| - 1] + next) == Ok(Request(h, Get(k[..|k| - 1] + [next[0]])), next[1..])
  {
    hide EncodeHeader, ReadRequest, EncodeVar;
    var l := k[..|k| - 1] + [next[0]];
    var bytes, other := EncodeRequest(Request(h, Get(k))), EncodeRequest(Request(h, Get(l)));
    assert bytes == EncodeHeader(h) + EncodeVar(|k| % TWO32) + k;
    assert other == EncodeHeader(h) + EncodeVar(|k| % TWO32) + l;
    assert bytes[..|bytes| - 1] + next == other + next[1..];
    ReadWrittenRequest(Request(h, Get(l)), next[1..]);
  }

  /** What a server that reads the wire makes of request 0: a read of another key. */
  function Misread(k0: Blob): Command
    requires k0 != []
  {
    Get(k0[..|k0| - 1] + [REQUEST_MAGIC])
  }

  lemma ServerMisreads(g: Config, k0: Blob, k1: Blob)
    requires k0 != [] && |k0| < TWO32
    ensures var h := BuildRequest(g, 0, Pending(0, Get(k0), [], 0), 0).header;
      var second := EncodeRequest(BuildRequest(g, 1, Pending(1, Get(k1), [], 0), 0));
      && h.messageId == 0
      && second != [] && ReadRequest(Torn(g, k0) + second) == Ok(Request(h, Misread(k0)), second[1..])
  {
    hide ReadRequest, EncodeRequest;
    var r := BuildRequest(g, 0, Pending(0, Get(k0), [], 0), 0);
    var q := BuildRequest(g, 1, Pending(1, Get(k1), [], 0), 0);
    assert r == Request(r.header, Get(k0));
    StartsRequest(q);
    Spliced(r.header, k0, EncodeRequest(q));
  }

  lemma StartsRequest(r: Request)
    ensures EncodeRequest(r) != [] && EncodeRequest(r)[0] == REQUEST_MAGIC
  {
  }

  /** A foreign answer, for all keys and configurations. The send of request 0 fails after all bytes but
      one, and request 1 is sent completely. A server that reads the wire finds a whole request with
      ID 0, for another key, and the only thing it sends is a proper answer to that. The promise of
      request 1 gets a value `w` taken from inside that answer, although request 1 was not answered. */
  lemma ForeignAnswer(g: Config, k0: Blob, k1: Blob, w: Blob, pad: Blob)
    returns (events: seq<Event>, states: seq<State>, m: nat)
    requires k0 != [] && |k0| < TWO32 && |Disguise(w, pad)| == 161
    ensures |states| == |events| + 1 && IsRun(g, START, events, states) && m < |events|
    ensures var late := Late(Disguise(w, pad));
      && events[m] == Emit(late) && (forall i :: 0 <= i < |events| && i != m ==> !FromServer(events[i]))
      && var r := ReadRequest(states[m].link.wire);
      && r.Ok? && r.value.header.messageId == 0 && r.value.command == Misread(k0)
      && FitsRequest(g, Pending(0, r.value.command, [], 0), late)
    ensures var s := states[|events|];
      && 1 !in s.link.answers && 1 in s.ledger.promises
      && s.ledger.promises[1] == [Answered(0, ValueBody(w), None)]
  {
    hide IsRun, EncodeFrame, EncodeRequest, BuildRequest, Disguise, ReadRequest, Torn;
    var late := Late(Disguise(w, pad));
    HeadsFit(g, Disguise(w, pad));
    ServerMisreads(g, k0, k1);
    events, states := Prepared(g, k0, k1);
    m := |events|;
    var s := states[m];
    var t := Apply(g, s, Emit(late));
    assert t.link.stream == EncodeFrame(late, g.intelligence);
    OneStep(g, s, Emit(late));
    RunsJoin(g, START, events, states, [Emit(late)], [s, t]);
    events, states := events + [Emit(late)], states[..m] + [s, t];
    var fooled := LoopIsFooled(g, t, w, pad);
    var loop := [Guard, ReadHeader, Claim, Guard, ReadHeader, Claim, Deliver];
    RunsJoin(g, START, events, states, loop, fooled);
    events, states := events + loop, states[..|events|] + fooled;
    assert states[m] == s;
    assert OutcomeOf(g, Pending(1, Get(k1), [], 0), Phantom(w)) == Answered(0, ValueBody(w), None);
  }

  /** There are such values. */
  lemma DisguiseExists(w: Blob) returns (pad: Blob)
    requires |w| <= 127
    ensures |Disguise(w, pad)| == 161
  {
    LengthOfShort(w);
    pad := seq(161 - |[0x04, 0, 0] + EncodeBlob(w)|, i => 0);
  }

  lemma LengthOfShort(w: Blob)
    requires |w| <= 127
    ensures |EncodeBlob(w)| == |w| + 1
  {
  }
}
