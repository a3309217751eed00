/** Alignment and no cross-delivery where nothing is assumed of the server but that it sends whole
    frames: under any ID, any number of times, with any opcode and status, also for requests whose send
    failed. The stream stays aligned exactly as long as the loop skips no body. */
module WholeFrames {
  import opened Alignment
  import opened Bytes
  import opened Misalignment
  import opened Multiplexing
  import opened Requests
  import opened Responses

  /** What the loop concludes from a frame for the request of its ID. */
  function Concluded(g: Config, p: Pending, f: Frame): Outcome {
    var topology := HeadOf(f, g.intelligence).topology;
    if f.opcode == ERROR_RESPONSE then ServerError(f.status, f.error, topology)
    else if f.opcode != ReplyOpcode(p.command) then OpcodeMismatch(f.opcode)
    else if MeansFailure(p.command, f.status) then ParserThrew(f.status)
    else Answered(f.status, f.body, topology)
  }

  // ----- The invariant -----

  /** The unread bytes are whole frames, after the body of the one being read. */
  ghost predicate AtBoundary(g: Config, s: State) {
    match s.reader
    case Stopped => true
    case GotHead(h) => s.link.current.Some? && MidFrame(g, s.link, h)
    case Claimed(h, _) => s.link.current.Some? && MidFrame(g, s.link, h)
    case _ => s.link.current.None? && s.link.stream == EncodeFrames(s.link.unread, g.intelligence)
  }

  ghost predicate InStep(g: Config, s: State) { Live(s) ==> AtBoundary(g, s) }

  ghost predicate Known(g: Config, k: Link, f: Frame) { HeadFits(f, g.intelligence) && f in k.arrived }

  ghost predicate FramesKnown(g: Config, k: Link) {
    (forall f :: f in k.unread ==> Known(g, k, f)) && (k.current.Some? ==> Known(g, k, k.current.value))
  }

  ghost predicate FromOwn(g: Config, k: Link, l: Ledger, id: uint64, o: Outcome) {
    || o.ConnectionClosed? || o.ReadFailed?
    || (id in l.registered && exists f :: f in k.arrived && f.id == id && o == Concluded(g, l.registered[id], f))
  }

  /** No cross-delivery: whatever a promise holds was concluded from a whole frame with its own ID. */
  ghost predicate OwnFrames(g: Config, k: Link, l: Ledger) {
    forall id, i :: id in l.promises && 0 <= i < |l.promises[id]| ==> FromOwn(g, k, l, id, l.promises[id][i])
  }

  /** A loop whose socket has failed is not in the middle of a frame. */
  ghost predicate Quiet(s: State) { s.link.broken ==> !s.reader.GotHead? && !s.reader.Claimed? }

  ghost predicate Whole(g: Config, s: State) {
    FramesKnown(g, s.link) && OwnFrames(g, s.link, s.ledger) && Quiet(s)
  }

  // ----- The conditions -----

  /** This step skips the body of the current frame. */
  ghost predicate SkipsAt(g: Config, s: State, e: Event) {
    && s.link.current.Some?
    && ((e.Claim? && s.reader.GotHead? && s.reader.head.id !in s.ledger.pending)
        || (e.Deliver? && s.reader.Claimed?
            && Skips(g, map[s.link.current.value.id := s.reader.request], s.link.current.value)))
  }

  /** A body that is skipped is empty. */
  ghost predicate Tidy(g: Config, s: State, e: Event) {
    SkipsAt(g, s, e) ==> s.link.current.value.body == NoBody
  }

  /** A body that is read is of the kind its command and status call for. */
  ghost predicate Fitting(g: Config, s: State, e: Event) {
    e.Deliver? && s.reader.Claimed? && s.link.current.Some? && !SkipsAt(g, s, e) ==>
      BodyFits(s.reader.request.command, s.link.current.value.status, g.version, s.link.current.value.body)
  }

  // ----- Parts -----

  lemma ArrivesKnown(g: Config, k: Link, f: Frame)
    requires FramesKnown(g, k) && HeadFits(f, g.intelligence)
    ensures FramesKnown(g, Arrives(g, k, f))
  {
    hide EncodeFrame, HeadFits;
  }

  lemma OwnFramesMore(g: Config, k: Link, m: Link, l: Ledger)
    requires OwnFrames(g, k, l) && forall f :: f in k.arrived ==> f in m.arrived
    ensures OwnFrames(g, m, l)
  {
    hide Concluded;
    forall id, i | id in l.promises && 0 <= i < |l.promises[id]|
      ensures FromOwn(g, m, l, id, l.promises[id][i])
    {
      assert FromOwn(g, k, l, id, l.promises[id][i]);
    }
  }

  lemma OwnFramesEntered(g: Config, k: Link, l: Ledger, id: uint64, p: Pending)
    requires OwnFrames(g, k, l) && id !in l.registered
    ensures OwnFrames(g, k, Entered(l, id, p))
  {
    hide Concluded;
    var m := Entered(l, id, p);
    forall j, i | j in m.promises && 0 <= i < |m.promises[j]|
      ensures FromOwn(g, k, m, j, m.promises[j][i])
    {
      assert FromOwn(g, k, l, j, l.promises[j][i]);
    }
  }

  /** The promises and the requests are what counts. */
  lemma OwnFramesSame(g: Config, k: Link, l: Ledger, m: Ledger)
    requires OwnFrames(g, k, l) && m.promises == l.promises && m.registered == l.registered
    ensures OwnFrames(g, k, m)
  {
    hide Concluded;
    forall id, i | id in m.promises && 0 <= i < |m.promises[id]|
      ensures FromOwn(g, k, m, id, m.promises[id][i])
    {
      assert FromOwn(g, k, l, id, l.promises[id][i]);
    }
  }

  lemma OwnFramesSettled(g: Config, k: Link, l: Ledger, id: uint64, o: Outcome)
    requires OwnFrames(g, k, l) && id in l.promises && FromOwn(g, k, l, id, o)
    ensures OwnFrames(g, k, Settled(l, id, o))
  {
    hide Concluded;
    var m := Settled(l, id, o);
    forall j, i | j in m.promises && 0 <= i < |m.promises[j]|
      ensures FromOwn(g, k, m, j, m.promises[j][i])
    {
      if j in l.promises && i < |l.promises[j]| {
        assert FromOwn(g, k, l, j, l.promises[j][i]);
      }
    }
  }

  lemma OwnFramesClosed(g: Config, k: Link, l: Ledger)
    requires OwnFrames(g, k, l)
    ensures OwnFrames(g, k, AllClosed(l))
  {
    hide Concluded;
    var m := AllClosed(l);
    forall j, i | j in m.promises && 0 <= i < |m.promises[j]|
      ensures FromOwn(g, k, m, j, m.promises[j][i])
    {
      if i < |l.promises[j]| {
        assert FromOwn(g, k, l, j, l.promises[j][i]);
      }
    }
  }

  /** Reading a frame for a request, body skipped or read, ends at the next frame. */
  lemma FrameConcluded(g: Config, f: Frame, p: Pending, rest: Blob)
    requires if Skips(g, map[f.id := p], f) then f.body == NoBody else BodyFits(p.command, f.status, g.version, f.body)
    ensures Conclusion(g, HeadOf(f, g.intelligence), p, EncodeReply(f.body) + rest) == Some((Concluded(g, p, f), rest))
  {
    hide EncodeReply, ParseBody, EntryDue, ValueDue, MeansFailure, ResponseOpcode, ReplyOpcode;
    NoReplyBytes(rest);
    OpcodesMeet(p.command);
    if f.opcode != ERROR_RESPONSE && f.opcode == ReplyOpcode(p.command) {
      SkippedFits(g, p, f);
      ParseWrittenBody(p.command, f.status, g.version, f.body, rest);
    }
  }

  lemma SkippedFits(g: Config, p: Pending, f: Frame)
    requires f.opcode != ERROR_RESPONSE && f.opcode == ReplyOpcode(p.command)
    requires if Skips(g, map[f.id := p], f) then f.body == NoBody else BodyFits(p.command, f.status, g.version, f.body)
    ensures BodyFits(p.command, f.status, g.version, f.body)
  {
    hide EntryDue, ValueDue, ReplyOpcode;
  }

  // ----- Steps -----

  lemma ArrivalWhole(g: Config, s: State, e: Event)
    requires InStep(g, s) && Whole(g, s) && (e.Answer? || e.Emit?) && Enabled(g, s, e)
    ensures InStep(g, Apply(g, s, e)) && Whole(g, Apply(g, s, e))
  {
    hide EncodeFrames, EncodeFrame, EncodeReply, HeadOf, HeadFits, FramesKnown, OwnFrames;
    var f, t := e.frame, Apply(g, s, e);
    FittingHead(g, s, e);
    ArrivesKnown(g, s.link, f);
    KnownLink(g, Arrives(g, s.link, f), t.link);
    OwnFramesMore(g, s.link, t.link, s.ledger);
    FramesAppend(s.link.unread, f, g.intelligence);
    if Live(s) && s.link.current.Some? {
      var a, b, c := EncodeReply(s.link.current.value.body), EncodeFrames(s.link.unread, g.intelligence), EncodeFrame(f, g.intelligence);
      assert a + b + c == a + (b + c);
    }
  }

  lemma FittingHead(g: Config, s: State, e: Event)
    requires (e.Answer? || e.Emit?) && Enabled(g, s, e)
    ensures HeadFits(e.frame, g.intelligence)
  {
    hide HeadFits, BodyFits;
  }

  lemma KnownLink(g: Config, k: Link, m: Link)
    requires FramesKnown(g, k) && m.arrived == k.arrived && m.unread == k.unread && m.current == k.current
    ensures FramesKnown(g, m)
  {
    hide HeadFits;
  }

  /** Steps that leave alone what is read and what is promised. */
  lemma CallWhole(g: Config, s: State, e: Event)
    requires InStep(g, s) && Whole(g, s) && Enabled(g, s, e)
    requires e.Check? || e.FetchId? || e.Build? || e.SendOk? || e.SendFail? || e.Withdraw? || e.SetStop? || e.Join? || e.Guard?
    ensures InStep(g, Apply(g, s, e)) && Whole(g, Apply(g, s, e))
  {
    hide EncodeFrames, EncodeReply, EncodeRequest, HeadOf, FramesKnown, OwnFrames, BuildRequest, IdOf;
    var t := Apply(g, s, e);
    KnownLink(g, s.link, t.link);
    OwnFramesMore(g, s.link, t.link, s.ledger);
    OwnFramesSame(g, t.link, s.ledger, t.ledger);
  }

  lemma RegisterWhole(g: Config, s: State, e: Event)
    requires InStep(g, s) && Whole(g, s) && Consistent(s) && e.Register? && Enabled(g, s, e)
    ensures InStep(g, Apply(g, s, e)) && Whole(g, Apply(g, s, e))
  {
    hide EncodeFrames, EncodeReply, HeadOf, FramesKnown, OwnFrames, Fates, Threads, Logged;
    NotRegistered(s.roster, s.ledger.registered, e.call);
    OwnFramesEntered(g, s.link, s.ledger, s.roster.calls[e.call].id, Pending(e.call, e.command, e.cacheName, e.flags));
  }

  lemma BegunKnown(g: Config, k: Link, rest: Blob)
    requires FramesKnown(g, k)
    ensures FramesKnown(g, Begun(k, rest))
  {
    hide HeadFits;
    if k.unread != [] {
      assert k.unread[0] in k.unread;
      forall f | f in k.unread[1..] ensures f in k.unread {
        assert k.unread == [k.unread[0]] + k.unread[1..];
      }
    }
  }

  lemma FirstKnown(g: Config, k: Link)
    requires FramesKnown(g, k) && k.unread != []
    ensures HeadFits(k.unread[0], g.intelligence)
  {
    assert k.unread[0] in k.unread;
  }

  lemma HeaderWhole(g: Config, s: State)
    requires InStep(g, s) && Whole(g, s) && Enabled(g, s, ReadHeader)
    ensures InStep(g, Apply(g, s, ReadHeader)) && Whole(g, Apply(g, s, ReadHeader))
  {
    hide ReadHead, HeadOf, EncodeReply, EncodeFrame, OwnFrames, HeadFits, FramesKnown;
    var t := Apply(g, s, ReadHeader);
    BegunKnown(g, s.link, t.link.stream);
    OwnFramesMore(g, s.link, t.link, s.ledger);
    if s.link.unread == [] {
      NothingToRead(g.intelligence);
    } else {
      var f := s.link.unread[0];
      FirstKnown(g, s.link);
      FrameSplits(f, EncodeFrames(s.link.unread[1..], g.intelligence), g.intelligence);
    }
  }

  lemma ClaimWhole(g: Config, s: State)
    requires InStep(g, s) && Whole(g, s) && Enabled(g, s, Claim) && Tidy(g, s, Claim)
    ensures InStep(g, Apply(g, s, Claim)) && Whole(g, Apply(g, s, Claim))
  {
    hide HeadOf, EncodeReply, EncodeFrames, OwnFrames, HeadFits, Skips;
    var t := Apply(g, s, Claim);
    OwnFramesMore(g, s.link, t.link, s.ledger);
    OwnFramesSame(g, t.link, s.ledger, t.ledger);
    NoReplyBytes(EncodeFrames(s.link.unread, g.intelligence));
  }

  lemma DeliverWhole(g: Config, s: State)
    requires InStep(g, s) && Whole(g, s) && Consistent(s) && Enabled(g, s, Deliver)
    requires Tidy(g, s, Deliver) && Fitting(g, s, Deliver)
    ensures InStep(g, Apply(g, s, Deliver)) && Whole(g, Apply(g, s, Deliver))
  {
    hide HeadOf, EncodeReply, EncodeFrames, OwnFrames, HeadFits, Skips, Conclusion, BodyFits, Concluded, Fates, Threads, Logged;
    var t, f, p := Apply(g, s, Deliver), s.link.current.value, s.reader.request;
    HeadKeepsId(f, g);
    FrameConcluded(g, f, p, EncodeFrames(s.link.unread, g.intelligence));
    assert FromOwn(g, s.link, s.ledger, f.id, Concluded(g, p, f));
    OwnFramesSettled(g, s.link, s.ledger, f.id, Concluded(g, p, f));
    OwnFramesMore(g, s.link, t.link, t.ledger);
  }

  lemma FailureWhole(g: Config, s: State, e: Event)
    requires InStep(g, s) && Whole(g, s) && Consistent(s) && Enabled(g, s, e)
    requires e.RejectHeader? || e.SocketError? || e.BodyFails? || e.FinishClose?
    ensures InStep(g, Apply(g, s, e)) && Whole(g, Apply(g, s, e))
  {
    hide HeadOf, EncodeReply, EncodeFrames, OwnFrames, HeadFits, Fates, Threads, Logged, ReadHead;
    var t := Apply(g, s, e);
    if e.BodyFails? {
      OwnFramesSettled(g, s.link, s.ledger, s.reader.head.id, ReadFailed);
    } else {
      OwnFramesClosed(g, s.link, s.ledger);
    }
    OwnFramesMore(g, s.link, t.link, t.ledger);
  }

  lemma StepWhole(g: Config, s: State, e: Event)
    requires InStep(g, s) && Whole(g, s) && Consistent(s) && Enabled(g, s, e) && !e.Noise?
    requires Tidy(g, s, e) && Fitting(g, s, e)
    ensures InStep(g, Apply(g, s, e)) && Whole(g, Apply(g, s, e))
  {
    hide InStep, Whole, Consistent, Enabled, Apply, Tidy, Fitting;
    match e {
      case Answer(_) => ArrivalWhole(g, s, e);
      case Emit(_) => ArrivalWhole(g, s, e);
      case Register(_, _, _, _) => RegisterWhole(g, s, e);
      case ReadHeader => HeaderWhole(g, s);
      case Claim => ClaimWhole(g, s);
      case Deliver => DeliverWhole(g, s);
      case RejectHeader => FailureWhole(g, s, e);
      case SocketError => FailureWhole(g, s, e);
      case BodyFails => FailureWhole(g, s, e);
      case FinishClose => FailureWhole(g, s, e);
      case _ => CallWhole(g, s, e);
    }
  }

  // ----- Runs -----

  /** Whole frames only, and what is read fits. Sends may fail. */
  ghost predicate WholeRun(g: Config, events: seq<Event>, states: seq<State>) {
    && IsRun(g, START, events, states) && states[|events|].roster.issued <= TWO64
    && forall i :: 0 <= i < |events| ==> !events[i].Noise? && Fitting(g, states[i], events[i])
  }

  lemma StartWhole(g: Config)
    ensures InStep(g, START) && Whole(g, START)
  {
  }

  lemma {:induction false} TidyRunsInStep(g: Config, events: seq<Event>, states: seq<State>, i: nat)
    requires WholeRun(g, events, states) && i < |states|
    requires forall j :: 0 <= j < i ==> Tidy(g, states[j], events[j])
    ensures InStep(g, states[i]) && Whole(g, states[i])
    decreases i
  {
    hide InStep, Whole, Tidy, Fitting, Enabled, Apply, Consistent;
    if i == 0 {
      StartWhole(g);
    } else {
      TidyRunsInStep(g, events, states, i - 1);
      StartConsistent();
      ExactlyOnce(g, START, events, states, i - 1);
      StepWhole(g, states[i - 1], events[i - 1]);
    }
  }

  /** A step that skips a body that is there leaves the stream out of step. */
  lemma UntidyStep(g: Config, s: State, e: Event)
    requires InStep(g, s) && Whole(g, s) && Enabled(g, s, e) && InStep(g, Apply(g, s, e))
    ensures Tidy(g, s, e)
  {
    hide HeadOf, EncodeReply, EncodeFrames, OwnFrames, HeadFits, Skips, FramesKnown, Conclusion;
    if SkipsAt(g, s, e) {
      var f := s.link.current.value;
      var rest := EncodeFrames(s.link.unread, g.intelligence);
      SkippedReply(f.body, rest);
      if e.Deliver? {
        HeadKeepsId(f, g);
        SkippedKeepsAlignmentIff(g, s, f, rest);
      }
    }
  }

  /** The exact condition, over whole runs: the stream is aligned in every state if and only if no step
      skips a body that is there. */
  lemma AlignedIffTidy(g: Config, events: seq<Event>, states: seq<State>)
    requires WholeRun(g, events, states)
    ensures (forall i :: 0 <= i < |states| ==> InStep(g, states[i]))
       <==> (forall j :: 0 <= j < |events| ==> Tidy(g, states[j], events[j]))
  {
    hide InStep, Tidy, Fitting, Enabled, Apply;
    if forall j :: 0 <= j < |events| ==> Tidy(g, states[j], events[j]) {
      forall i | 0 <= i < |states| ensures InStep(g, states[i]) {
        TidyRunsInStep(g, events, states, i);
      }
    }
    if forall i :: 0 <= i < |states| ==> InStep(g, states[i]) {
      forall j | 0 <= j < |events| ensures Tidy(g, states[j], events[j]) {
        TidySoFar(g, events, states, j);
      }
    }
  }

  lemma {:induction false} TidySoFar(g: Config, events: seq<Event>, states: seq<State>, n: nat)
    requires WholeRun(g, events, states) && n < |events|
    requires forall i :: 0 <= i < |states| ==> InStep(g, states[i])
    ensures forall j :: 0 <= j <= n ==> Tidy(g, states[j], events[j])
    decreases n
  {
    hide InStep, Tidy, Fitting, Enabled, Apply, Whole;
    if n > 0 {
      TidySoFar(g, events, states, n - 1);
    }
    TidyRunsInStep(g, events, states, n);
    assert InStep(g, states[n + 1]);
    UntidyStep(g, states[n], events[n]);
  }

  /** No cross-delivery in such a run: what a promise holds was concluded from a whole frame with the ID
      of its own request, or reports that the connection failed. */
  lemma OwnFrameOnly(g: Config, events: seq<Event>, states: seq<State>, i: nat, id: uint64, n: nat)
    requires WholeRun(g, events, states) && i < |states|
    requires forall j :: 0 <= j < i ==> Tidy(g, states[j], events[j])
    requires id in states[i].ledger.promises && n < |states[i].ledger.promises[id]|
    ensures var s := states[i];
      var o := s.ledger.promises[id][n];
      || o.ConnectionClosed? || o.ReadFailed?
      || (id in s.ledger.registered
          && exists f :: f in s.link.arrived && f.id == id && o == Concluded(g, s.ledger.registered[id], f))
  {
    hide WholeRun, InStep, Tidy, FramesKnown, Concluded;
    TidyRunsInStep(g, events, states, i);
    assert FromOwn(g, states[i].link, states[i].ledger, id, states[i].ledger.promises[id][n]);
  }
}
