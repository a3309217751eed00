/** The byte stream, the pending map and the promises of one multiplexed connection, tied together
    over every run in which the server answers properly and no send fails. */
module Alignment {
  import opened Bytes
  import opened Multiplexing
  import opened Requests
  import opened Responses
  import opened Topologies

  function EncodeFrames(fs: seq<Frame>, intelligence: Intelligence): Blob {
    if fs == [] then [] else EncodeFrame(fs[0], intelligence) + EncodeFrames(fs[1..], intelligence)
  }

  lemma {:induction false} FramesAppend(fs: seq<Frame>, f: Frame, intelligence: Intelligence)
    ensures EncodeFrames(fs + [f], intelligence) == EncodeFrames(fs, intelligence) + EncodeFrame(f, intelligence)
  {
    hide EncodeFrame;
    if fs == [] {
      assert [] + [f] == [f] && [f][1..] == [];
      assert EncodeFrames([f], intelligence) == EncodeFrame(f, intelligence) + [];
    } else {
      assert (fs + [f])[1..] == fs[1..] + [f];
      FramesAppend(fs[1..], f, intelligence);
    }
  }

  /** What the promise of request `p` must be given when its answer is `f`. */
  function OutcomeOf(g: Config, p: Pending, f: Frame): Outcome {
    var topology := HeadOf(f, g.intelligence).topology;
    if f.opcode == ERROR_RESPONSE then ServerError(f.status, f.error, topology)
    else if MeansFailure(p.command, f.status) then ParserThrew(f.status)
    else Answered(f.status, f.body, topology)
  }

  /** The loop is running and its socket has not failed. */
  predicate Live(s: State) { !s.reader.Stopped? && !s.link.broken }

  // ----- The invariant, part by part -----

  /** Answers belong to requests. */
  ghost predicate AnswersFit(g: Config, k: Link, registered: map<uint64, Pending>) {
    forall id :: id in k.answers ==>
      id in registered && k.answers[id].id == id && FitsRequest(g, registered[id], k.answers[id])
  }

  /** No cross-delivery: a promise holds the outcome of its own answer, or the connection failed. */
  ghost predicate Faithful(g: Config, k: Link, l: Ledger) {
    forall id, i :: id in l.promises && 0 <= i < |l.promises[id]| ==>
      var o := l.promises[id][i];
      || o.ConnectionClosed? || o.ReadFailed?
      || (id in k.answers && id in l.registered && o == OutcomeOf(g, l.registered[id], k.answers[id]))
  }

  /** The frames not yet matched with their request: the one whose header was just read, and those
      not yet begun. */
  function Ahead(s: State): seq<Frame> {
    (if s.reader.GotHead? && s.link.current.Some? then [s.link.current.value] else []) + s.link.unread
  }

  ghost predicate InLine(answers: map<uint64, Frame>, pending: map<uint64, Pending>, ahead: seq<Frame>) {
    && (forall i :: 0 <= i < |ahead| ==>
          ahead[i].id in answers && answers[ahead[i].id] == ahead[i] && ahead[i].id in pending)
    && (forall i, j :: 0 <= i < j < |ahead| ==> ahead[i].id != ahead[j].id)
  }

  ghost predicate Queued(ahead: seq<Frame>, id: uint64) {
    exists i :: 0 <= i < |ahead| && ahead[i].id == id
  }

  /** The promise holds the outcome of the answer, and nothing else. */
  ghost predicate Resolved(g: Config, k: Link, l: Ledger, id: uint64)
    requires id in k.answers
  {
    id in l.registered && id in l.promises && l.promises[id] == [OutcomeOf(g, l.registered[id], k.answers[id])]
  }

  /** No answer is lost: it is still ahead, in the hands of the loop, or has reached its promise. */
  ghost predicate NoneLost(g: Config, k: Link, l: Ledger, ahead: seq<Frame>) {
    forall id :: id in k.answers ==> Queued(ahead, id) || l.held == Some(id) || Resolved(g, k, l, id)
  }

  /** Nothing is forgotten: a registered request is waiting or answered. */
  ghost predicate Accounted(k: Link, l: Ledger) {
    forall id :: id in l.registered ==> id in l.pending || id in k.answers
  }

  /** Alignment: between iterations the unread bytes are exactly the frames not yet begun; within
      one they are those and the body of the frame whose header was read. */
  ghost predicate Positioned(g: Config, s: State) {
    match s.reader
    case Stopped => true
    case GotHead(h) => s.link.current.Some? && MidFrame(g, s.link, h)
    case Claimed(h, _) =>
      && s.link.current.Some? && MidFrame(g, s.link, h)
      && h.id in s.link.answers && s.link.answers[h.id] == s.link.current.value
    case _ => s.link.current.None? && s.link.stream == EncodeFrames(s.link.unread, g.intelligence)
  }

  ghost predicate MidFrame(g: Config, k: Link, h: Head)
    requires k.current.Some?
  {
    && h == HeadOf(k.current.value, g.intelligence)
    && k.stream == EncodeReply(k.current.value.body) + EncodeFrames(k.unread, g.intelligence)
  }

  ghost predicate NoneUnsent(r: Roster) {
    forall c :: c in r.calls ==> !r.calls[c].Unsent? && !r.calls[c].Failed?
  }

  ghost predicate Aligned(g: Config, s: State) {
    && AnswersFit(g, s.link, s.ledger.registered)
    && Faithful(g, s.link, s.ledger)
    && NoneUnsent(s.roster)
    && s.link.wire == EncodeAll(s.link.sent)
    && (s.link.broken ==> !s.reader.GotHead? && !s.reader.Claimed?)
    && (Live(s) ==>
          && Positioned(g, s)
          && InLine(s.link.answers, s.ledger.pending, Ahead(s))
          && Accounted(s.link, s.ledger)
          && NoneLost(g, s.link, s.ledger, Ahead(s)))
  }

  /** The well-behaved runs: answers are proper, nothing else is sent, and no send fails. */
  predicate Clean(e: Event) { !e.Noise? && !e.Emit? && !e.SendFail? }

  // ----- How the parts change -----

  lemma InLineAppend(answers: map<uint64, Frame>, pending: map<uint64, Pending>, ahead: seq<Frame>, f: Frame)
    requires InLine(answers, pending, ahead) && f.id !in answers && f.id in pending
    ensures InLine(answers[f.id := f], pending, ahead + [f])
  {
  }

  lemma InLineMore(answers: map<uint64, Frame>, pending: map<uint64, Pending>, ahead: seq<Frame>, id: uint64, p: Pending)
    requires InLine(answers, pending, ahead)
    ensures InLine(answers, pending[id := p], ahead)
  {
  }

  lemma InLineRest(answers: map<uint64, Frame>, pending: map<uint64, Pending>, ahead: seq<Frame>)
    requires InLine(answers, pending, ahead) && ahead != []
    ensures InLine(answers, pending - {ahead[0].id}, ahead[1..])
  {
  }

  lemma AnsweredFaithful(g: Config, k: Link, m: Link, l: Ledger, f: Frame)
    requires Faithful(g, k, l) && f.id !in k.answers && m.answers == k.answers[f.id := f]
    ensures Faithful(g, m, l)
  {
    hide OutcomeOf;
  }

  lemma EnteredFaithful(g: Config, k: Link, l: Ledger, id: uint64, p: Pending)
    requires Faithful(g, k, l) && id !in l.registered
    ensures Faithful(g, k, Entered(l, id, p))
  {
    hide OutcomeOf;
  }

  lemma EnteredAnswersFit(g: Config, k: Link, registered: map<uint64, Pending>, id: uint64, p: Pending)
    requires AnswersFit(g, k, registered) && id !in registered
    ensures AnswersFit(g, k, registered[id := p])
  {
    hide FitsRequest;
  }

  lemma TakenFaithful(g: Config, k: Link, l: Ledger, id: uint64)
    requires Faithful(g, k, l)
    ensures Faithful(g, k, Taken(l, id))
  {
    hide OutcomeOf;
  }

  lemma AnsweredNoneLost(g: Config, k: Link, m: Link, l: Ledger, ahead: seq<Frame>, f: Frame)
    requires NoneLost(g, k, l, ahead) && m.answers == k.answers[f.id := f]
    ensures NoneLost(g, m, l, ahead + [f])
  {
    hide OutcomeOf;
    var more := ahead + [f];
    forall id | id in m.answers ensures Queued(more, id) || l.held == Some(id) || Resolved(g, m, l, id) {
      if id == f.id {
        assert more[|ahead|].id == id;
      } else if Queued(ahead, id) {
        var i :| 0 <= i < |ahead| && ahead[i].id == id;
        assert more[i].id == id;
      }
    }
  }

  lemma EnteredNoneLost(g: Config, k: Link, l: Ledger, ahead: seq<Frame>, id: uint64, p: Pending)
    requires NoneLost(g, k, l, ahead) && id !in k.answers
    ensures NoneLost(g, k, Entered(l, id, p), ahead)
  {
    hide OutcomeOf, Queued;
  }

  /** What the loop takes from the front it holds. */
  lemma TakenNoneLost(g: Config, k: Link, l: Ledger, ahead: seq<Frame>)
    requires NoneLost(g, k, l, ahead) && ahead != [] && l.held.None?
    ensures NoneLost(g, k, Taken(l, ahead[0].id), ahead[1..])
  {
    hide OutcomeOf;
    var m, rest := Taken(l, ahead[0].id), ahead[1..];
    forall id | id in k.answers ensures Queued(rest, id) || m.held == Some(id) || Resolved(g, k, m, id) {
      if Queued(ahead, id) && id != ahead[0].id {
        var i :| 0 <= i < |ahead| && ahead[i].id == id;
        assert rest[i - 1].id == id;
      }
    }
  }

  /** What the loop holds reaches its promise. */
  lemma SettledNoneLost(g: Config, k: Link, l: Ledger, ahead: seq<Frame>, id: uint64)
    requires NoneLost(g, k, l, ahead) && l.held == Some(id) && id in k.answers && id in l.registered
    requires id in l.promises && l.promises[id] == []
    ensures NoneLost(g, k, Settled(l, id, OutcomeOf(g, l.registered[id], k.answers[id])), ahead)
  {
    hide OutcomeOf, Queued;
  }

  lemma NoneLostLink(g: Config, k: Link, m: Link, l: Ledger, ahead: seq<Frame>)
    requires NoneLost(g, k, l, ahead) && m.answers == k.answers
    ensures NoneLost(g, m, l, ahead)
  {
    hide OutcomeOf, Queued;
  }

  // ----- Steps of the server -----

  lemma AnswerAligned(g: Config, s: State, e: Event)
    requires Aligned(g, s) && e.Answer? && Enabled(g, s, e)
    ensures Aligned(g, Apply(g, s, e))
  {
    hide EncodeFrames, EncodeFrame, EncodeReply, HeadOf, FitsRequest, EncodeAll, InLine, Faithful, NoneLost;
    var t := Apply(g, s, e);
    var f := e.frame;
    FramesAppend(s.link.unread, f, g.intelligence);
    AnsweredFaithful(g, s.link, t.link, s.ledger, f);
    if Live(s) {
      assert Ahead(t) == Ahead(s) + [f];
      InLineAppend(s.link.answers, s.ledger.pending, Ahead(s), f);
      AnsweredNoneLost(g, s.link, t.link, s.ledger, Ahead(s), f);
      if s.link.current.Some? {
        var a, b, c := EncodeReply(s.link.current.value.body), EncodeFrames(s.link.unread, g.intelligence), EncodeFrame(f, g.intelligence);
        assert a + b + c == a + (b + c);
      }
    }
  }

  // ----- Steps of execute -----

  lemma RegisterAligned(g: Config, s: State, e: Event)
    requires Aligned(g, s) && Consistent(s) && e.Register? && Enabled(g, s, e)
    ensures Aligned(g, Apply(g, s, e))
  {
    hide EncodeFrames, EncodeReply, HeadOf, EncodeAll, Fates, Threads, Logged, InLine, Faithful, AnswersFit, NoneLost;
    var id, p := s.roster.calls[e.call].id, Pending(e.call, e.command, e.cacheName, e.flags);
    NotRegistered(s.roster, s.ledger.registered, e.call);
    EnteredFaithful(g, s.link, s.ledger, id, p);
    EnteredAnswersFit(g, s.link, s.ledger.registered, id, p);
    if Live(s) {
      InLineMore(s.link.answers, s.ledger.pending, Ahead(s), id, p);
      NotAnswered(g, s.link, s.ledger.registered, id);
      EnteredNoneLost(g, s.link, s.ledger, Ahead(s), id, p);
      assert Ahead(Apply(g, s, e)) == Ahead(s);
    }
  }

  lemma NotAnswered(g: Config, k: Link, registered: map<uint64, Pending>, id: uint64)
    requires AnswersFit(g, k, registered) && id !in registered
    ensures id !in k.answers
  {
  }

  lemma SendAligned(g: Config, s: State, e: Event)
    requires Aligned(g, s) && e.SendOk? && Enabled(g, s, e)
    ensures Aligned(g, Apply(g, s, e))
  {
    hide EncodeFrames, EncodeReply, HeadOf, OutcomeOf, FitsRequest, EncodeAll, EncodeRequest, Positioned, InLine, Accounted, NoneLost;
    EncodeAllAppends(s.link.sent, s.roster.calls[e.call].request);
    var t := Apply(g, s, e);
    assert Live(t) ==> Positioned(g, t) && Ahead(t) == Ahead(s) && Accounted(t.link, t.ledger) by {
      SameLink(g, s, t);
    }
    if Live(s) {
      NoneLostLink(g, s.link, t.link, s.ledger, Ahead(s));
    }
  }

  lemma SameLink(g: Config, s: State, t: State)
    requires t.reader == s.reader && t.ledger == s.ledger
    requires t.link == s.link.(wire := t.link.wire, sent := t.link.sent, log := t.link.log)
    ensures Positioned(g, s) ==> Positioned(g, t)
    ensures Ahead(t) == Ahead(s)
    ensures Accounted(s.link, s.ledger) ==> Accounted(t.link, t.ledger)
  {
  }

  /** Steps that touch neither the ledger nor the link. */
  lemma PlainAligned(g: Config, s: State, e: Event)
    requires Aligned(g, s) && Enabled(g, s, e)
    requires e.Check? || e.FetchId? || e.Build? || e.SetStop? || e.Join? || e.Guard?
    ensures Aligned(g, Apply(g, s, e))
  {
    hide EncodeFrames, EncodeReply, HeadOf, OutcomeOf, FitsRequest, EncodeAll, InLine, Accounted, Faithful, AnswersFit, NoneLost, BuildRequest, IdOf;
    var t := Apply(g, s, e);
    assert Live(t) ==> Ahead(t) == Ahead(s);
  }

  // ----- Steps of the read loop -----

  lemma FrameSplits(f: Frame, rest: Blob, intelligence: Intelligence)
    requires HeadFits(f, intelligence)
    ensures ReadHead(EncodeFrame(f, intelligence) + rest, intelligence)
         == Ok(HeadOf(f, intelligence), EncodeReply(f.body) + rest)
  {
    hide EncodeHead, ReadHead, HeadOf, EncodeReply;
    assert EncodeFrame(f, intelligence) + rest == EncodeHead(f, intelligence) + (EncodeReply(f.body) + rest);
    ReadWrittenHead(f, intelligence, EncodeReply(f.body) + rest);
  }

  lemma NothingToRead(intelligence: Intelligence)
    ensures ReadHead([], intelligence) == Short
  {
  }

  /** A header that can be read is that of the next frame. */
  lemma NextHead(g: Config, s: State)
    requires Aligned(g, s) && Live(s) && s.reader.Waiting?
    ensures s.link.unread == [] ==> ReadHead(s.link.stream, g.intelligence).Short?
    ensures s.link.unread != [] ==>
      ReadHead(s.link.stream, g.intelligence)
      == Ok(HeadOf(s.link.unread[0], g.intelligence),
            EncodeReply(s.link.unread[0].body) + EncodeFrames(s.link.unread[1..], g.intelligence))
  {
    hide ReadHead, HeadOf, EncodeReply, EncodeFrame, Accounted, Faithful, NoneLost;
    if s.link.unread == [] {
      NothingToRead(g.intelligence);
    } else {
      var f := s.link.unread[0];
      assert Ahead(s)[0] == f;
      FrameSplits(f, EncodeFrames(s.link.unread[1..], g.intelligence), g.intelligence);
    }
  }

  lemma ReadHeaderAligned(g: Config, s: State, e: Event)
    requires Aligned(g, s) && e.ReadHeader? && Enabled(g, s, e)
    ensures Aligned(g, Apply(g, s, e))
  {
    hide ReadHead, HeadOf, EncodeReply, EncodeFrames, Accounted, Faithful, AnswersFit, EncodeAll, InLine, NoneLost;
    NextHead(g, s);
    var t := Apply(g, s, e);
    assert s.link.unread == [s.link.unread[0]] + s.link.unread[1..];
    assert Ahead(t) == Ahead(s);
    SameBooks(g, s, t);
    NoneLostLink(g, s.link, t.link, s.ledger, Ahead(s));
  }

  lemma SameBooks(g: Config, s: State, t: State)
    requires t.ledger == s.ledger && t.link.answers == s.link.answers
    ensures Accounted(s.link, s.ledger) ==> Accounted(t.link, t.ledger)
    ensures Faithful(g, s.link, s.ledger) ==> Faithful(g, t.link, t.ledger)
    ensures AnswersFit(g, s.link, s.ledger.registered) ==> AnswersFit(g, t.link, t.ledger.registered)
  {
    hide OutcomeOf, FitsRequest;
  }

  /** No orphans: the request of a frame that was read is waiting for it. */
  lemma HeadIsExpected(g: Config, s: State)
    requires Aligned(g, s) && s.reader.GotHead?
    ensures s.reader.head.id in s.ledger.pending
    ensures s.link.current.Some? && s.link.current.value.id == s.reader.head.id
    ensures s.reader.head.id in s.link.answers && s.link.answers[s.reader.head.id] == s.link.current.value
  {
    hide EncodeReply, EncodeFrames, Faithful, AnswersFit, Accounted, EncodeAll, NoneLost;
    var f := s.link.current.value;
    assert Ahead(s)[0] == f;
    assert f.id == s.reader.head.id;
  }

  lemma ClaimAligned(g: Config, s: State, e: Event)
    requires Aligned(g, s) && Consistent(s) && e.Claim? && Enabled(g, s, e)
    ensures Aligned(g, Apply(g, s, e))
  {
    hide HeadOf, EncodeReply, EncodeFrames, EncodeAll, Fates, Threads, Logged, InLine, Faithful, AnswersFit, NoneLost;
    HeadIsExpected(g, s);
    var t := Apply(g, s, e);
    assert Ahead(s)[0] == s.link.current.value && Ahead(s)[1..] == Ahead(t);
    InLineRest(s.link.answers, s.ledger.pending, Ahead(s));
    TakenFaithful(g, s.link, s.ledger, s.reader.head.id);
    TakenNoneLost(g, s.link, s.ledger, Ahead(s));
  }

  /** The loop draws the right conclusion and stops at the end of the frame. */
  lemma RightConclusion(g: Config, s: State)
    requires Aligned(g, s) && Consistent(s) && s.reader.Claimed?
    ensures s.link.current.Some?
    ensures Conclusion(g, s.reader.head, s.reader.request, s.link.stream)
         == Some((OutcomeOf(g, s.reader.request, s.link.current.value), EncodeFrames(s.link.unread, g.intelligence)))
  {
    hide EncodeFrames, EncodeReply, ParseBody, MeansFailure, ResponseOpcode, ReplyOpcode, Fates, Threads, Logged, Faithful, InLine, Accounted, NoneLost, EncodeAll;
    var f, p, rest := s.link.current.value, s.reader.request, EncodeFrames(s.link.unread, g.intelligence);
    assert FitsRequest(g, p, f);
    assert f.opcode == ERROR_RESPONSE ==> EncodeReply(f.body) + rest == rest by {
      NoReplyBytes(rest);
    }
    OpcodesMeet(p.command);
    if f.opcode != ERROR_RESPONSE {
      ParseWrittenBody(p.command, f.status, g.version, f.body, rest);
    }
  }

  lemma NoReplyBytes(rest: Blob)
    ensures EncodeReply(NoBody) + rest == rest
  {
  }

  lemma SettledFaithful(g: Config, k: Link, l: Ledger, id: uint64, o: Outcome)
    requires Faithful(g, k, l) && id in l.promises
    requires o.ReadFailed? || (id in k.answers && id in l.registered && o == OutcomeOf(g, l.registered[id], k.answers[id]))
    ensures Faithful(g, k, Settled(l, id, o))
  {
    hide OutcomeOf;
  }

  lemma DeliverAligned(g: Config, s: State, e: Event)
    requires Aligned(g, s) && Consistent(s) && e.Deliver? && Enabled(g, s, e)
    ensures Aligned(g, Apply(g, s, e))
  {
    hide HeadOf, EncodeReply, EncodeFrames, OutcomeOf, FitsRequest, EncodeAll, Fates, Threads, Logged, Conclusion, Faithful, NoneLost;
    RightConclusion(g, s);
    var t := Apply(g, s, e);
    var o := OutcomeOf(g, s.reader.request, s.link.current.value);
    SettledFaithful(g, s.link, s.ledger, s.reader.head.id, o);
    FaithfulLink(g, s.link, t.link, t.ledger);
    assert Ahead(t) == Ahead(s);
    HeldUnset(s.ledger, s.reader.head.id);
    SettledNoneLost(g, s.link, s.ledger, Ahead(s), s.reader.head.id);
    NoneLostLink(g, s.link, t.link, t.ledger, Ahead(t));
  }

  lemma HeldUnset(l: Ledger, id: uint64)
    requires Fates(l) && l.held == Some(id)
    ensures id in l.promises && l.promises[id] == []
  {
    assert OneFate(l, id);
  }

  lemma FaithfulLink(g: Config, k: Link, m: Link, l: Ledger)
    requires Faithful(g, k, l) && m.answers == k.answers
    ensures Faithful(g, m, l)
  {
    hide OutcomeOf;
  }

  lemma AllClosedFaithful(g: Config, k: Link, l: Ledger)
    requires Faithful(g, k, l)
    ensures Faithful(g, k, AllClosed(l))
  {
    hide OutcomeOf;
  }

  /** Failures: the loop stops or the socket is dead, so only the promises matter. */
  lemma FailureAligned(g: Config, s: State, e: Event)
    requires Aligned(g, s) && Consistent(s) && Enabled(g, s, e)
    requires e.RejectHeader? || e.SocketError? || e.BodyFails? || e.FinishClose?
    ensures Aligned(g, Apply(g, s, e))
  {
    hide HeadOf, EncodeReply, EncodeFrames, OutcomeOf, FitsRequest, EncodeAll, Fates, Threads, Logged, ReadHead, Faithful, Positioned, InLine, Accounted, NoneLost;
    var t := Apply(g, s, e);
    if e.BodyFails? {
      SettledFaithful(g, s.link, s.ledger, s.reader.head.id, ReadFailed);
    } else {
      AllClosedFaithful(g, s.link, s.ledger);
    }
    FaithfulLink(g, s.link, t.link, t.ledger);
  }

  // ----- All runs -----

  lemma StepAligned(g: Config, s: State, e: Event)
    requires Aligned(g, s) && Consistent(s) && Enabled(g, s, e) && Clean(e)
    ensures Aligned(g, Apply(g, s, e))
  {
    hide Aligned, Consistent, Enabled, Apply;
    if e.Withdraw? {
      NoWithdrawal(g, s, e.call);
    } else {
      match e {
        case Answer(_) => AnswerAligned(g, s, e);
        case Register(_, _, _, _) => RegisterAligned(g, s, e);
        case SendOk(_) => SendAligned(g, s, e);
        case ReadHeader => ReadHeaderAligned(g, s, e);
        case Claim => ClaimAligned(g, s, e);
        case Deliver => DeliverAligned(g, s, e);
        case RejectHeader => FailureAligned(g, s, e);
        case SocketError => FailureAligned(g, s, e);
        case BodyFails => FailureAligned(g, s, e);
        case FinishClose => FailureAligned(g, s, e);
        case _ => PlainAligned(g, s, e);
      }
    }
  }

  lemma NoWithdrawal(g: Config, s: State, c: nat)
    requires Aligned(g, s)
    ensures !Enabled(g, s, Withdraw(c))
  {
    hide Positioned, InLine, Accounted, Faithful, AnswersFit, NoneLost, EncodeAll;
  }

  lemma StartAligned(g: Config)
    ensures Aligned(g, START)
  {
  }

  /** Stream alignment and no cross-delivery, over every clean run of any length: any number of
      concurrent calls, answers in any order, failures of the socket and a close at any point. */
  lemma {:induction false} AlignedThroughout(g: Config, events: seq<Event>, states: seq<State>, i: nat)
    requires IsRun(g, START, events, states) && i < |states|
    requires forall j :: 0 <= j < |events| ==> Clean(events[j])
    requires states[|events|].roster.issued <= TWO64
    ensures Aligned(g, states[i])
    decreases i
  {
    hide Aligned, Consistent, Enabled, Apply;
    StartAligned(g);
    StartConsistent();
    if i > 0 {
      AlignedThroughout(g, events, states, i - 1);
      ExactlyOnce(g, START, events, states, i - 1);
      StepAligned(g, states[i - 1], events[i - 1]);
    }
  }

  /** In such a run every value that a promise receives is the outcome of the answer to its own
      request, or reports that the connection failed. */
  lemma OwnAnswer(g: Config, events: seq<Event>, states: seq<State>, i: nat, id: uint64)
    requires IsRun(g, START, events, states) && i < |states|
    requires forall j :: 0 <= j < |events| ==> Clean(events[j])
    requires states[|events|].roster.issued <= TWO64
    requires id in states[i].ledger.promises && states[i].ledger.promises[id] != []
    ensures var s := states[i];
      var o := s.ledger.promises[id][0];
      || o.ConnectionClosed? || o.ReadFailed?
      || (id in s.link.answers && id in s.ledger.registered && s.link.answers[id].id == id
          && o == OutcomeOf(g, s.ledger.registered[id], s.link.answers[id]))
  {
    hide IsRun, OutcomeOf, FitsRequest, Positioned, InLine, Accounted, NoneLost, EncodeAll;
    FirstOf(g, START, events, states);
    AlignedThroughout(g, events, states, i);
    var o := states[i].ledger.promises[id][0];
  }

  /** Delivery: in such a run, whenever the running loop has begun all that arrived and holds
      nothing, every request that the server has answered has its own answer, and only that. */
  lemma AnswersArrive(g: Config, events: seq<Event>, states: seq<State>, i: nat, id: uint64)
    requires IsRun(g, START, events, states) && i < |states|
    requires forall j :: 0 <= j < |events| ==> Clean(events[j])
    requires states[|events|].roster.issued <= TWO64
    requires var s := states[i];
      Live(s) && (s.reader.AtGuard? || s.reader.Waiting?) && s.link.unread == [] && id in s.link.answers
    ensures var s := states[i];
      id in s.ledger.registered && id in s.ledger.promises
      && s.ledger.promises[id] == [OutcomeOf(g, s.ledger.registered[id], s.link.answers[id])]
  {
    hide IsRun, OutcomeOf, FitsRequest, Positioned, InLine, Accounted, EncodeAll, Faithful, Fates, Threads;
    FirstOf(g, START, events, states);
    AlignedThroughout(g, events, states, i);
    StartConsistent();
    ExactlyOnce(g, START, events, states, i);
    assert Ahead(states[i]) == [];
  }

  /** In such a run the loop never rejects a header. */
  lemma NoReject(g: Config, s: State)
    requires Aligned(g, s)
    ensures !Enabled(g, s, RejectHeader)
  {
    hide ReadHead, HeadOf, EncodeReply, EncodeFrames, Positioned, InLine, Accounted, Faithful, AnswersFit, NoneLost, EncodeAll;
    if s.reader.Waiting? && !s.link.broken {
      NextHead(g, s);
    }
  }

  /** The server can tell the requests apart: whatever list of requests encodes to the bytes
      written is the list of requests sent. */
  lemma WireDecodes(g: Config, s: State, decoded: seq<Request>)
    requires Aligned(g, s) && EncodeAll(decoded) == s.link.wire
    requires forall i :: 0 <= i < |s.link.sent| ==> Fits(s.link.sent[i])
    requires forall i :: 0 <= i < |decoded| ==> Fits(decoded[i])
    ensures decoded == s.link.sent
  {
    hide EncodeAll, Fits, Positioned, InLine, Accounted, Faithful, AnswersFit, NoneLost;
    SplitsOneWay(decoded, s.link.sent);
  }
}
