/** The read loop delivers: left to itself it brings every answer that has arrived to its promise. */
module Delivery {
  import opened Alignment
  import opened Bytes
  import opened Multiplexing
  import opened Responses

  /** Between two iterations of a loop that nothing has told to stop. */
  ghost predicate Idle(g: Config, s: State) {
    && Aligned(g, s) && Consistent(s) && s.roster.issued <= TWO64
    && s.reader.AtGuard? && !s.link.broken && s.connected && !s.stopReadLoop
  }

  lemma ReaderStep(g: Config, s: State, e: Event)
    requires Aligned(g, s) && Consistent(s) && s.roster.issued <= TWO64 && Enabled(g, s, e)
    requires e.Guard? || e.ReadHeader? || e.Claim? || e.Deliver?
    ensures var t := Apply(g, s, e);
      && Aligned(g, t) && Consistent(t) && t.roster == s.roster
      && t.connected == s.connected && t.stopReadLoop == s.stopReadLoop && t.link.answers == s.link.answers
      && t.ledger.registered == s.ledger.registered && t.link.broken == s.link.broken
  {
    hide Aligned, Consistent, ReadHead, Conclusion;
    assert Apply(g, s, e).roster == s.roster;
    StepAligned(g, s, e);
    StepConsistent(g, s, e);
  }

  lemma WaitingReads(g: Config, s: State)
    requires Aligned(g, s) && s.reader.Waiting? && !s.link.broken && s.link.unread != []
    ensures Enabled(g, s, ReadHeader)
    ensures var t := Apply(g, s, ReadHeader); t.reader.GotHead? && t.link.unread == s.link.unread[1..]
  {
    hide Aligned, ReadHead, HeadOf;
    NextHead(g, s);
  }

  lemma HeadClaims(g: Config, s: State)
    requires Aligned(g, s) && s.reader.GotHead?
    ensures Enabled(g, s, Claim)
    ensures var t := Apply(g, s, Claim); t.reader.Claimed? && t.link.unread == s.link.unread
  {
    hide Aligned;
    HeadIsExpected(g, s);
  }

  lemma ClaimDelivers(g: Config, s: State)
    requires Aligned(g, s) && Consistent(s) && s.reader.Claimed? && !s.link.broken
    ensures Enabled(g, s, Deliver)
    ensures var t := Apply(g, s, Deliver); t.reader.AtGuard? && t.link.unread == s.link.unread
  {
    hide Aligned, Fates, Threads, Logged, Conclusion;
    RightConclusion(g, s);
    HeldUnset(s.ledger, s.reader.head.id);
  }

  /** One iteration takes exactly one frame off the stream. */
  lemma Iterates(g: Config, s: State) returns (states: seq<State>)
    requires Idle(g, s) && s.link.unread != []
    ensures |states| == 5 && IsRun(g, s, [Guard, ReadHeader, Claim, Deliver], states)
    ensures Idle(g, states[4]) && states[4].link.unread == s.link.unread[1..]
    ensures states[4].link.answers == s.link.answers && states[4].ledger.registered == s.ledger.registered
  {
    hide Aligned, Consistent, Enabled, Apply;
    var a := AtGuardGoesOn(g, s);
    ReaderStep(g, s, Guard);
    WaitingReads(g, a);
    var b := Apply(g, a, ReadHeader);
    ReaderStep(g, a, ReadHeader);
    HeadClaims(g, b);
    var c := Apply(g, b, Claim);
    ReaderStep(g, b, Claim);
    ClaimDelivers(g, c);
    var d := Apply(g, c, Deliver);
    ReaderStep(g, c, Deliver);
    states := [s, a, b, c, d];
  }

  lemma AtGuardGoesOn(g: Config, s: State) returns (t: State)
    requires s.reader.AtGuard? && s.connected && !s.stopReadLoop
    ensures Enabled(g, s, Guard) && t == Apply(g, s, Guard) && t.reader.Waiting? && t.link == s.link
  {
    t := Apply(g, s, Guard);
  }

  predicate OfTheLoop(e: Event) { e.Guard? || e.ReadHeader? || e.Claim? || e.Deliver? }

  /** Between two iterations the loop alone can read all that has arrived, in four steps for each
      frame. At the end the stream is empty, and every request that was answered has the outcome of
      its own answer. */
  lemma {:induction false} Drains(g: Config, s: State) returns (events: seq<Event>, states: seq<State>)
    requires Idle(g, s)
    ensures |states| == |events| + 1 && IsRun(g, s, events, states) && |events| == 4 * |s.link.unread|
    ensures forall i :: 0 <= i < |events| ==> OfTheLoop(events[i])
    ensures var t := states[|events|];
      && Idle(g, t) && t.link.unread == [] && t.link.stream == []
      && t.link.answers == s.link.answers && t.ledger.registered == s.ledger.registered
      && forall id :: id in s.link.answers ==> Resolved(g, t.link, t.ledger, id)
    decreases |s.link.unread|
  {
    hide Idle, IsRun, Resolved;
    if s.link.unread == [] {
      events, states := [], [s];
      NoSteps(g, s);
      NothingLeft(g, s);
    } else {
      var once := Iterates(g, s);
      var e := [Guard, ReadHeader, Claim, Deliver];
      var more, after := Drains(g, once[4]);
      RunsJoin(g, s, e, once, more, after);
      events, states := e + more, once[..4] + after;
    }
  }

  lemma CleanRunIdle(g: Config, events: seq<Event>, states: seq<State>)
    requires IsRun(g, START, events, states) && states[|events|].roster.issued <= TWO64
    requires forall j :: 0 <= j < |events| ==> Clean(events[j])
    requires var s := states[|events|]; s.reader.AtGuard? && !s.link.broken && s.connected && !s.stopReadLoop
    ensures Idle(g, states[|events|])
  {
    hide Aligned, Consistent, Enabled, Apply;
    StartConsistent();
    AlignedThroughout(g, events, states, |events|);
    ExactlyOnce(g, START, events, states, |events|);
  }

  /** So it is after every clean run. */
  lemma CleanRunsDrain(g: Config, events: seq<Event>, states: seq<State>) returns (more: seq<Event>, after: seq<State>)
    requires IsRun(g, START, events, states) && states[|events|].roster.issued <= TWO64
    requires forall j :: 0 <= j < |events| ==> Clean(events[j])
    requires var s := states[|events|]; s.reader.AtGuard? && !s.link.broken && s.connected && !s.stopReadLoop
    ensures IsRun(g, START, events + more, after)
    ensures forall i :: 0 <= i < |more| ==> OfTheLoop(more[i])
    ensures var t := after[|events + more|];
      && t.link.stream == [] && t.link.answers == states[|events|].link.answers
      && forall id :: id in t.link.answers ==> Resolved(g, t.link, t.ledger, id)
  {
    hide Resolved, Enabled, Apply, Idle;
    CleanRunIdle(g, events, states);
    var rest;
    more, rest := Drains(g, states[|events|]);
    RunsJoin(g, START, events, states, more, rest);
    after := states[..|events|] + rest;
  }

  lemma NoSteps(g: Config, s: State)
    ensures IsRun(g, s, [], [s])
  {
  }

  lemma NothingLeft(g: Config, s: State)
    requires Idle(g, s) && s.link.unread == []
    ensures s.link.stream == []
    ensures forall id :: id in s.link.answers ==> Resolved(g, s.link, s.ledger, id)
  {
    hide Fates, Threads, Faithful, AnswersFit, InLine, Accounted, Resolved;
    assert Ahead(s) == [];
  }
}
