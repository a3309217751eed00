/** What is on the wire, over every run: each write is the request that its own call registered. */
module Writing {
  import opened Bytes
  import opened Multiplexing
  import opened Requests
  import opened Responses
  import opened Topologies

  function IntelligenceByte(i: Intelligence): byte {
    match i
    case Basic => 0x01
    case TopologyAware => 0x02
    case HashAware => 0x03
  }

  /** A server reads back all that buildRequest was given: ID, version, cache, flags, intelligence, the
      topology ID as it was stored, and the command. */
  lemma ServerReads(g: Config, id: uint64, p: Pending, topologyId: int32, rest: Blob)
    requires |p.cacheName| < TWO32 && CommandFits(p.command)
    ensures var r := ReadRequest(EncodeRequest(BuildRequest(g, id, p, topologyId)) + rest);
      && r.Ok? && r.rest == rest && r.value.command == p.command
      && var h := r.value.header;
      && h.messageId == id && h.version == g.version && h.cacheName == p.cacheName && h.flags == p.flags
      && h.intelligence == IntelligenceByte(g.intelligence)
      && ToInt32(h.topologyId) == topologyId && h.otherParams == []
  {
    hide EncodeRequest, ReadRequest, CommandFits;
    var r := BuildRequest(g, id, p, topologyId);
    ReadWrittenRequest(r, rest);
  }

  // ----- Over runs -----

  /** A request as its call registered it. */
  ghost predicate Speaks(g: Config, registered: map<uint64, Pending>, call: nat, r: Request) {
    var id := r.header.messageId;
    && id in registered && registered[id].call == call
    && r.command == registered[id].command && r.header.cacheName == registered[id].cacheName
    && r.header.flags == registered[id].flags && r.header.version == g.version
    && r.header.opcode == Opcode(r.command) && r.header.intelligence == IntelligenceByte(g.intelligence)
  }

  ghost predicate AllSpeak(g: Config, s: State) {
    && (forall c :: c in s.roster.calls && s.roster.calls[c].Built? ==>
          Speaks(g, s.ledger.registered, c, s.roster.calls[c].request))
    && (forall i :: 0 <= i < |s.link.log| ==> Speaks(g, s.ledger.registered, s.link.log[i].call, s.link.log[i].request))
  }

  lemma SpeaksStill(g: Config, registered: map<uint64, Pending>, id: uint64, p: Pending, call: nat, r: Request)
    requires Speaks(g, registered, call, r) && id !in registered
    ensures Speaks(g, registered[id := p], call, r)
  {
  }

  lemma BuildSpeaks(g: Config, registered: map<uint64, Pending>, id: uint64, topologyId: int32)
    requires id in registered
    ensures Speaks(g, registered, registered[id].call, BuildRequest(g, id, registered[id], topologyId))
  {
  }

  lemma RegisterSpeaks(g: Config, s: State, e: Event)
    requires AllSpeak(g, s) && Consistent(s) && e.Register? && Enabled(g, s, e)
    ensures AllSpeak(g, Apply(g, s, e))
  {
    hide Fates, Threads, Logged, Speaks;
    var id, p := s.roster.calls[e.call].id, Pending(e.call, e.command, e.cacheName, e.flags);
    NotRegistered(s.roster, s.ledger.registered, e.call);
    forall c, r | Speaks(g, s.ledger.registered, c, r) ensures Speaks(g, s.ledger.registered[id := p], c, r) {
      SpeaksStill(g, s.ledger.registered, id, p, c, r);
    }
  }

  lemma BuildStepSpeaks(g: Config, s: State, e: Event)
    requires AllSpeak(g, s) && Consistent(s) && e.Build? && Enabled(g, s, e)
    ensures AllSpeak(g, Apply(g, s, e))
  {
    hide Fates, Logged, Speaks, BuildRequest;
    var id := s.roster.calls[e.call].id;
    assert s.ledger.registered[id].call == e.call;
    BuildSpeaks(g, s.ledger.registered, id, s.topologyId);
  }

  lemma SendSpeaks(g: Config, s: State, e: Event)
    requires AllSpeak(g, s) && (e.SendOk? || e.SendFail?) && Enabled(g, s, e)
    ensures AllSpeak(g, Apply(g, s, e))
  {
    hide Speaks, EncodeRequest;
  }

  /** Every other step registers, builds and writes nothing. */
  lemma OtherStep(g: Config, s: State, e: Event)
    requires Enabled(g, s, e) && !e.Register? && !e.Build? && !e.SendOk? && !e.SendFail?
    ensures var t := Apply(g, s, e);
      && t.ledger.registered == s.ledger.registered && t.link.log == s.link.log
      && forall c :: c in t.roster.calls && t.roster.calls[c].Built? ==>
           c in s.roster.calls && t.roster.calls[c] == s.roster.calls[c]
  {
    hide ReadHead, Conclusion, EncodeRequest, EncodeFrame, Proper, HeadFits, BuildRequest, IdOf;
  }

  lemma StepSpeaks(g: Config, s: State, e: Event)
    requires AllSpeak(g, s) && Consistent(s) && Enabled(g, s, e)
    ensures AllSpeak(g, Apply(g, s, e))
  {
    if e.Register? {
      hide *;
      RegisterSpeaks(g, s, e);
    } else if e.Build? {
      hide *;
      BuildStepSpeaks(g, s, e);
    } else if e.SendOk? || e.SendFail? {
      hide *;
      SendSpeaks(g, s, e);
    } else {
      hide Consistent, Speaks, Enabled, Apply;
      OtherStep(g, s, e);
    }
  }

  /** In every run, whatever the server sends and however sends fail: each write on the wire is of the
      request that its own call registered, under the ID of that call. */
  lemma {:induction false} WritesAreRegistered(g: Config, events: seq<Event>, states: seq<State>, i: nat)
    requires IsRun(g, START, events, states) && i < |states| && states[|events|].roster.issued <= TWO64
    ensures AllSpeak(g, states[i]) && Logged(states[i].link, states[i].roster)
    decreases i
  {
    hide AllSpeak, Enabled, Apply, Logged;
    StartConsistent();
    ExactlyOnce(g, START, events, states, i);
    ConsistentLogs(states[i]);
    if i > 0 {
      WritesAreRegistered(g, events, states, i - 1);
      ExactlyOnce(g, START, events, states, i - 1);
      StepSpeaks(g, states[i - 1], events[i - 1]);
    } else {
      StartSpeaks(g);
    }
  }

  lemma ConsistentLogs(s: State)
    requires Consistent(s)
    ensures Logged(s.link, s.roster)
  {
  }

  lemma StartSpeaks(g: Config)
    ensures AllSpeak(g, START)
  {
  }
}
