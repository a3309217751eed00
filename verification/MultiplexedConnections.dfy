/** The code of src/transport/MultiplexedConnection.cpp between two accesses to shared state, each
    piece tied to the step of the transition system that it performs. */
module MultiplexedConnections {
  import opened Bytes
  import opened Connections
  import opened Multiplexing
  import opened Requests
  import opened Responses
  import opened Topologies

  datatype Executed = Future(id: uint64) | BeforeSend | AfterSend

  /** What one iteration of the read loop reads and changes. */
  datatype Snapshot = Snapshot(connected: bool, topologyId: int32, books: Ledger, stream: Blob)

  /** One iteration. A readable response to a waiting request resolves that request and leaves the
      stream behind its body; a response without request changes nothing but the stream and the
      topology ID; a stream that ends or makes no sense fails everything that waits, and disconnects
      unless the loop was told to stop. */
  ghost predicate OnceThrough(g: Config, stop: bool, v: Snapshot, w: Snapshot, goesOn: bool)
    requires v.books.pending.Keys <= v.books.promises.Keys
  {
    var p := ReadHead(v.stream, g.intelligence);
    && goesOn == p.Ok?
    && w.connected == (v.connected && (p.Ok? || stop))
    && w.topologyId == (if p.Ok? && p.value.topology.Some? then p.value.topology.value.id else v.topologyId)
    && (!p.Ok? ==> w.books == AllClosed(v.books))
    && (p.Ok? && p.value.id !in v.books.pending ==> w.books == v.books && w.stream == p.rest)
    && (p.Ok? && p.value.id in v.books.pending ==>
          var c := Conclusion(g, p.value, v.books.pending[p.value.id], p.rest);
          && w.books == Settled(Taken(v.books, p.value.id), p.value.id, if c.Some? then c.value.0 else ReadFailed)
          && (c.Some? ==> w.stream == c.value.1))
  }

  function ShotOf(s: State): Snapshot { Snapshot(s.connected, s.topologyId, s.ledger, s.link.stream) }

  /** The steps of the transition system do what the code of an iteration does: from a loop that waits for
      a response, its own steps reach the next guard, or the end of the loop, with the same effect. */
  lemma StepsAreReadOnce(g: Config, s: State) returns (events: seq<Event>, states: seq<State>)
    requires s.reader.Waiting? && !s.link.broken && s.ledger.pending.Keys <= s.ledger.promises.Keys
    ensures |states| == |events| + 1 && IsRun(g, s, events, states)
    ensures forall i :: 0 <= i < |events| ==>
      var e := events[i]; e.ReadHeader? || e.RejectHeader? || e.SocketError? || e.Claim? || e.Deliver? || e.BodyFails?
    ensures var t := states[|events|];
      && OnceThrough(g, s.stopReadLoop, ShotOf(s), ShotOf(t), t.reader.AtGuard?)
      && (t.reader.AtGuard? || t.reader.Stopped?) && t.stopReadLoop == s.stopReadLoop && t.roster == s.roster
  {
    hide ReadHead, Conclusion, IsRun, Enabled, Apply, OnceThrough;
    if ReadHead(s.link.stream, g.intelligence).Ok? {
      events, states := HeaderStepsAreReadOnce(g, s);
    } else {
      events, states := FailureStepsAreReadOnce(g, s);
    }
  }

  lemma FailureStepsAreReadOnce(g: Config, s: State) returns (events: seq<Event>, states: seq<State>)
    requires s.reader.Waiting? && !s.link.broken && s.ledger.pending.Keys <= s.ledger.promises.Keys
    requires !ReadHead(s.link.stream, g.intelligence).Ok?
    ensures |states| == 2 && |events| == 1 && IsRun(g, s, events, states) && (events[0].RejectHeader? || events[0].SocketError?)
    ensures var t := states[1];
      && OnceThrough(g, s.stopReadLoop, ShotOf(s), ShotOf(t), t.reader.AtGuard?)
      && t.reader.Stopped? && t.stopReadLoop == s.stopReadLoop && t.roster == s.roster
  {
    hide ReadHead, Conclusion;
    var e := if ReadHead(s.link.stream, g.intelligence).Bad? then RejectHeader else SocketError;
    events, states := [e], [s, Apply(g, s, e)];
  }

  lemma HeaderStepsAreReadOnce(g: Config, s: State) returns (events: seq<Event>, states: seq<State>)
    requires s.reader.Waiting? && !s.link.broken && s.ledger.pending.Keys <= s.ledger.promises.Keys
    requires ReadHead(s.link.stream, g.intelligence).Ok?
    ensures 2 <= |events| <= 3 && |states| == |events| + 1 && IsRun(g, s, events, states)
    ensures events[0].ReadHeader? && events[1].Claim? && (|events| == 3 ==> events[2].Deliver? || events[2].BodyFails?)
    ensures var t := states[|events|];
      && OnceThrough(g, s.stopReadLoop, ShotOf(s), ShotOf(t), t.reader.AtGuard?)
      && t.reader.AtGuard? && t.stopReadLoop == s.stopReadLoop && t.roster == s.roster
  {
    hide ReadHead, Conclusion, IsRun, Enabled, Apply;
    var p := ReadHead(s.link.stream, g.intelligence);
    var b;
    states, b := ReadAndClaim(g, s);
    events := [ReadHeader, Claim];
    if p.value.id in s.ledger.pending {
      var e, t := ConcludeStep(g, b, p.value, s.ledger.pending[p.value.id], p.rest);
      OneStep(g, b, e);
      RunsJoin(g, s, events, states, [e], [b, t]);
      events, states := events + [e], states[..2] + [b, t];
    }
  }

  lemma ReadAndClaim(g: Config, s: State) returns (states: seq<State>, b: State)
    requires s.reader.Waiting? && !s.link.broken && ReadHead(s.link.stream, g.intelligence).Ok?
    ensures |states| == 3 && states[2] == b && IsRun(g, s, [ReadHeader, Claim], states)
    ensures var p := ReadHead(s.link.stream, g.intelligence);
      && b.connected == s.connected && b.stopReadLoop == s.stopReadLoop && b.roster == s.roster && !b.link.broken
      && b.topologyId == (if p.value.topology.Some? then p.value.topology.value.id else s.topologyId)
      && b.link.stream == p.rest
      && if p.value.id in s.ledger.pending
         then b.reader == Claimed(p.value, s.ledger.pending[p.value.id]) && b.ledger == Taken(s.ledger, p.value.id)
         else b.reader.AtGuard? && b.ledger == s.ledger
  {
    hide ReadHead;
    var a := Apply(g, s, ReadHeader);
    b := Apply(g, a, Claim);
    states := [s, a, b];
  }

  lemma ConcludeStep(g: Config, s: State, h: Head, p: Pending, rest: Blob) returns (e: Event, t: State)
    requires s.reader == Claimed(h, p) && s.link.stream == rest && !s.link.broken && h.id in s.ledger.promises
    ensures (e.Deliver? || e.BodyFails?) && Enabled(g, s, e) && t == Apply(g, s, e)
    ensures var c := Conclusion(g, h, p, rest);
      && t.ledger == Settled(s.ledger, h.id, if c.Some? then c.value.0 else ReadFailed)
      && (c.Some? ==> t.link.stream == c.value.1)
    ensures t.reader.AtGuard? && t.connected == s.connected && t.stopReadLoop == s.stopReadLoop
    ensures t.roster == s.roster && t.topologyId == s.topologyId
  {
    hide Conclusion;
    ConcludesOrFails(g, h, p, rest);
    e := if Conclusion(g, h, p, rest).Some? then Deliver else BodyFails;
    t := Apply(g, s, e);
  }

  lemma ConcludesOrFails(g: Config, h: Head, p: Pending, stream: Blob)
    ensures Conclusion(g, h, p, stream).None? ==> ReadsBody(h, p)
  {
  }

  /** The steps of the transition system do what `execute` does: a call on a disconnected connection is
      refused and nothing else happens; any other call enters its request under the next ID and writes it,
      completely or, if the send fails after n bytes, up to there and takes the entry out again. */
  lemma StepsAreExecute(g: Config, s: State, p: Pending, n: nat) returns (events: seq<Event>, states: seq<State>)
    requires p.call !in s.roster.calls
    ensures |states| == |events| + 1 && IsRun(g, s, events, states)
    ensures var t, id := states[|events|], IdOf(s.roster.issued);
      var bytes := EncodeRequest(BuildRequest(g, id, p, s.topologyId));
      && t.connected == s.connected && t.topologyId == s.topologyId && t.link.stream == s.link.stream
      && p.call in t.roster.calls
      && if !s.connected then
           t.roster.calls[p.call] == Refused && t.ledger == s.ledger && t.link.wire == s.link.wire
           && t.roster.issued == s.roster.issued
         else
           && t.roster.issued == s.roster.issued + 1
           && if n >= |bytes| then
                t.roster.calls[p.call] == Returned(id) && t.ledger == Entered(s.ledger, id, p)
                && t.link.wire == s.link.wire + bytes
              else
                t.roster.calls[p.call] == Failed(id) && t.ledger == Erased(Entered(s.ledger, id, p), id)
                && t.link.wire == s.link.wire + bytes[..n]
  {
    hide IsRun, BuildRequest, EncodeRequest, IdOf;
    if !s.connected {
      OneStep(g, s, Check(p.call));
      events, states := [Check(p.call)], [s, Apply(g, s, Check(p.call))];
    } else {
      var start := CallGetsThere(g, s, p);
      var more, after := Sends(g, start[4], p.call, n);
      RunsJoin(g, s, Calling(p), start, more, after);
      events, states := Calling(p) + more, start[..4] + after;
    }
  }

  lemma Sends(g: Config, s: State, c: nat, n: nat) returns (events: seq<Event>, states: seq<State>)
    requires c in s.roster.calls && s.roster.calls[c].Built?
    ensures |states| == |events| + 1 && IsRun(g, s, events, states)
    ensures var t, id, bytes := states[|events|], s.roster.calls[c].id, EncodeRequest(s.roster.calls[c].request);
      && t.connected == s.connected && t.topologyId == s.topologyId && t.link.stream == s.link.stream
      && t.roster.issued == s.roster.issued && c in t.roster.calls
      && if n >= |bytes|
         then t.roster.calls[c] == Returned(id) && t.ledger == s.ledger && t.link.wire == s.link.wire + bytes
         else t.roster.calls[c] == Failed(id) && t.ledger == Erased(s.ledger, id) && t.link.wire == s.link.wire + bytes[..n]
  {
    hide EncodeRequest;
    if n >= |EncodeRequest(s.roster.calls[c].request)| {
      events, states := [SendOk(c)], [s, Apply(g, s, SendOk(c))];
    } else {
      var a := Apply(g, s, SendFail(c, n));
      events, states := [SendFail(c, n), Withdraw(c)], [s, a, Apply(g, a, Withdraw(c))];
    }
  }

  class MultiplexedConnection {
    const config: Config
    const connection: Connection
    var connected: bool
    var stopReadLoop: bool
    var nextMessageId: uint64
    var topologyId: int32
    var pending: map<uint64, Pending>
    var promises: map<uint64, seq<Outcome>>
    ghost var held: Option<uint64>
    ghost var registered: map<uint64, Pending>
    ghost var withdrawn: set<uint64>

    ghost function Books(): Ledger
      reads this
    {
      Ledger(pending, held, promises, registered, withdrawn)
    }

    constructor (config: Config, connection: Connection)
      ensures this.config == config && this.connection == connection
      ensures connected && !stopReadLoop && nextMessageId == 0 && topologyId == 0
      ensures Books() == START.ledger
    {
      this.config, this.connection := config, connection;
      connected, stopReadLoop, nextMessageId, topologyId := true, false, 0, 0;
      pending, promises, held, registered, withdrawn := map[], map[], None, map[], {};
    }

    /** buildRequest. */
    method Build(id: uint64, p: Pending) returns (r: Blob)
      ensures r == EncodeRequest(BuildRequest(config, id, p, topologyId))
    {
      hide EncodeHeader, EncodeBody;
      var request := BuildRequest(config, id, p, topologyId);
      r := WriteRequestHeader([], request.header);
      var body := BuildBody(request.command);
      assert [] + EncodeHeader(request.header) == EncodeHeader(request.header);
      r := r + body;
    }

    /** execute. A refused call changes nothing; a failed send takes the entry back out. */
    method Execute(p: Pending) returns (r: Executed)
      modifies this, connection
      ensures !old(connected) <==> r.BeforeSend?
      ensures r.BeforeSend? ==>
        Books() == old(Books()) && connection.outgoing == old(connection.outgoing) && nextMessageId == old(nextMessageId)
      ensures !r.BeforeSend? ==> nextMessageId == (old(nextMessageId) + 1) % TWO64
      ensures r.Future? ==>
        && r.id == old(nextMessageId)
        && Books() == Entered(old(Books()), r.id, p)
        && connection.outgoing
           == old(connection.outgoing) + EncodeRequest(BuildRequest(config, r.id, p, topologyId))
      ensures r.AfterSend? ==>
        var id := old(nextMessageId);
        && Books() == Erased(Entered(old(Books()), id, p), id)
        && var bytes := EncodeRequest(BuildRequest(config, id, p, topologyId));
           exists k :: 0 <= k < |bytes| && connection.outgoing == old(connection.outgoing) + bytes[..k]
      ensures topologyId == old(topologyId) && connected == old(connected) && stopReadLoop == old(stopReadLoop)
      ensures connection.incoming == old(connection.incoming)
    {
      hide EncodeRequest, BuildRequest;
      if !connected {
        return BeforeSend;
      }
      var msgId := nextMessageId;
      nextMessageId := (nextMessageId + 1) % TWO64;

      pending := pending[msgId := p];
      promises := promises[msgId := []];
      registered := registered[msgId := p];

      var completeRequest := Build(msgId, p);

      var ok := connection.Send(completeRequest);
      if !ok {
        RequestNotEmpty(BuildRequest(config, msgId, p, topologyId));
        assert old(connection.outgoing) + completeRequest[..0] == old(connection.outgoing);
        withdrawn := withdrawn + {msgId};
        pending := pending - {msgId};
        return AfterSend;
      }
      r := Future(msgId);
    }

    /** The section of the read loop under pendingMutex_. */
    method ClaimPending(id: uint64) returns (r: Option<Pending>)
      modifies this`pending, this`held
      ensures r.Some? <==> id in old(pending)
      ensures r.Some? ==> r.value == old(pending)[id] && Books() == Taken(old(Books()), id)
      ensures r.None? ==> Books() == old(Books())
    {
      if id !in pending {
        return None;
      }
      r := Some(pending[id]);
      pending := pending - {id};
      held := Some(id);
    }

    method Resolve(id: uint64, o: Outcome)
      requires id in promises
      modifies this`promises, this`held
      ensures Books() == Settled(old(Books()), id, o)
    {
      promises := promises[id := promises[id] + [o]];
      held := None;
    }

    /** closeAllPending: one promise after the other, then the map is cleared. */
    method CloseAllPending()
      requires pending.Keys <= promises.Keys
      modifies this`pending, this`promises
      ensures Books() == AllClosed(old(Books()))
    {
      var unseen := pending.Keys;
      while unseen != {}
        invariant unseen <= pending.Keys && pending == old(pending)
        invariant promises.Keys == old(promises).Keys
        invariant forall id :: id in promises ==>
          promises[id] == if id in pending && id !in unseen
                          then old(promises)[id] + [ConnectionClosed] else old(promises)[id]
        decreases unseen
      {
        var id :| id in unseen;
        unseen := unseen - {id};
        promises := promises[id := promises[id] + [ConnectionClosed]];
      }
      pending := map[];
    }

    /** close, with no other thread left: the read loop has been joined. */
    method Close()
      requires pending.Keys <= promises.Keys
      modifies this`stopReadLoop, this`connected, this`pending, this`promises
      ensures stopReadLoop && !connected && Books() == AllClosed(old(Books()))
    {
      stopReadLoop := true;
      connected := false;
      CloseAllPending();
    }

    /** From the error check to the response: what the loop makes of a claimed request. `None` is a
        body that never fully arrives, which the parser reports as an untyped failure. */
    method Conclude(h: Head, p: Pending) returns (o: Option<Outcome>)
      requires connection.connected
      modifies connection`incoming
      ensures var c := Conclusion(config, h, p, old(connection.incoming));
        if c.Some? then o == Some(c.value.0) && connection.incoming == c.value.1 else o == None
    {
      hide ParseBody, MeansFailure;
      if h.error.Some? {
        return Some(ServerError(h.status, h.error.value, h.topology));
      }
      if h.opcode != ResponseOpcode(p.command) {
        return Some(OpcodeMismatch(h.opcode));
      }
      var body := ReceiveBody(connection, p.command, h.status, config.version);
      if body.Ok? {
        return Some(Answered(h.status, body.value, h.topology));
      }
      if body.Bad? {
ThrowsIff(p.command, h.status, config.version, old(connection.incoming));
        return Some(ParserThrew(h.status));
      }
      return None;
    }

    ghost function Shot(): Snapshot
      reads this, connection
    {
      Snapshot(connected, topologyId, Books(), connection.incoming)
    }

    /** One iteration of the read loop, with no other thread in between. */
    method ReadOnce() returns (goesOn: bool)
      requires connection.connected && pending.Keys <= promises.Keys
      modifies this, connection`incoming
      ensures connection.connected
      ensures OnceThrough(config, stopReadLoop, old(Shot()), Shot(), goesOn)
      ensures stopReadLoop == old(stopReadLoop) && nextMessageId == old(nextMessageId)
    {
      hide ReadHead, Conclusion;
      var ok, h, _ := ReceiveHead(connection, config.intelligence);
      if !ok {
        if !stopReadLoop {
          connected := false;
        }
        CloseAllPending();
        return false;
      }
      if h.topology.Some? {
        topologyId := h.topology.value.id;
      }
      var p := ClaimPending(h.id);
      if p.None? {
        return true;
      }
      var o := Conclude(h, p.value);
      Resolve(h.id, if o.Some? then o.value else ReadFailed);
      goesOn := true;
    }
  }
}
