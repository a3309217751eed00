/** One multiplexed connection as a transition system: src/transport/MultiplexedConnection.cpp.

    Any number of calls of `execute`, the read loop and one `close` interleave. A step is one access
    to shared state: an atomic variable, a section under pendingMutex_, a write under writeMutex_, or
    a stretch of reading, since only the read loop reads. Four kinds of step join more than one access.

    - Guard loads stopReadLoop_ and then connected_. While the loop is at its guard nothing clears
      connected_, since `close` does so after joining the loop; a stop set between the two loads is
      one set after the step.
    - ReadHeader ends with the store to topologyId_. Only `buildRequest` reads that variable, so a
      build between the reading and the store is a build before the step.
    - RejectHeader and SocketError test stopReadLoop_, clear connected_ and then fail what is pending.
      In between, other threads can check connected_ (a call that is refused there is refused after
      the step), register (an entry made there is made before the step, and failed by it), build,
      send, erase their own entries or set stopReadLoop_ (which comes after the step).
    - FinishClose closes the socket, clears connected_ and fails what is pending. The read loop has
      been joined, so the same holds; a send that fails on the closed socket is a SendFail, which is
      possible at any time. */
module Multiplexing {
  import opened Bytes
  import opened Requests
  import opened Responses
  import opened Topologies

  // ----- State -----

  datatype Config = Config(version: byte, intelligence: Intelligence)

  /** PendingRequest. The command stands for the body parser and the expected opcode; `call` says
      whose promise it is. */
  datatype Pending = Pending(call: nat, command: Command, cacheName: Blob, flags: uint32)

  /** What a promise is given. */
  datatype Outcome =
    | Answered(status: byte, body: Body, topology: Option<Topology>)
    | ServerError(status: byte, message: Blob, topology: Option<Topology>)
    | OpcodeMismatch(opcode: byte)
    | ParserThrew(status: byte)
    | ReadFailed
    | ConnectionClosed

  /** How far a call of `execute` has got. `Refused` is its exception with phase BeforeSend,
      `Failed` the one with phase AfterSend, which follows `Unsent` once the entry is erased. */
  datatype Call =
    | Checked
    | Fetched(id: uint64)
    | Registered(id: uint64)
    | Built(id: uint64, request: Request)
    | Returned(id: uint64)
    | Unsent(id: uint64)
    | Failed(id: uint64)
    | Refused

  predicate HasId(c: Call) { !c.Checked? && !c.Refused? }

  /** Where the read loop is: at its guard, reading a header, looking for the request, or holding
      it. */
  datatype Reader = AtGuard | Waiting | GotHead(head: Head) | Claimed(head: Head, request: Pending) | Stopped

  datatype Closing = Open | StopSet | Joined | Closed

  /** The map pending_ and the promises. `held` is the request that the read loop has taken out of
      the map and not yet resolved; `promises` lists every value set on each promise; `registered`
      and `withdrawn` record history. */
  datatype Ledger = Ledger(
    pending: map<uint64, Pending>,
    held: Option<uint64>,
    promises: map<uint64, seq<Outcome>>,
    registered: map<uint64, Pending>,
    withdrawn: set<uint64>)

  /** The calls of `execute` and the message counter; `owner` records which call got which ID. */
  datatype Roster = Roster(calls: map<nat, Call>, issued: nat, owner: map<uint64, nat>)

  /** One use of the socket: which call wrote how many bytes of its request. */
  datatype Write = Write(call: nat, request: Request, count: nat)

  /** The socket: `stream` is what the server has sent and the loop has not read, `wire` what the
      client has written. The other fields record every use of the socket, the requests written
      completely, the answers given, all whole frames that arrived, those not yet begun and the one
      being read. */
  datatype Link = Link(
    stream: Blob,
    broken: bool,
    wire: Blob,
    log: seq<Write>,
    sent: seq<Request>,
    answers: map<uint64, Frame>,
    arrived: seq<Frame>,
    unread: seq<Frame>,
    current: Option<Frame>)

  datatype State = State(
    connected: bool,
    stopReadLoop: bool,
    closing: Closing,
    reader: Reader,
    topologyId: int32,
    ledger: Ledger,
    roster: Roster,
    link: Link)

  /** Just after `connect`. */
  const START := State(true, false, Open, AtGuard, 0,
                       Ledger(map[], None, map[], map[], {}),
                       Roster(map[], 0, map[]),
                       Link([], false, [], [], [], map[], [], [], None))

  // ----- What happens to the ledger -----

  function Entered(l: Ledger, id: uint64, p: Pending): Ledger {
    l.(pending := l.pending[id := p], registered := l.registered[id := p], promises := l.promises[id := []])
  }

  function Taken(l: Ledger, id: uint64): Ledger {
    l.(pending := l.pending - {id}, held := Some(id))
  }

  function Settled(l: Ledger, id: uint64, o: Outcome): Ledger
    requires id in l.promises
  {
    l.(held := None, promises := l.promises[id := l.promises[id] + [o]])
  }

  function Erased(l: Ledger, id: uint64): Ledger {
    l.(pending := l.pending - {id}, withdrawn := if id in l.pending then l.withdrawn + {id} else l.withdrawn)
  }

  /** closeAllPending. */
  function AllClosed(l: Ledger): Ledger {
    l.(pending := map[],
       promises := map id | id in l.promises ::
         if id in l.pending then l.promises[id] + [ConnectionClosed] else l.promises[id])
  }

  // ----- Steps -----

  datatype Event =
    // execute
    | Check(call: nat)
    | FetchId(call: nat)
    | Register(call: nat, command: Command, cacheName: Blob, flags: uint32)
    | Build(call: nat)
    | SendOk(call: nat)
    | SendFail(call: nat, written: nat)
    | Withdraw(call: nat)
    // the server
    | Answer(frame: Frame)
    | Emit(frame: Frame)
    | Noise(bytes: Blob)
    // the read loop
    | Guard
    | ReadHeader
    | RejectHeader
    | SocketError
    | Claim
    | Deliver
    | BodyFails
    // close
    | SetStop
    | Join
    | FinishClose

  /** nextMessageId_++ on an unsigned 64-bit counter. */
  function IdOf(n: nat): uint64 { n % TWO64 }

  function BuildRequest(g: Config, id: uint64, p: Pending, topologyId: int32): Request {
    Request(Header(id, g.version, Opcode(p.command), p.cacheName, p.flags,
                   match g.intelligence case Basic => 1 case TopologyAware => 2 case HashAware => 3,
                   ToUint32(topologyId), 0, 0, []),
            p.command)
  }

  /** A well-formed answer: the request was received, is answered for the first time, and gets its
      own ID, its expected opcode and a fitting body, or an error. */
  ghost predicate Proper(g: Config, s: State, f: Frame) {
    && f.id in s.ledger.registered && f.id !in s.link.answers
    && (exists i :: 0 <= i < |s.link.sent| && s.link.sent[i].header.messageId == f.id)
    && FitsRequest(g, s.ledger.registered[f.id], f)
  }

  ghost predicate FitsRequest(g: Config, p: Pending, f: Frame) {
    && HeadFits(f, g.intelligence)
    && (f.opcode == ERROR_RESPONSE ==> f.body == NoBody)
    && (f.opcode != ERROR_RESPONSE ==>
          f.opcode == ReplyOpcode(p.command) && BodyFits(p.command, f.status, g.version, f.body))
  }

  /** The outcome the read loop computes once it holds the request; `None` while the body has not
      fully arrived, and where its length is not defined. */
  function Conclusion(g: Config, h: Head, p: Pending, stream: Blob): Option<(Outcome, Blob)> {
    if h.error.Some? then Some((ServerError(h.status, h.error.value, h.topology), stream))
    else if h.opcode != ResponseOpcode(p.command) then Some((OpcodeMismatch(h.opcode), stream))
    else
      match ParseBody(p.command, h.status, g.version, stream)
      case Ok(body, rest) => Some((Answered(h.status, body, h.topology), rest))
      case Bad => Some((ParserThrew(h.status), stream))
      case _ => None
  }

  predicate ReadsBody(h: Head, p: Pending) {
    h.error.None? && h.opcode == ResponseOpcode(p.command)
  }

  /** The catch block around the body of the loop. */
  function ReaderFails(s: State): State {
    s.(connected := if s.stopReadLoop then s.connected else false, reader := Stopped,
       ledger := AllClosed(s.ledger))
  }

  predicate InPhase(s: State, c: nat, phase: Call -> bool) {
    c in s.roster.calls && phase(s.roster.calls[c])
  }

  ghost predicate Enabled(g: Config, s: State, e: Event) {
    match e
    case Check(c) => c !in s.roster.calls
    case FetchId(c) => InPhase(s, c, (x: Call) => x.Checked?)
    case Register(c, _, _, _) => InPhase(s, c, (x: Call) => x.Fetched?)
    case Build(c) => InPhase(s, c, (x: Call) => x.Registered?) && s.roster.calls[c].id in s.ledger.registered
    case SendOk(c) => InPhase(s, c, (x: Call) => x.Built?)
    case SendFail(c, n) =>
      InPhase(s, c, (x: Call) => x.Built?) && n < |EncodeRequest(s.roster.calls[c].request)|
    case Withdraw(c) => InPhase(s, c, (x: Call) => x.Unsent?)
    case Answer(f) => Proper(g, s, f)
    case Emit(f) => HeadFits(f, g.intelligence)
    case Noise(_) => true
    case Guard => s.reader.AtGuard?
    case ReadHeader => s.reader.Waiting? && !s.link.broken && ReadHead(s.link.stream, g.intelligence).Ok?
    case RejectHeader => s.reader.Waiting? && !s.link.broken && ReadHead(s.link.stream, g.intelligence).Bad?
    case SocketError => s.reader.Waiting?
    case Claim => s.reader.GotHead?
    case Deliver =>
      && s.reader.Claimed? && s.reader.head.id in s.ledger.promises
      && (s.link.broken ==> !ReadsBody(s.reader.head, s.reader.request))
      && Conclusion(g, s.reader.head, s.reader.request, s.link.stream).Some?
    case BodyFails =>
      s.reader.Claimed? && s.reader.head.id in s.ledger.promises && ReadsBody(s.reader.head, s.reader.request)
    case SetStop => s.closing.Open?
    case Join => s.closing.StopSet? && s.reader.Stopped?
    case FinishClose => s.closing.Joined?
  }

  function Moved(r: Roster, c: nat, to: Call): Roster { r.(calls := r.calls[c := to]) }

  function Begun(k: Link, rest: Blob): Link {
    k.(stream := rest, current := if k.unread == [] then None else Some(k.unread[0]),
       unread := if k.unread == [] then [] else k.unread[1..])
  }

  function Arrives(g: Config, k: Link, f: Frame): Link {
    k.(stream := k.stream + EncodeFrame(f, g.intelligence), arrived := k.arrived + [f], unread := k.unread + [f])
  }

  ghost function Apply(g: Config, s: State, e: Event): State
    requires Enabled(g, s, e)
  {
    match e
    case Check(c) => s.(roster := Moved(s.roster, c, if s.connected then Checked else Refused))
    case FetchId(c) =>
      var id := IdOf(s.roster.issued);
      s.(roster := Moved(s.roster, c, Fetched(id)).(issued := s.roster.issued + 1,
                                                    owner := s.roster.owner[id := c]))
    case Register(c, command, cacheName, flags) =>
      var id := s.roster.calls[c].id;
      s.(roster := Moved(s.roster, c, Registered(id)),
         ledger := Entered(s.ledger, id, Pending(c, command, cacheName, flags)))
    case Build(c) =>
      var id := s.roster.calls[c].id;
      s.(roster := Moved(s.roster, c, Built(id, BuildRequest(g, id, s.ledger.registered[id], s.topologyId))))
    case SendOk(c) =>
      var r := s.roster.calls[c].request;
      s.(roster := Moved(s.roster, c, Returned(s.roster.calls[c].id)),
         link := s.link.(wire := s.link.wire + EncodeRequest(r), sent := s.link.sent + [r],
                         log := s.link.log + [Write(c, r, |EncodeRequest(r)|)]))
    case SendFail(c, n) =>
      var r := s.roster.calls[c].request;
      s.(roster := Moved(s.roster, c, Unsent(s.roster.calls[c].id)),
         link := s.link.(wire := s.link.wire + EncodeRequest(r)[..n], log := s.link.log + [Write(c, r, n)]))
    case Withdraw(c) =>
      var id := s.roster.calls[c].id;
      s.(roster := Moved(s.roster, c, Failed(id)), ledger := Erased(s.ledger, id))
    case Answer(f) => s.(link := Arrives(g, s.link, f).(answers := s.link.answers[f.id := f]))
    case Emit(f) => s.(link := Arrives(g, s.link, f))
    case Noise(bytes) => s.(link := s.link.(stream := s.link.stream + bytes))
    case Guard => s.(reader := if !s.stopReadLoop && s.connected then Waiting else Stopped)
    case ReadHeader =>
      var Ok(h, rest) := ReadHead(s.link.stream, g.intelligence);
      s.(reader := GotHead(h), link := Begun(s.link, rest),
         topologyId := if h.topology.Some? then h.topology.value.id else s.topologyId)
    case RejectHeader => ReaderFails(s)
    case SocketError => ReaderFails(s.(link := s.link.(broken := true)))
    case Claim =>
      var h := s.reader.head;
      if h.id in s.ledger.pending
      then s.(reader := Claimed(h, s.ledger.pending[h.id]), ledger := Taken(s.ledger, h.id))
      else s.(reader := AtGuard, link := s.link.(current := None))
    case Deliver =>
      var (o, rest) := Conclusion(g, s.reader.head, s.reader.request, s.link.stream).value;
      s.(reader := AtGuard, ledger := Settled(s.ledger, s.reader.head.id, o),
         link := s.link.(stream := rest, current := None))
    case BodyFails =>
      s.(reader := AtGuard, ledger := Settled(s.ledger, s.reader.head.id, ReadFailed),
         link := s.link.(broken := true, current := None))
    case SetStop => s.(stopReadLoop := true, closing := StopSet)
    case Join => s.(closing := Joined)
    case FinishClose => s.(connected := false, closing := Closed, ledger := AllClosed(s.ledger))
  }

  // ----- Every registered request has exactly one fate -----

  /** In exactly one place: waiting, held by the read loop, resolved once, or withdrawn. */
  ghost predicate OneFate(l: Ledger, id: uint64)
    requires id in l.promises
  {
    && |l.promises[id]| <= 1
    && (id in l.pending ==> l.held != Some(id) && l.promises[id] == [] && id !in l.withdrawn)
    && (l.held == Some(id) ==> l.promises[id] == [] && id !in l.withdrawn)
    && (l.promises[id] != [] ==> id !in l.withdrawn)
    && (id in l.pending || l.held == Some(id) || l.promises[id] != [] || id in l.withdrawn)
  }

  ghost predicate Fates(l: Ledger) {
    && l.promises.Keys == l.registered.Keys
    && (forall id :: id in l.promises ==> OneFate(l, id))
    && (forall id :: id in l.pending ==> id in l.registered && l.pending[id] == l.registered[id])
    && (l.held.Some? ==> l.held.value in l.registered)
    && l.withdrawn <= l.registered.Keys
  }

  lemma EnteredFates(l: Ledger, id: uint64, p: Pending)
    requires Fates(l) && id !in l.registered
    ensures Fates(Entered(l, id, p))
  {
    var m := Entered(l, id, p);
    forall i | i in m.promises ensures OneFate(m, i) {
      if i != id {
        assert OneFate(l, i);
      }
    }
  }

  lemma TakenFates(l: Ledger, id: uint64)
    requires Fates(l) && id in l.pending && l.held.None?
    ensures Fates(Taken(l, id))
  {
    var m := Taken(l, id);
    forall i | i in m.promises ensures OneFate(m, i) {
      assert OneFate(l, i);
    }
  }

  lemma SettledFates(l: Ledger, id: uint64, o: Outcome)
    requires Fates(l) && l.held == Some(id)
    ensures Fates(Settled(l, id, o))
  {
    var m := Settled(l, id, o);
    forall i | i in m.promises ensures OneFate(m, i) {
      assert OneFate(l, i);
    }
  }

  lemma ErasedFates(l: Ledger, id: uint64)
    requires Fates(l)
    ensures Fates(Erased(l, id))
  {
    var m := Erased(l, id);
    forall i | i in m.promises ensures OneFate(m, i) {
      assert OneFate(l, i);
    }
  }

  lemma AllClosedFates(l: Ledger)
    requires Fates(l)
    ensures Fates(AllClosed(l)) && AllClosed(l).pending == map[]
  {
    var m := AllClosed(l);
    forall i | i in m.promises ensures OneFate(m, i) {
      assert OneFate(l, i);
    }
  }

  /** IDs identify calls, and a call that was refused has registered nothing. */
  ghost predicate Threads(r: Roster, registered: map<uint64, Pending>) {
    && (forall id :: id in r.owner ==> id < r.issued)
    && (forall c :: c in r.calls && HasId(r.calls[c]) ==>
          && r.calls[c].id in r.owner && r.owner[r.calls[c].id] == c
          && (r.calls[c].Fetched? <==> r.calls[c].id !in registered))
    && (forall id :: id in registered ==>
          && id in r.owner && registered[id].call == r.owner[id]
          && r.owner[id] in r.calls && HasId(r.calls[r.owner[id]]) && r.calls[r.owner[id]].id == id)
  }

  // ----- Who wrote what -----

  /** What a log says was written. */
  function Written(log: seq<Write>): Blob
    requires forall i :: 0 <= i < |log| ==> log[i].count <= |EncodeRequest(log[i].request)|
  {
    if log == [] then []
    else
      var w := log[|log| - 1];
      Written(log[..|log| - 1]) + EncodeRequest(w.request)[..w.count]
  }

  predicate HasWritten(c: Call) { c.Returned? || c.Unsent? || c.Failed? }

  /** Every byte on the wire is accounted for: the wire is what the log says, and the log has one entry
      for each call that got as far as sending, and for no other. */
  ghost predicate Logged(k: Link, r: Roster) {
    && (forall i :: 0 <= i < |k.log| ==> k.log[i].count <= |EncodeRequest(k.log[i].request)|)
    && k.wire == Written(k.log)
    && (forall i :: 0 <= i < |k.log| ==> k.log[i].call in r.calls && HasWritten(r.calls[k.log[i].call]))
    && (forall i, j :: 0 <= i < j < |k.log| ==> k.log[i].call != k.log[j].call)
    && (forall c :: c in r.calls && HasWritten(r.calls[c]) ==> exists i :: 0 <= i < |k.log| && k.log[i].call == c)
  }

  /** A step of a call that writes nothing. */
  lemma MovedLogged(k: Link, r: Roster, c: nat, to: Call)
    requires Logged(k, r)
    requires if c in r.calls then HasWritten(to) == HasWritten(r.calls[c]) else !HasWritten(to)
    ensures Logged(k, Moved(r, c, to))
  {
    hide Written, EncodeRequest;
  }

  lemma WrittenMore(log: seq<Write>, w: Write)
    requires forall i :: 0 <= i < |log| ==> log[i].count <= |EncodeRequest(log[i].request)|
    requires w.count <= |EncodeRequest(w.request)|
    ensures Written(log + [w]) == Written(log) + EncodeRequest(w.request)[..w.count]
  {
    hide EncodeRequest;
    assert (log + [w])[..|log|] == log;
  }

  /** The one step of a call that writes. */
  lemma WroteLogged(k: Link, m: Link, r: Roster, c: nat, to: Call, w: Write)
    requires Logged(k, r) && c in r.calls && !HasWritten(r.calls[c]) && HasWritten(to)
    requires w.call == c && w.count <= |EncodeRequest(w.request)|
    requires m.log == k.log + [w] && m.wire == k.wire + EncodeRequest(w.request)[..w.count]
    ensures Logged(m, Moved(r, c, to))
  {
    hide EncodeRequest, Written;
    WrittenMore(k.log, w);
    forall d | d in Moved(r, c, to).calls && HasWritten(Moved(r, c, to).calls[d])
      ensures exists i :: 0 <= i < |m.log| && m.log[i].call == d
    {
      if d == c {
        assert m.log[|k.log|].call == d;
      } else {
        var i :| 0 <= i < |k.log| && k.log[i].call == d;
        assert m.log[i].call == d;
      }
    }
  }

  lemma SameLogged(k: Link, m: Link, r: Roster)
    requires Logged(k, r) && m.log == k.log && m.wire == k.wire
    ensures Logged(m, r)
  {
    hide EncodeRequest, Written;
  }

  ghost predicate ReaderHolds(s: State) {
    && (s.reader.Claimed? <==> s.ledger.held.Some?)
    && (s.reader.Claimed? ==>
          && s.ledger.held == Some(s.reader.head.id)
          && s.reader.head.id in s.ledger.registered
          && s.reader.request == s.ledger.registered[s.reader.head.id])
  }

  /** The loop is told to stop exactly when `close` has begun; `close` joins the loop before it resolves
      anything; and a read loop that ends without having
      been told to leaves the connection disconnected. */
  ghost predicate Orderly(s: State) {
    && (s.stopReadLoop <==> !s.closing.Open?)
    && (s.closing.Joined? || s.closing.Closed? ==> s.reader.Stopped?)
    && (s.closing.Closed? ==> !s.connected)
    && (s.reader.Stopped? && !s.stopReadLoop ==> !s.connected)
  }

  ghost predicate Consistent(s: State) {
    && Fates(s.ledger) && Threads(s.roster, s.ledger.registered) && Logged(s.link, s.roster)
    && ReaderHolds(s) && Orderly(s)
  }

  lemma MovedThreads(r: Roster, registered: map<uint64, Pending>, c: nat, to: Call)
    requires Threads(r, registered) && c in r.calls && HasId(r.calls[c]) && HasId(to)
    requires to.id == r.calls[c].id && (to.Fetched? <==> r.calls[c].Fetched?)
    ensures Threads(Moved(r, c, to), registered)
  {
  }

  lemma CheckedThreads(r: Roster, registered: map<uint64, Pending>, c: nat, to: Call)
    requires Threads(r, registered) && c !in r.calls && !HasId(to)
    ensures Threads(Moved(r, c, to), registered)
  {
  }

  lemma FetchedThreads(r: Roster, registered: map<uint64, Pending>, c: nat)
    requires Threads(r, registered) && c in r.calls && r.calls[c].Checked? && r.issued < TWO64
    ensures var id := IdOf(r.issued);
      Threads(Moved(r, c, Fetched(id)).(issued := r.issued + 1, owner := r.owner[id := c]), registered)
  {
    assert IdOf(r.issued) == r.issued;
  }

  lemma RegisteredThreads(r: Roster, registered: map<uint64, Pending>, c: nat, p: Pending)
    requires Threads(r, registered) && c in r.calls && r.calls[c].Fetched? && p.call == c
    ensures var id := r.calls[c].id;
      Threads(Moved(r, c, Registered(id)), registered[id := p])
  {
  }

  lemma CallConsistent(g: Config, s: State, e: Event)
    requires Consistent(s) && Enabled(g, s, e) && Apply(g, s, e).roster.issued <= TWO64
    requires e.Check? || e.FetchId? || e.Register? || e.Build? || e.SendOk? || e.SendFail? || e.Withdraw?
    ensures Consistent(Apply(g, s, e))
  {
    hide Fates, Threads, Logged, EncodeRequest, BuildRequest, IdOf;
    var l, r, k := s.ledger, s.roster, s.link;
    match e {
      case Check(c) =>
        var to := if s.connected then Checked else Refused;
        CheckedThreads(r, l.registered, c, to);
        MovedLogged(k, r, c, to);
      case FetchId(c) =>
        FetchedThreads(r, l.registered, c);
        MovedLogged(k, r, c, Fetched(IdOf(r.issued)));
        LoggedCalls(k, Moved(r, c, Fetched(IdOf(r.issued))), Apply(g, s, e).roster);
      case Register(c, command, cacheName, flags) =>
        var p := Pending(c, command, cacheName, flags);
        RegisteredThreads(r, l.registered, c, p);
        NotRegistered(r, l.registered, c);
        EnteredFates(l, r.calls[c].id, p);
        MovedLogged(k, r, c, Registered(r.calls[c].id));
      case Build(c) =>
        MovedThreads(r, l.registered, c, Apply(g, s, e).roster.calls[c]);
        MovedLogged(k, r, c, Apply(g, s, e).roster.calls[c]);
      case SendOk(c) =>
        var q := r.calls[c].request;
        MovedThreads(r, l.registered, c, Returned(r.calls[c].id));
        assert EncodeRequest(q)[..|EncodeRequest(q)|] == EncodeRequest(q);
        WroteLogged(k, Apply(g, s, e).link, r, c, Returned(r.calls[c].id), Write(c, q, |EncodeRequest(q)|));
      case SendFail(c, n) =>
        MovedThreads(r, l.registered, c, Unsent(r.calls[c].id));
        WroteLogged(k, Apply(g, s, e).link, r, c, Unsent(r.calls[c].id), Write(c, r.calls[c].request, n));
      case Withdraw(c) =>
        MovedThreads(r, l.registered, c, Failed(r.calls[c].id));
        ErasedFates(l, r.calls[c].id);
        MovedLogged(k, r, c, Failed(r.calls[c].id));
    }
  }

  lemma LoggedCalls(k: Link, r: Roster, q: Roster)
    requires Logged(k, r) && q.calls == r.calls
    ensures Logged(k, q)
  {
    hide EncodeRequest, Written;
  }

  lemma ReaderConsistent(g: Config, s: State, e: Event)
    requires Consistent(s) && Enabled(g, s, e)
    requires e.Guard? || e.ReadHeader? || e.RejectHeader? || e.SocketError? || e.Claim? || e.Deliver? || e.BodyFails?
    ensures Consistent(Apply(g, s, e))
  {
    hide Fates, Threads, Logged, ReadHead, Conclusion;
    var l := s.ledger;
    SameLogged(s.link, Apply(g, s, e).link, s.roster);
    match e {
      case Claim =>
        if s.reader.head.id in l.pending {
          TakenFates(l, s.reader.head.id);
          PendingRegistered(l, s.reader.head.id);
        }
      case Deliver =>
        SettledFates(l, s.reader.head.id,
                     Conclusion(g, s.reader.head, s.reader.request, s.link.stream).value.0);
      case BodyFails => SettledFates(l, s.reader.head.id, ReadFailed);
      case RejectHeader => AllClosedFates(l);
      case SocketError => AllClosedFates(l);
      case Guard =>
      case ReadHeader =>
    }
  }

  /** Every step of every thread, and anything the server does, keeps the invariant, as long as the
      64-bit message counter does not wrap. */
  lemma StepConsistent(g: Config, s: State, e: Event)
    requires Consistent(s) && Enabled(g, s, e) && Apply(g, s, e).roster.issued <= TWO64
    ensures Consistent(Apply(g, s, e))
  {
    if e.Answer? || e.Emit? || e.Noise? || e.SetStop? || e.Join? || e.FinishClose? {
      hide Fates, Threads, Logged, EncodeFrame, Proper;
      SameLogged(s.link, Apply(g, s, e).link, s.roster);
      if e.FinishClose? {
        AllClosedFates(s.ledger);
      }
    } else if e.Guard? || e.ReadHeader? || e.RejectHeader? || e.SocketError? || e.Claim? || e.Deliver? || e.BodyFails? {
      hide *;
      ReaderConsistent(g, s, e);
    } else {
      hide *;
      CallConsistent(g, s, e);
    }
  }

  lemma NotRegistered(r: Roster, registered: map<uint64, Pending>, c: nat)
    requires Threads(r, registered) && c in r.calls && r.calls[c].Fetched?
    ensures r.calls[c].id !in registered
  {
  }

  lemma PendingRegistered(l: Ledger, id: uint64)
    requires Fates(l) && id in l.pending
    ensures id in l.registered && l.pending[id] == l.registered[id]
  {
  }

  // ----- Runs -----

  /** A run: each state follows from the one before by an enabled event. */
  ghost predicate IsRun(g: Config, first: State, events: seq<Event>, states: seq<State>) {
    && |states| == |events| + 1
    && states[0] == first
    && forall i :: 0 <= i < |events| ==>
         Enabled(g, states[i], events[i]) && states[i + 1] == Apply(g, states[i], events[i])
  }

  lemma OneStep(g: Config, s: State, e: Event)
    requires Enabled(g, s, e)
    ensures IsRun(g, s, [e], [s, Apply(g, s, e)])
  {
    hide Enabled, Apply;
  }

  /** A run that starts where another ends continues it. */
  lemma RunsJoin(g: Config, first: State, events: seq<Event>, states: seq<State>, more: seq<Event>, after: seq<State>)
    requires IsRun(g, first, events, states) && IsRun(g, states[|events|], more, after)
    ensures IsRun(g, first, events + more, states[..|events|] + after)
    ensures (states[..|events|] + after)[|events + more|] == after[|more|]
  {
    hide Enabled, Apply;
    var es, ss := events + more, states[..|events|] + after;
    forall i | 0 <= i < |es|
      ensures Enabled(g, ss[i], es[i]) && ss[i + 1] == Apply(g, ss[i], es[i])
    {
      if i >= |events| {
        assert es[i] == more[i - |events|] && ss[i] == after[i - |events|] && ss[i + 1] == after[i - |events| + 1];
      } else {
        assert es[i] == events[i] && ss[i] == states[i] && ss[i + 1] == states[i + 1];
      }
    }
  }

  lemma StepIssues(g: Config, s: State, e: Event)
    requires Enabled(g, s, e)
    ensures s.roster.issued <= Apply(g, s, e).roster.issued
  {
    hide ReadHead, Conclusion, EncodeRequest, EncodeFrame, BuildRequest, Proper;
  }

  lemma {:induction false} IssuesGrow(g: Config, first: State, events: seq<Event>, states: seq<State>, i: nat, j: nat)
    requires IsRun(g, first, events, states) && i <= j < |states|
    ensures states[i].roster.issued <= states[j].roster.issued
    decreases j
  {
    hide Enabled, Apply;
    if i < j {
      IssuesGrow(g, first, events, states, i, j - 1);
      StepIssues(g, states[j - 1], events[j - 1]);
    }
  }

  lemma StartConsistent()
    ensures Consistent(START)
  {
  }

  /** Exactly-once resolution: in every interleaving, whatever the server sends, each registered
      request is at all times in exactly one place, and no promise is set twice. */
  lemma {:induction false} ExactlyOnce(g: Config, first: State, events: seq<Event>, states: seq<State>, i: nat)
    requires Consistent(first) && IsRun(g, first, events, states) && i < |states|
    requires states[|events|].roster.issued <= TWO64
    ensures Consistent(states[i])
    decreases i
  {
    hide Enabled, Apply, Consistent;
    if i > 0 {
      ExactlyOnce(g, first, events, states, i - 1);
      IssuesGrow(g, first, events, states, i, |events|);
      StepConsistent(g, states[i - 1], events[i - 1]);
    }
  }

  /** BeforeSend is sound: a call refused with that phase left no entry, and it wrote no byte, since
      every byte on the wire was written by a call that the log names. */
  lemma RefusedLeavesNothing(s: State, c: nat)
    requires Consistent(s) && c in s.roster.calls && s.roster.calls[c].Refused?
    ensures LoggedWithout(s.link, c)
    ensures forall id :: id in s.ledger.registered ==> s.ledger.registered[id].call != c
    ensures forall id :: id in s.ledger.pending ==> s.ledger.pending[id].call != c
  {
  }

  /** The whole wire was written by other calls. */
  ghost predicate LoggedWithout(k: Link, c: nat) {
    && (forall i :: 0 <= i < |k.log| ==> k.log[i].count <= |EncodeRequest(k.log[i].request)| && k.log[i].call != c)
    && k.wire == Written(k.log)
  }

  /** closeAllPending meets no promise that is already set. */
  lemma NeverSetTwice(s: State, id: uint64)
    requires Consistent(s) && id in s.ledger.pending
    ensures id in s.ledger.promises && s.ledger.promises[id] == []
  {
    assert OneFate(s.ledger, id);
  }

  /** The end of the read loop, and of `close`, gives each waiting request one failure that says that the
      connection is gone, and touches no other promise. */
  lemma EndFailsPending(g: Config, s: State, e: Event)
    requires Consistent(s) && Enabled(g, s, e) && (e.RejectHeader? || e.SocketError? || e.FinishClose?)
    ensures var t := Apply(g, s, e);
      && t.ledger.pending == map[]
      && t.ledger.promises.Keys == s.ledger.promises.Keys
      && forall id :: id in s.ledger.promises ==>
           t.ledger.promises[id] == if id in s.ledger.pending then [ConnectionClosed] else s.ledger.promises[id]
  {
    hide ReadHead, Threads, Logged;
    forall id | id in s.ledger.promises ensures id in s.ledger.pending ==> s.ledger.promises[id] == [] {
      assert OneFate(s.ledger, id);
    }
  }

  /** Closed, with no call between its check of connected_ and its entry in the map. */
  ghost predicate Over(s: State) {
    && s.closing.Closed? && s.reader.Stopped? && !s.connected && s.ledger.pending == map[]
    && forall c :: c in s.roster.calls ==> !s.roster.calls[c].Checked? && !s.roster.calls[c].Fetched?
  }

  lemma StepOver(g: Config, s: State, e: Event)
    requires Over(s) && Enabled(g, s, e)
    ensures Over(Apply(g, s, e))
  {
    hide ReadHead, Conclusion, EncodeRequest, EncodeFrame, BuildRequest, Proper;
    assert !e.FetchId? && !e.Register?;
  }

  lemma {:induction false} StaysOver(g: Config, first: State, events: seq<Event>, states: seq<State>, j: nat, i: nat)
    requires IsRun(g, first, events, states) && j <= i < |states| && Over(states[j])
    ensures Over(states[i])
    decreases i
  {
    hide Enabled, Apply, Over;
    if i > j {
      StaysOver(g, first, events, states, j, i - 1);
      StepOver(g, states[i - 1], events[i - 1]);
    }
  }

  /** If `close` finishes while no call is between its check and its entry in the map, then from
      then on every request ever registered is resolved or withdrawn. */
  lemma ClosedSettlesAll(g: Config, first: State, events: seq<Event>, states: seq<State>, j: nat, i: nat)
    requires Consistent(first) && IsRun(g, first, events, states) && j < i < |states| && events[j] == FinishClose
    requires forall c :: c in states[j].roster.calls ==>
      !states[j].roster.calls[c].Checked? && !states[j].roster.calls[c].Fetched?
    requires states[|events|].roster.issued <= TWO64
    ensures forall id :: id in states[i].ledger.registered ==>
      id in states[i].ledger.promises
      && (|states[i].ledger.promises[id]| == 1 || id in states[i].ledger.withdrawn)
  {
    hide Consistent, Enabled, Apply;
    ExactlyOnce(g, first, events, states, j);
    FinishedIsOver(g, states[j]);
    StaysOver(g, first, events, states, j + 1, i);
    ExactlyOnce(g, first, events, states, i);
    SettledWhenOver(states[i]);
  }

  lemma FinishedIsOver(g: Config, s: State)
    requires Consistent(s) && Enabled(g, s, FinishClose)
    requires forall c :: c in s.roster.calls ==> !s.roster.calls[c].Checked? && !s.roster.calls[c].Fetched?
    ensures Over(Apply(g, s, FinishClose))
  {
    hide Fates, Threads, Logged;
  }

  lemma FirstOf(g: Config, first: State, events: seq<Event>, states: seq<State>)
    requires IsRun(g, first, events, states)
    ensures |states| == |events| + 1 && states[0] == first
  {
  }

  lemma SettledWhenOver(s: State)
    requires Consistent(s) && Over(s)
    ensures forall id :: id in s.ledger.registered ==>
      id in s.ledger.promises && (|s.ledger.promises[id]| == 1 || id in s.ledger.withdrawn)
  {
    forall id | id in s.ledger.registered
      ensures id in s.ledger.promises && (|s.ledger.promises[id]| == 1 || id in s.ledger.withdrawn)
    {
      assert OneFate(s.ledger, id);
    }
  }

  // ----- One call, without interruption -----

  /** A call that is about to send. */
  function Called(g: Config, s: State, p: Pending): State {
    var id := IdOf(s.roster.issued);
    s.(roster := s.roster.(calls := s.roster.calls[p.call := Built(id, BuildRequest(g, id, p, s.topologyId))],
                           issued := s.roster.issued + 1, owner := s.roster.owner[id := p.call]),
       ledger := Entered(s.ledger, id, p))
  }

  function Calling(p: Pending): seq<Event> {
    [Check(p.call), FetchId(p.call), Register(p.call, p.command, p.cacheName, p.flags), Build(p.call)]
  }

  lemma CallGetsThere(g: Config, s: State, p: Pending) returns (states: seq<State>)
    requires s.connected && p.call !in s.roster.calls
    ensures |states| == 5 && IsRun(g, s, Calling(p), states) && states[4] == Called(g, s, p)
  {
    hide BuildRequest, IdOf, IsRun, Enabled, Apply;
    var c := p.call;
    var start := Fetches(g, s, c);
    var rest := Registers(g, start[2], p);
    var register := Register(c, p.command, p.cacheName, p.flags);
    RunsJoin(g, s, [Check(c), FetchId(c)], start, [register, Build(c)], rest);
    states := start[..2] + rest;
    assert Calling(p) == [Check(c), FetchId(c)] + [register, Build(c)];
    assert rest[2].roster.calls == Called(g, s, p).roster.calls;
  }

  lemma Fetches(g: Config, s: State, c: nat) returns (states: seq<State>)
    requires s.connected && c !in s.roster.calls
    ensures |states| == 3 && IsRun(g, s, [Check(c), FetchId(c)], states)
    ensures var id := IdOf(s.roster.issued);
      states[2] == s.(roster := s.roster.(calls := s.roster.calls[c := Fetched(id)], issued := s.roster.issued + 1,
                                          owner := s.roster.owner[id := c]))
  {
    hide IdOf;
    var a := Apply(g, s, Check(c));
    var b := Apply(g, a, FetchId(c));
    assert b.roster.calls == s.roster.calls[c := Fetched(IdOf(s.roster.issued))];
    states := [s, a, b];
  }

  lemma Registers(g: Config, s: State, p: Pending) returns (states: seq<State>)
    requires p.call in s.roster.calls && s.roster.calls[p.call].Fetched?
    ensures |states| == 3
    ensures IsRun(g, s, [Register(p.call, p.command, p.cacheName, p.flags), Build(p.call)], states)
    ensures var id := s.roster.calls[p.call].id;
      states[2] == s.(roster := s.roster.(calls := s.roster.calls[p.call := Built(id, BuildRequest(g, id, p, s.topologyId))]),
                      ledger := Entered(s.ledger, id, p))
  {
    hide BuildRequest;
    var d := Apply(g, s, Register(p.call, p.command, p.cacheName, p.flags));
    var e := Apply(g, d, Build(p.call));
    var id := s.roster.calls[p.call].id;
    assert e.roster.calls == s.roster.calls[p.call := Built(id, BuildRequest(g, id, p, s.topologyId))];
    states := [s, d, e];
  }

  // ----- When the read loop ends -----

  lemma StepDisconnected(g: Config, s: State, e: Event)
    requires !s.connected && Enabled(g, s, e)
    ensures var t := Apply(g, s, e);
      && !t.connected
      && (forall c :: c in t.roster.calls && !t.roster.calls[c].Refused? ==>
            c in s.roster.calls && !s.roster.calls[c].Refused?)
      && (e.Check? ==> e.call in t.roster.calls && t.roster.calls[e.call] == Refused)
  {
    hide ReadHead, Conclusion, EncodeRequest, EncodeFrame, BuildRequest, Proper, HeadFits;
  }

  /** A connection that is disconnected stays so, and takes no further calls. */
  lemma {:induction false} StaysDisconnected(g: Config, first: State, events: seq<Event>, states: seq<State>, j: nat, i: nat)
    requires IsRun(g, first, events, states) && j <= i < |states| && !states[j].connected
    ensures !states[i].connected
    ensures forall c :: c in states[i].roster.calls && !states[i].roster.calls[c].Refused? ==>
      c in states[j].roster.calls && !states[j].roster.calls[c].Refused?
    decreases i
  {
    hide Enabled, Apply;
    if i > j {
      StaysDisconnected(g, first, events, states, j, i - 1);
      StepDisconnected(g, states[i - 1], events[i - 1]);
    }
  }

  /** Once the read loop has ended by itself, every later call is refused, in every continuation. */
  lemma EndedLoopRefuses(g: Config, first: State, events: seq<Event>, states: seq<State>, j: nat, i: nat)
    requires Consistent(first) && IsRun(g, first, events, states) && j <= i < |events|
    requires states[|events|].roster.issued <= TWO64
    requires states[j].reader.Stopped? && !states[j].stopReadLoop && events[i].Check?
    ensures events[i].call in states[i + 1].roster.calls && states[i + 1].roster.calls[events[i].call] == Refused
  {
    hide Enabled, Apply, Fates, Threads, Logged;
    ExactlyOnce(g, first, events, states, j);
    StaysDisconnected(g, first, events, states, j, i);
    StepDisconnected(g, states[i], events[i]);
  }

  /** What waits after that had passed its check before. */
  lemma PendingCheckedBefore(g: Config, first: State, events: seq<Event>, states: seq<State>, j: nat, i: nat, id: uint64)
    requires Consistent(first) && IsRun(g, first, events, states) && j <= i < |states|
    requires states[|events|].roster.issued <= TWO64
    requires states[j].reader.Stopped? && !states[j].stopReadLoop && id in states[i].ledger.pending
    ensures var c := states[i].ledger.pending[id].call;
      c in states[j].roster.calls && !states[j].roster.calls[c].Refused?
  {
    hide IsRun, Logged;
    FirstOf(g, first, events, states);
    ExactlyOnce(g, first, events, states, j);
    ExactlyOnce(g, first, events, states, i);
    StaysDisconnected(g, first, events, states, j, i);
    PendingRegistered(states[i].ledger, id);
  }

  predicate Resting(r: Reader) { r.AtGuard? || r.Stopped? }

  lemma StepResting(g: Config, s: State, e: Event)
    requires Resting(s.reader) && (s.stopReadLoop || !s.connected) && Enabled(g, s, e)
    ensures var t := Apply(g, s, e);
      Resting(t.reader) && (t.stopReadLoop || !t.connected) && s.link.stream <= t.link.stream
  {
    hide ReadHead, Conclusion, EncodeRequest, EncodeFrame, BuildRequest, Proper, HeadFits;
    var a, b := s.link.stream, Apply(g, s, e).link.stream;
    assert |a| <= |b| && forall i :: 0 <= i < |a| ==> a[i] == b[i];
  }

  /** A loop at its guard that has been told to stop, or whose connection is gone, reads nothing more. */
  lemma {:induction false} StoppingLoopReadsNoMore(g: Config, first: State, events: seq<Event>, states: seq<State>, j: nat, i: nat)
    requires IsRun(g, first, events, states) && j <= i < |states|
    requires Resting(states[j].reader) && (states[j].stopReadLoop || !states[j].connected)
    ensures Resting(states[i].reader) && states[j].link.stream <= states[i].link.stream
    ensures states[i].stopReadLoop || !states[i].connected
    decreases i
  {
    hide Enabled, Apply, Resting;
    if i > j {
      StoppingLoopReadsNoMore(g, first, events, states, j, i - 1);
      StepResting(g, states[i - 1], events[i - 1]);
    }
  }

  /** Why the counter must not wrap: the call after 2^64 others gets ID 0 again, and if request 0 is
      still waiting its entry is replaced. Neither the map nor the read loop then has anything of the
      call that waits, so no step sets its promise. */
  lemma WrappedIdDisplaces(g: Config, s: State, c: nat, command: Command, cacheName: Blob, flags: uint32)
    requires Consistent(s) && s.roster.issued == TWO64 && c in s.roster.calls && s.roster.calls[c].Checked?
    requires 0 in s.ledger.pending
    ensures var t := Apply(g, s, FetchId(c));
      var e := Register(c, command, cacheName, flags);
      && Enabled(g, t, e)
      && var u := Apply(g, t, e);
      && 0 in u.ledger.pending && u.ledger.pending[0].call == c != s.ledger.pending[0].call
      && (forall id :: id in u.ledger.pending ==> u.ledger.pending[id].call != s.ledger.pending[0].call)
      && (u.reader.Claimed? ==> u.reader.request.call != s.ledger.pending[0].call)
  {
    hide Logged;
    assert IdOf(TWO64) == 0;
    assert OneFate(s.ledger, 0);
    assert s.ledger.registered[0] == s.ledger.pending[0];
  }
}
