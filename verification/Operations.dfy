/** Whole operations of a client: a selection under stateMutex_, then `execute` on the connection that
    was selected. Any number of operations, on any number of connections, interleave. */
module Operations {
  import opened Bytes
  import opened Connections
  import MC = MultiplexedConnections
  import MX = Multiplexing
  import opened RemoteCaches
  import Requests
  import Responses
  import Retries
  import opened Topologies

  // ----- The client as a transition system -----

  /** The connection that the cache was created with, or a pooled one. */
  datatype Place = Seed | Pooled(serial: nat)

  /** What a selection made of an operation. */
  datatype Fate = GaveUp | Dispatched(place: Place)

  /** `links` holds every connection ever opened; those that the pool has dropped live on as long as
      an operation uses them. */
  datatype Client = Client(cache: Cache, links: map<Place, MX.State>, fates: map<nat, Fate>)

  const NEW := Client(FRESH, map[Seed := MX.START], map[])

  datatype Step =
    | SelectFor(op: nat, target: Retries.Target, exclude: seq<Address>, network: Network)
    | On(place: Place, event: MX.Event)
    | NewTopology(topology: Topology)

  function AfterSelect(c: Cache, p: Policy, target: Retries.Target, exclude: seq<Address>, net: Network): Cache {
    match target
    case Keyed(key) => AfterSelectForKey(c, p, key, exclude, net)
    case Keyless => AfterSelectAny(c, exclude, net)
  }

  /** Where an operation goes; a chosen node has its connection in the pool. */
  function FateOf(s: Selection, after: Cache): Fate {
    match s
    case Exhausted(_, _) => GaveUp
    case Default => Dispatched(Seed)
    case Chosen(node, _) =>
      if PoolKey(node) in after.pool then Dispatched(Pooled(after.pool[PoolKey(node)].serial)) else GaveUp
  }

  /** Connections that are not there yet have just been opened. */
  function Opened(links: map<Place, MX.State>, n: nat): map<Place, MX.State> {
    map p | p in links.Keys + (set i | 0 <= i < n :: Pooled(i)) :: if p in links then links[p] else MX.START
  }

  /** A call of `execute` is made for an operation, on the connection that was selected for it. */
  ghost predicate CanDo(g: MX.Config, c: Client, s: Step) {
    match s
    case SelectFor(op, _, _, _) => op !in c.fates
    case On(place, e) =>
      && place in c.links && MX.Enabled(g, c.links[place], e)
      && (e.Check? ==> e.call in c.fates && c.fates[e.call] == Dispatched(place))
    case NewTopology(_) => true
  }

  ghost function Do(g: MX.Config, p: Policy, c: Client, s: Step): Client
    requires CanDo(g, c, s)
  {
    match s
    case SelectFor(op, target, exclude, net) =>
      var after := AfterSelect(c.cache, p, target, exclude, net);
      Client(after, Opened(c.links, after.nextSerial),
             c.fates[op := FateOf(Retries.Select(c.cache, p, target, exclude, net), after)])
    case On(place, e) => c.(links := c.links[place := MX.Apply(g, c.links[place], e)])
    case NewTopology(t) => c.(cache := Updated(c.cache, t, p))
  }

  /** An operation is given up exactly if its selection is exhausted: whoever is chosen has a
      connection in the pool, for its own address. */
  lemma GivenUpIff(c: Cache, p: Policy, target: Retries.Target, exclude: seq<Address>, net: Network)
    requires Sound(c, p)
    ensures var s := Retries.Select(c, p, target, exclude, net);
      var after := AfterSelect(c, p, target, exclude, net);
      && (FateOf(s, after).GaveUp? <==> s.Exhausted?)
      && (s.Chosen? ==> PoolKey(s.node) in after.pool && after.pool[PoolKey(s.node)].address == s.node)
  {
    hide Swept, KeyCandidates, AnyCandidates, Invariant, PoolKey, Failures;
    match target
    case Keyed(key) =>
      CandidatesAreServers(c, p, key, exclude);
      SweptKeepsInvariant(c, KeyCandidates(c, p, key, exclude), net);
    case Keyless =>
      CandidatesAreServers(c, p, [], exclude);
      SweptKeepsInvariant(c, AnyCandidates(c, exclude), net);
  }

  // ----- The invariant -----

  /** Each connection is consistent, and knows only operations that were dispatched to it. */
  ghost predicate Separate(c: Client) {
    forall p :: p in c.links ==> MX.Consistent(c.links[p]) && OnlyOwn(c, p)
  }

  ghost predicate OnlyOwn(c: Client, p: Place)
    requires p in c.links
  {
    forall op :: op in c.links[p].roster.calls ==> op in c.fates && c.fates[op] == Dispatched(p)
  }

  /** No message counter has wrapped. */
  ghost predicate Unwrapped(c: Client) {
    forall l :: l in c.links ==> c.links[l].roster.issued <= TWO64
  }

  lemma NewCallsAreChecked(g: MX.Config, s: MX.State, e: MX.Event)
    requires MX.Enabled(g, s, e)
    ensures forall c :: c in MX.Apply(g, s, e).roster.calls ==> c in s.roster.calls || e == MX.Check(c)
  {
    hide Responses.ReadHead, MX.Conclusion, Requests.EncodeRequest, Responses.EncodeFrame, MX.BuildRequest, MX.Proper;
  }

  lemma DoSeparate(g: MX.Config, p: Policy, c: Client, s: Step)
    requires Separate(c) && CanDo(g, c, s)
    requires Unwrapped(Do(g, p, c, s))
    ensures Separate(Do(g, p, c, s))
  {
    hide MX.Consistent, MX.Enabled, MX.Apply, AfterSelect, FateOf;
    var d := Do(g, p, c, s);
    match s {
      case SelectFor(op, _, _, _) =>
        MX.StartConsistent();
        forall l | l in d.links ensures MX.Consistent(d.links[l]) && OnlyOwn(d, l) {
          if l in c.links {
            assert OnlyOwn(c, l);
          }
        }
      case On(place, e) =>
        assert d.links[place] == MX.Apply(g, c.links[place], e);
        MX.StepConsistent(g, c.links[place], e);
        NewCallsAreChecked(g, c.links[place], e);
        forall l | l in d.links ensures MX.Consistent(d.links[l]) && OnlyOwn(d, l) {
          assert OnlyOwn(c, l);
        }
      case NewTopology(_) =>
        forall l | l in d.links ensures MX.Consistent(d.links[l]) && OnlyOwn(d, l) {
          assert OnlyOwn(c, l);
        }
    }
  }

  // ----- Runs -----

  ghost predicate IsRun(g: MX.Config, p: Policy, steps: seq<Step>, states: seq<Client>) {
    && |states| == |steps| + 1 && states[0] == NEW
    && forall i :: 0 <= i < |steps| ==>
         CanDo(g, states[i], steps[i]) && states[i + 1] == Do(g, p, states[i], steps[i])
  }

  lemma NewSeparate(p: Policy)
    ensures Separate(NEW) && Sound(NEW.cache, p)
  {
    MX.StartConsistent();
  }

  lemma {:induction false} SeparateThroughout(g: MX.Config, p: Policy, steps: seq<Step>, states: seq<Client>, i: nat)
    requires IsRun(g, p, steps, states) && i < |states|
    requires forall j :: 0 <= j <= i ==> Unwrapped(states[j])
    ensures Separate(states[i]) && Sound(states[i].cache, p)
    decreases i
  {
    hide Separate, CanDo, Do, Unwrapped, Sound;
    if i == 0 {
      NewSeparate(p);
    } else {
      SeparateThroughout(g, p, steps, states, i - 1);
      assert Unwrapped(states[i]);
      DoSeparate(g, p, states[i - 1], steps[i - 1]);
      DoSound(g, p, states[i - 1], steps[i - 1]);
    }
  }

  lemma DoSound(g: MX.Config, p: Policy, c: Client, s: Step)
    requires Sound(c.cache, p) && CanDo(g, c, s)
    ensures Sound(Do(g, p, c, s).cache, p)
  {
    hide Sound, MX.Enabled, MX.Apply, Opened, FateOf, Updated, AfterSelectForKey, AfterSelectAny;
    match s
    case SelectFor(_, target, exclude, net) =>
      if target.Keyed? {
        AfterSound(c.cache, p, KeySelection(target.key, exclude, net));
      } else {
        AfterSound(c.cache, p, AnySelection(exclude, net));
      }
    case On(_, _) =>
    case NewTopology(t) => AfterSound(c.cache, p, TopologyUpdate(t));
  }

  /** The operation has failed with phase BeforeSend: its selection threw, or `execute` refused it. */
  ghost predicate FailedBeforeSend(c: Client, op: nat) {
    && op in c.fates
    && (c.fates[op].GaveUp?
        || (var l := c.fates[op].place;
            l in c.links && op in c.links[l].roster.calls && c.links[l].roster.calls[op].Refused?))
  }

  /** No connection has had anything to do with the operation: every byte on its wire was written by
      another one, it was never registered, and no map holds an entry of it. */
  ghost predicate Untouched(c: Client, op: nat) {
    forall l :: l in c.links ==>
      && MX.LoggedWithout(c.links[l].link, op)
      && (forall id :: id in c.links[l].ledger.registered ==> c.links[l].ledger.registered[id].call != op)
      && (forall id :: id in c.links[l].ledger.pending ==> c.links[l].ledger.pending[id].call != op)
  }

  lemma StrangersLeaveNothing(s: MX.State, op: nat)
    requires MX.Consistent(s) && op !in s.roster.calls
    ensures MX.LoggedWithout(s.link, op)
    ensures forall id :: id in s.ledger.registered ==> s.ledger.registered[id].call != op
    ensures forall id :: id in s.ledger.pending ==> s.ledger.pending[id].call != op
  {
  }

  lemma FailedMeansUntouched(c: Client, op: nat)
    requires Separate(c) && FailedBeforeSend(c, op)
    ensures Untouched(c, op)
  {
    hide MX.Consistent;
    forall l | l in c.links
      ensures MX.LoggedWithout(c.links[l].link, op)
      ensures forall id :: id in c.links[l].ledger.registered ==> c.links[l].ledger.registered[id].call != op
      ensures forall id :: id in c.links[l].ledger.pending ==> c.links[l].ledger.pending[id].call != op
    {
      assert OnlyOwn(c, l);
      if op in c.links[l].roster.calls {
        MX.RefusedLeavesNothing(c.links[l], op);
      } else {
        StrangersLeaveNothing(c.links[l], op);
      }
    }
  }

  /** BeforeSend is sound for whole operations: in every run of any number of operations over any
      number of connections, with topology changes at any point, one that failed with that phase has
      written no byte on any connection and left no entry in any pending map. */
  lemma BeforeSendSound(g: MX.Config, p: Policy, steps: seq<Step>, states: seq<Client>, i: nat, op: nat)
    requires IsRun(g, p, steps, states) && i < |states|
    requires forall j :: 0 <= j <= i ==> Unwrapped(states[j])
    requires FailedBeforeSend(states[i], op)
    ensures Untouched(states[i], op)
  {
    hide IsRun, Separate, FailedBeforeSend, Untouched, Unwrapped;
    SeparateThroughout(g, p, steps, states, i);
    FailedMeansUntouched(states[i], op);
  }

  /** And it stays so: a failed operation is never taken up again. */
  lemma StaysFailed(g: MX.Config, p: Policy, c: Client, s: Step, op: nat)
    requires Separate(c) && CanDo(g, c, s) && FailedBeforeSend(c, op)
    ensures FailedBeforeSend(Do(g, p, c, s), op)
  {
    hide AfterSelect, FateOf, Responses.ReadHead, MX.Conclusion, Requests.EncodeRequest, Responses.EncodeFrame, MX.BuildRequest, MX.Proper, MX.Consistent;
    if c.fates[op].Dispatched? && s.On? && s.place == c.fates[op].place {
      RefusedStays(g, c.links[s.place], s.event, op);
    }
  }

  lemma RefusedStays(g: MX.Config, s: MX.State, e: MX.Event, c: nat)
    requires MX.Enabled(g, s, e) && c in s.roster.calls && s.roster.calls[c].Refused?
    ensures var t := MX.Apply(g, s, e); c in t.roster.calls && t.roster.calls[c].Refused?
  {
    hide Responses.ReadHead, MX.Conclusion, Requests.EncodeRequest, Responses.EncodeFrame, MX.BuildRequest, MX.Proper;
  }

  // ----- The code -----

  /** Serial numbers in the pool have been given out. */
  ghost predicate Numbered(c: Cache) {
    forall k :: k in c.pool ==> c.pool[k].serial < c.nextSerial
  }

  lemma {:induction false} SweptNumbered(c: Cache, candidates: seq<Address>, net: Network)
    requires Numbered(c)
    ensures Numbered(Swept(c, candidates, net)) && c.nextSerial <= Swept(c, candidates, net).nextSerial
    decreases |candidates|
  {
    hide PoolKey;
    if candidates != [] && !Reachable(c, candidates[0], net) {
      SweptNumbered(Acquired(c, candidates[0], net), candidates[1..], net);
    }
  }

  lemma SelectedNumbered(c: Cache, p: Policy, target: Retries.Target, exclude: seq<Address>, net: Network)
    requires Numbered(c)
    ensures var d := AfterSelect(c, p, target, exclude, net); Numbered(d) && c.nextSerial <= d.nextSerial
  {
    hide Swept, Numbered, KeyCandidates, AnyCandidates;
    match target
    case Keyed(key) => SweptNumbered(c, KeyCandidates(c, p, key, exclude), net);
    case Keyless => SweptNumbered(c, AnyCandidates(c, exclude), net);
  }

  datatype Operated = Refused(selection: Selection) | Executed(place: Place, result: MC.Executed)

  /** The phase of the exception is BeforeSend. */
  predicate IsBeforeSend(r: Operated) { r.Refused? || r.result.BeforeSend? }

  /** The operation has nothing to do with this connection. */
  predicate Spared(r: Operated, place: Place) { IsBeforeSend(r) || r.place != place }

  class RemoteClient {
    const config: MX.Config
    const cache: RemoteCache
    const seed: MC.MultiplexedConnection
    /** Every pooled connection opened so far. */
    var links: map<nat, MC.MultiplexedConnection>

    constructor (config: MX.Config, policy: Policy, seed: MC.MultiplexedConnection)
      ensures Valid() && this.config == config && this.seed == seed && links == map[]
      ensures cache.policy == policy && cache.View() == FRESH && fresh(cache) && fresh(cache.consistentHash)
    {
      this.config, this.seed, links := config, seed, map[];
      cache := new RemoteCache(policy);
    }

    ghost function All(): set<MC.MultiplexedConnection>
      reads this
    {
      {seed} + links.Values
    }

    /** Different serial numbers stand for different connections, and those share no socket. */
    ghost predicate Apart()
      reads this
    {
      && (forall i, j :: i in links && j in links && links[i].connection == links[j].connection ==> i == j)
      && (forall i :: i in links ==> links[i].connection != seed.connection)
    }

    ghost predicate Valid()
      reads this, cache, cache.consistentHash
    {
      Apart() && Numbered(cache.View()) && forall i: nat :: i in links <==> i < cache.nextSerial
    }

    /** Nothing registered, resolved or written. */
    twostate predicate Idle(m: MC.MultiplexedConnection)
      reads m, m.connection
    {
      m.Books() == old(m.Books()) && m.connection.outgoing == old(m.connection.outgoing)
    }

    predicate Has(place: Place)
      reads this
    {
      place.Pooled? ==> place.serial in links
    }

    function At(place: Place): MC.MultiplexedConnection
      requires Has(place)
      reads this
    {
      match place
      case Seed => seed
      case Pooled(serial) => links[serial]
    }

    /** getImpl and the other operations with a key, and ping without one: select, then execute. Of the
        connections at most the one selected changes, and none does if the phase is BeforeSend. */
    method Operate(target: Retries.Target, exclude: seq<Address>, net: Network, p: MX.Pending)
      returns (r: Operated)
      requires Valid()
      modifies this, cache, All(), set m | m in All() :: m.connection
      ensures Valid() && old(links.Keys) <= links.Keys && forall i :: i in old(links) ==> links[i] == old(links)[i]
      ensures cache.View() == AfterSelect(old(cache.View()), cache.policy, target, exclude, net)
      ensures var s := Retries.Select(old(cache.View()), cache.policy, target, exclude, net);
        if r.Refused? then r.selection == s && s.Exhausted?
        else !s.Exhausted? && (s.Default? <==> r.place == Seed) && Has(r.place)
      ensures Spared(r, Seed) ==> Idle(seed)
      ensures forall i :: i in old(links) && Spared(r, Pooled(i)) ==> Idle(old(links)[i])
      ensures forall i :: i in links && i !in old(links) && Spared(r, Pooled(i)) ==> Blank(i)
    {
      hide AfterSelect, Retries.Select, Numbered, Requests.EncodeRequest, MX.BuildRequest, MX.Entered, MX.Erased;
      var s, place := SelectLink(target, exclude, net);
      if s.Exhausted? {
        return Refused(s);
      }
      var m := At(place);
      var result := m.Execute(p);
      r := Executed(place, result);
    }

    /** The selection, with the connections that it opens. */
    method SelectLink(target: Retries.Target, exclude: seq<Address>, net: Network) returns (s: Selection, place: Place)
      requires Valid()
      modifies this`links, cache
      ensures Valid() && old(links.Keys) <= links.Keys && forall i :: i in old(links) ==> links[i] == old(links)[i]
      ensures cache.View() == AfterSelect(old(cache.View()), cache.policy, target, exclude, net)
      ensures s == Retries.Select(old(cache.View()), cache.policy, target, exclude, net)
      ensures !s.Exhausted? ==> (s.Default? <==> place == Seed) && Has(place)
      ensures forall i :: i in links && i !in old(links) ==> fresh(links[i]) && fresh(links[i].connection) && Blank(i)
    {
      hide AfterSelectForKey, AfterSelectAny, SelectForKey, SelectAny, Numbered, PoolKey;
      SelectedNumbered(cache.View(), cache.policy, target, exclude, net);
      var conn;
      match target {
        case Keyed(key) => s, conn := cache.SelectServerForKey(key, exclude, net);
        case Keyless => s, conn := cache.SelectAnyServer(exclude, net);
      }
      place := Seed;
      if s.Chosen? {
        place := Pooled(conn.value.serial);
        PoolSerial(cache.View(), s, conn);
      }
      OpenNew();
    }

    ghost predicate Blank(i: nat)
      requires i in links
      reads this, links[i], links[i].connection
    {
      links[i].Books() == MX.START.ledger && links[i].connection.outgoing == []
    }

    /** The connections that a selection opened. */
    method OpenNew()
      requires Apart()
      modifies this`links
      ensures Apart() && forall i: nat :: i in links <==> i < cache.nextSerial || i in old(links)
      ensures forall i :: i in old(links) ==> links[i] == old(links)[i]
      ensures forall i :: i in links && i !in old(links) ==> fresh(links[i]) && fresh(links[i].connection) && Blank(i)
    {
      for i := 0 to cache.nextSerial
        invariant Apart() && forall j: nat :: j in links <==> j < i || j in old(links)
        invariant forall j :: j in old(links) ==> links[j] == old(links)[j]
        invariant forall j :: j in links && j !in old(links) ==> fresh(links[j]) && fresh(links[j].connection) && Blank(j)
      {
        if i !in links {
          OpenOne(i);
        }
      }
    }

    method OpenOne(i: nat)
      requires Apart() && i !in links
      modifies this`links
      ensures Apart() && i in links && links == old(links)[i := links[i]]
      ensures fresh(links[i]) && fresh(links[i].connection) && Blank(i)
    {
      var arrives: Blob := *;
      var socket := new Connection(arrives);
      var m := new MC.MultiplexedConnection(config, socket);
      links := links[i := m];
    }
  }

  lemma PoolSerial(c: Cache, s: Selection, conn: Option<Conn>)
    requires Numbered(c) && s.Chosen? && conn.Some? && PoolKey(s.node) in c.pool && c.pool[PoolKey(s.node)] == conn.value
    ensures conn.value.serial < c.nextSerial
  {
  }
}
