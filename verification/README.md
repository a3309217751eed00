# A model of the Hot Rod C++ client

This project models the core of a Hot Rod 4.0/4.1 client in Dafny and proves what that core is for:
that many threads can share one connection without ever getting each other's answers, that keys are
routed to the servers that own them, that retries make progress, that bytes written are bytes read,
and that a SCRAM handshake ends as RFC 5802 says it does.

The model follows the source's own form. What the source computes with expressions is a function;
what it computes by updating fields, buffers or streams is a class or a method, proved equal to a
function; the properties are lemmas about those functions. The interleaving of threads is a
transition system whose steps are the stretches of code between two accesses to shared state. The
methods of `MultiplexedConnections.MultiplexedConnection` are the code of single threads without
interleaving; they are proved against the same functions on the map, the promises and the stream that
the steps apply. The methods of `RemoteCaches.RemoteCache` each run under one lock and are single steps.

| file | what it models |
|---|---|
| `Bytes`, `Arithmetic`, `Decimals` | byte strings, parse results, decimal notation and a few facts about division |
| `Codec`, `Connections` | variable-length and fixed integers, length-prefixed fields; the socket and its chunked reads and writes |
| `Entries`, `Requests`, `Responses` | entry metadata, request frames, response frames and body parsers |
| `Multiplexing` | the transition system: `execute`, the read loop, `close`, the server, in any interleaving; exactly-once resolution |
| `Alignment`, `Delivery` | the byte stream added to it: alignment, no cross-delivery and delivery over whole runs |
| `Writing` | what is on the wire over whole runs, and what a server reads of it |
| `Misalignment` | the responses whose body is left unread, and what can follow |
| `WholeFrames` | the same system with failed sends and a server that sends any whole frames: the exact condition for alignment |
| `MultiplexedConnections` | the code of the steps, on the real fields |
| `MurmurHash3` | the hash on 64-bit words, collision-freedom |
| `JavaVectors` | two literal keys whose Java hashes pin the constants and the seed of the hash |
| `Segments` | the segment formula against Java's |
| `Topologies`, `ConsistentHash` | the topology parser, de-duplication, the hash-ID table and the owners of a key |
| `ServerSelection`, `RemoteCaches`, `Retries` | candidate order, connection pool, the state under `stateMutex_`, retry series |
| `Routing` | where an operation goes, in terms of the update that the server sent |
| `Operations` | selection and `execute` together: many operations over many connections |
| `Scram`, `Sasl`, `Authentication`, `Truncation` | SCRAM messages, the handshake over bytes, completeness, soundness, streams that end early |

`dafny verify dfyconfig.toml` checks everything.

## Conventions

- A socket is the sequence of bytes that it will still deliver. A failure or a disconnect is a stream
  that ends; fragmentation is an arbitrary choice inside `Connection.Receive` and `Connection.Send`.
- `std::string` and `ByteArray` are both sequences of bytes. Sizes cast to 32 bits are cut modulo 2^32.
- A variable-length integer that runs on past the width of its type shifts by more than that width in
  C++, which has no meaning there. The model calls it `Undefined`, and no claim is made beyond it.
- Locks are atomic steps. Randomness (the nonce), the network and OpenSSL are parameters. Of the
  cryptographic functions only lengths and "decoding inverts encoding" are assumed
  (`Scram.Lawful`), and `Scram.LawsAreConsistent` shows that these laws can be met.

## Where the code and its comments disagree

The model follows the code.

- src/hash/ConsistentHash.cpp:69-73 calls the two segment formulas equivalent. They agree for all
  hashes exactly for the segment counts that divide 2^31 or 2^31 + 1 (`Segments.FormulasAgreeIff`);
  five segments are a counterexample (`Segments.FiveSegmentsPart`).
- include/hotrod/ConsistentHash.h:59 says modulo; the code multiplies and divides.
- src/transport/MultiplexedConnection.cpp:220-223 and 248-259 go on with the body of the response
  unread, and so does a parser that throws because of the status (266-270): the stream stays aligned
  if and only if there is no body (`Misalignment.UnreadBodyIff` for one frame,
  `WholeFrames.AlignedIffTidy` over whole runs). `Misalignment.ForeignAnswer` is a run in which a send
  fails after all bytes but one, the server takes the next request's first byte for the missing one,
  and its proper answer resolves another request with bytes out of its value. Delivery is therefore
  proved for servers that answer each request once, with its ID, its opcode and a fitting body or an
  error, and without failed sends.
- Retrying "excluding what was tried" (src/operations/RemoteCache.cpp:14-17) grows the exclusions after
  failures that the future delivers. A failure thrown by `execute` itself carries only its own node,
  so earlier exclusions are lost (`Retries.ProgressIff`, `Retries.ThrownFailureForgets`).
- include/hotrod/SaslAuthenticator.h:86 promises a HotRodClientException on any failure. For any three
  responses, errors and refusals included, and wherever the stream ends, the exception is another one
  if and only if the stream ends inside what still had to be read, the salt or the signature is not
  base64, or the key derivation refuses its arguments (`Authentication.UntypedOnTheWireIff`).
- The client does not escape user names as section 5.1 of RFC 5802 asks: a server reads the
  configured name exactly if it has no comma and no equals sign (`Scram.UserNameRecoveredIff`).
- A topology replaces the previous one whatever its ID (src/operations/RemoteCache.cpp:94), so
  nothing is said about the order of topology IDs.

## Model

| member | source | states |
|---|---|---|
| `Multiplexing.StepConsistent` | src/transport/MultiplexedConnection.cpp:114-293 | every step of every thread, of `close` and of the server keeps the invariant: each registered ID is in exactly one of pending, held by the reader, answered or failed, withdrawn |
| `Multiplexing.ExactlyOnce` | src/transport/MultiplexedConnection.cpp:58-342 | the invariant holds in every state of every run, for any interleaving and any bytes from the server, until the 64-bit counter wraps; with it every byte on the wire belongs to one call that got as far as sending |
| `Multiplexing.NeverSetTwice` | src/transport/MultiplexedConnection.cpp:332-340 | a request that `closeAllPending` finds has an unset promise, so the handler for satisfied promises is dead |
| `Multiplexing.RefusedLeavesNothing` | src/transport/MultiplexedConnection.cpp:122-126 | after a call that fails with phase BeforeSend the whole wire consists of what other calls wrote, and no entry of it was ever in the map |
| `Multiplexing.WroteLogged` | src/transport/MultiplexedConnection.cpp:148-162 | a send, complete or failed, adds exactly the bytes of one call to the wire, and each call sends at most once |
| `Multiplexing.MovedLogged` | src/transport/MultiplexedConnection.cpp:114-166 | every other step of a call leaves the wire as it is |
| `Multiplexing.StaysOver` | src/transport/MultiplexedConnection.cpp:58-83 | a closed connection with no call past its check stays so in every continuation |
| `Multiplexing.ClosedSettlesAll` | src/transport/MultiplexedConnection.cpp:58-83 | if `close` ends with no call between its check and its registration, every request ever registered is resolved exactly once or withdrawn, from then on |
| `Multiplexing.EndFailsPending` | src/transport/MultiplexedConnection.cpp:280-342 | the end of the read loop and of `close` give each waiting request one failure that says the connection is gone, and touch no other promise |
| `Multiplexing.EndedLoopRefuses` | src/transport/MultiplexedConnection.cpp:280-291 | once the read loop has ended by itself every later call is refused with phase BeforeSend, in every continuation |
| `Multiplexing.PendingCheckedBefore` | src/transport/MultiplexedConnection.cpp:122-143 | what waits after that had passed its check before |
| `Multiplexing.StaysDisconnected` | src/transport/MultiplexedConnection.cpp:122-126 | a connection that is disconnected stays so and takes no further calls |
| `Multiplexing.StoppingLoopReadsNoMore` | src/transport/MultiplexedConnection.cpp:168-169 | a loop at its guard that was told to stop, or whose connection is gone, reads nothing more |
| `Multiplexing.CallGetsThere` | src/transport/MultiplexedConnection.cpp:122-146 | the steps of one call up to its send, as one change of the state |
| `Multiplexing.WrappedIdDisplaces` | src/transport/MultiplexedConnection.cpp:129-143 | why the counter must not wrap: the call after 2^64 others replaces a waiting entry, and then neither the map nor the read loop has anything of the call that waits |
| `Multiplexing.EnteredFates` | src/transport/MultiplexedConnection.cpp:139-143 | registering a fresh ID keeps one place per ID |
| `Multiplexing.TakenFates` | src/transport/MultiplexedConnection.cpp:215-227 | claiming moves an ID from pending to the reader and nowhere else |
| `Multiplexing.SettledFates` | src/transport/MultiplexedConnection.cpp:236-278 | resolving the claimed request keeps one place per ID |
| `Multiplexing.ErasedFates` | src/transport/MultiplexedConnection.cpp:152-163 | withdrawing after a failed send keeps one place per ID, even if the reader or a close was faster |
| `Multiplexing.AllClosedFates` | src/transport/MultiplexedConnection.cpp:325-342 | failing everything pending keeps one place per ID and empties the map |
| `Alignment.AlignedThroughout` | src/transport/MultiplexedConnection.cpp:139-278 | in every run with a well-behaved server and no failed send, the unread bytes are at all times whole frames (or the body of the frame being read); while the loop runs every answer is still ahead, held by the loop, or the one value of its own promise; no promise ever holds a foreign outcome |
| `Alignment.OwnAnswer` | src/transport/MultiplexedConnection.cpp:215-278 | no cross-delivery: what a promise gets is computed from the frame with its own ID, or reports a failed connection |
| `Alignment.AnswersArrive` | src/transport/MultiplexedConnection.cpp:168-278 | delivery: whenever the running loop has begun all that arrived and holds nothing, every answered request has the status and body of its own answer, and only that |
| `Delivery.Iterates` | src/transport/MultiplexedConnection.cpp:168-278 | an iteration on an aligned stream takes exactly one frame off it |
| `Delivery.Drains` | src/transport/MultiplexedConnection.cpp:168-278 | from every aligned state between iterations the loop alone reads all that arrived, in four steps a frame, and every answered request is resolved with its own outcome |
| `Delivery.CleanRunIdle` | src/transport/MultiplexedConnection.cpp:139-278 | what is said of aligned states between iterations holds after every clean run that leaves the loop running |
| `Delivery.CleanRunsDrain` | src/transport/MultiplexedConnection.cpp:139-278 | so every clean run can be continued |
| `Alignment.StepAligned` | src/transport/MultiplexedConnection.cpp:114-342 | one clean step keeps alignment |
| `Alignment.NextHead` | src/transport/MultiplexedConnection.cpp:171-213 | the header read is exactly that of the next frame, with its topology update and error text; an empty stream gives none |
| `Alignment.HeadIsExpected` | src/transport/MultiplexedConnection.cpp:215-227 | there are no orphans: the request of the frame read is pending |
| `Alignment.RightConclusion` | src/transport/MultiplexedConnection.cpp:234-278 | the loop concludes what the frame means for its request and stops at the frame's last byte |
| `Alignment.NoReject` | src/transport/MultiplexedConnection.cpp:173-177 | the magic-byte check never fails in such a run |
| `Alignment.WireDecodes` | src/transport/MultiplexedConnection.cpp:145-151 | the bytes written by all threads split into the requests sent, in one way only |
| `Writing.ServerReads` | src/transport/MultiplexedConnection.cpp:295-323 | a server reads back ID, version, cache name, flags, intelligence, the stored topology ID and the command that `buildRequest` was given |
| `Writing.WritesAreRegistered` | src/transport/MultiplexedConnection.cpp:139-163 | in every run each write on the wire, complete or not, is of the request that its own call registered, under that call's ID |
| `Misalignment.OrphanKeepsAlignmentIff` | src/transport/MultiplexedConnection.cpp:215-224 | the step that drops a response nobody waits for ends at the next frame if and only if there is no body |
| `Misalignment.SkippedKeepsAlignmentIff` | src/transport/MultiplexedConnection.cpp:247-271 | so does the step for an unexpected opcode, a refused status or a status without body |
| `Misalignment.UnreadBodyIff` | src/transport/MultiplexedConnection.cpp:215-271 | from every state that a clean run reaches with nothing left to read: a frame whose body the loop does not read is dealt with, and the loop stands at a frame boundary again if and only if the frame had no body |
| `Misalignment.TwoReadings` | src/transport/MultiplexedConnection.cpp:171-213 | the body of one answer can be, byte for byte, a whole answer to another request |
| `Misalignment.Spliced` | src/codec/HeaderCodec.cpp:10-57 | a request without its last byte is read as another request, completed by the first byte of what follows |
| `Misalignment.ServerMisreads` | src/transport/Connection.cpp:159-183 | after a send that failed one byte short, a server reads a whole request with that ID for another key |
| `Misalignment.ForeignAnswer` | src/transport/MultiplexedConnection.cpp:149-278 | a run from the start, for all keys and configurations: a send fails one byte short, the next request is sent, the server's only response is a proper answer to the request it reads with the first ID, and the second request is resolved with a value that was never sent for it |
| `WholeFrames.AlignedIffTidy` | src/transport/MultiplexedConnection.cpp:168-278 | over every run in which the server sends whole frames (any IDs, opcodes, statuses, repetitions) and sends may fail: the stream is aligned in all states if and only if no step skips a body that is there |
| `WholeFrames.OwnFrameOnly` | src/transport/MultiplexedConnection.cpp:215-278 | and then every promise holds what was concluded from a whole frame with its own ID, or a failure of the connection |
| `WholeFrames.StepWhole` | src/transport/MultiplexedConnection.cpp:114-342 | one such step keeps alignment and no cross-delivery |
| `WholeFrames.FrameConcluded` | src/transport/MultiplexedConnection.cpp:234-278 | for every frame whose body is read if it fits and absent if it is skipped, the loop concludes what the frame says and stops at its end |
| `Operations.BeforeSendSound` | src/operations/RemoteCache.cpp:892-1048 | in every run of any number of operations and connections, with topology changes at any point: if one failed with phase BeforeSend, in its selection or in `execute`, the wire of every connection consists of what other operations wrote, and no pending map has had an entry of it |
| `Operations.SeparateThroughout` | src/operations/RemoteCache.cpp:892-1090 | in every such run each connection is consistent and knows only operations dispatched to it, and the guarded state is sound |
| `Operations.StaysFailed` | src/operations/RemoteCache.cpp:957-980 | an operation that failed so stays failed |
| `Operations.GivenUpIff` | src/operations/RemoteCache.cpp:930-980 | an operation is given up if and only if its selection is exhausted; whoever is chosen has a pooled connection for its own address |
| `Operations.RemoteClient.Operate` | src/operations/RemoteCache.cpp:294-307 | select, then execute: at most the selected connection changes, and with phase BeforeSend no pooled, default or new connection has a changed map, promise or outgoing byte |
| `MultiplexedConnections.MultiplexedConnection.Execute` | src/transport/MultiplexedConnection.cpp:114-166 | refused and nothing changed, or registered under the next ID and its frame appended to the wire, or withdrawn with a proper prefix written |
| `MultiplexedConnections.MultiplexedConnection.Close` | src/transport/MultiplexedConnection.cpp:58-83 | everything pending is failed, and the connection is closed |
| `MultiplexedConnections.MultiplexedConnection.Build` | src/transport/MultiplexedConnection.cpp:295-323 | the frame is the encoded request with this ID, version, flags and topology ID |
| `MultiplexedConnections.MultiplexedConnection.ClaimPending` | src/transport/MultiplexedConnection.cpp:215-227 | takes the entry of this ID and no other, or changes nothing |
| `MultiplexedConnections.MultiplexedConnection.Resolve` | src/transport/MultiplexedConnection.cpp:273-278 | sets the promise of this ID and no other |
| `MultiplexedConnections.MultiplexedConnection.CloseAllPending` | src/transport/MultiplexedConnection.cpp:325-342 | the loop sets the promise of exactly the pending requests and clears the map |
| `MultiplexedConnections.MultiplexedConnection.Conclude` | src/transport/MultiplexedConnection.cpp:234-278 | error, opcode mismatch, parser exception or answer, and how far the stream was read |
| `MultiplexedConnections.MultiplexedConnection.ReadOnce` | src/transport/MultiplexedConnection.cpp:168-293 | one iteration on its own: what it resolves, what it leaves unread, the topology ID it stores, and what a bad stream does to everything that waits |
| `MultiplexedConnections.StepsAreReadOnce` | src/transport/MultiplexedConnection.cpp:168-293 | the steps of the transition system have exactly the effect of the code of an iteration on flags, topology ID, map, promises and stream |
| `MultiplexedConnections.StepsAreExecute` | src/transport/MultiplexedConnection.cpp:114-166 | and the steps of a call exactly that of the code of `execute`, refused, sent or failed after any number of bytes |
| `MurmurHash3.State.BMix` | src/hash/MurmurHash3.cpp:19-39 | the in-place round is the function `Round` of the old state and block |
| `MurmurHash3.ComputeHash128` | src/hash/MurmurHash3.cpp:53-111 | the loop over blocks, the tail and the finalization compute `Hash128` |
| `MurmurHash3.TailWord` | src/hash/MurmurHash3.cpp:78-95 | the fall-through switch packs the sign-extended bytes of the tail |
| `MurmurHash3.OddInjective` | src/hash/MurmurHash3.cpp:20-30 | multiplication by any odd word modulo 2^64 is injective |
| `MurmurHash3.FmixInjective` | src/hash/MurmurHash3.cpp:42-50 | the finalization mix is injective |
| `MurmurHash3.RoundInjective` | src/hash/MurmurHash3.cpp:19-39 | a round is injective in the hash for a fixed block, and in the block for a fixed hash |
| `MurmurHash3.FinishInjective` | src/hash/MurmurHash3.cpp:98-110 | the finalization is injective for every size |
| `MurmurHash3.WordInjective` | src/hash/MurmurHash3.cpp:6-16 | `getblock` loses no byte |
| `MurmurHash3.PackInjective` | src/hash/MurmurHash3.cpp:76-95 | packing with sign extension is injective on tails of one length |
| `MurmurHash3.MultipliersAgree` | src/hash/MurmurHash3.cpp:59-68 | the multipliers depend on the number of rounds only and stay odd for ever |
| `MurmurHash3.RoundsMeet` | src/hash/MurmurHash3.cpp:62-68 | keys that differ in one block never share their state again |
| `MurmurHash3.NoCollision` | src/hash/MurmurHash3.cpp:53-111 | two keys of one length that differ only inside one block, or only in the tail, have different 128-bit hashes, for every seed |
| `MurmurHash3.ShortKeysInjective` | src/hash/MurmurHash3.cpp:53-111 | `hash128` is injective on keys of one length up to 16 |
| `Segments.SegmentInRange` | src/hash/ConsistentHash.cpp:63-83 | the segment is in [0, n) for every hash and every n in [1, 2^31) |
| `Segments.AtLeast` | src/hash/ConsistentHash.cpp:78-78 | a hash is in segment s or above exactly from a boundary on |
| `Segments.Monotone` | src/hash/ConsistentHash.cpp:78-78 | the mapping is monotone |
| `Segments.Balanced` | src/hash/ConsistentHash.cpp:63-78 | each segment is one interval of floor(2^31/n) or ceil(2^31/n) hashes, and the intervals cover everything |
| `Segments.NeverBelowJava` | src/hash/ConsistentHash.cpp:69-78 | the client's segment is never below Java's |
| `Segments.AtMostOneAhead` | src/hash/ConsistentHash.cpp:69-78 | whenever n*n <= 2^31 it is Java's or the next |
| `Segments.PartAt` | src/hash/ConsistentHash.cpp:69-78 | if n divides neither 2^31 nor 2^31 + 1, the first hash of the last segment is a counterexample |
| `Segments.FormulasAgreeIff` | src/hash/ConsistentHash.cpp:69-78 | the two formulas agree on all hashes if and only if n divides 2^31 or 2^31 + 1 |
| `Segments.FiveSegmentsPart` | src/hash/ConsistentHash.cpp:69-78 | five segments and a hash on which they differ |
| `Topologies.KeptMembers` | src/topology/TopologyInfo.cpp:79-101 | de-duplication loses nothing but repetitions |
| `Topologies.KeptAddressesDistinct` | src/topology/TopologyInfo.cpp:79-101 | kept servers have pairwise distinct addresses |
| `Topologies.KeptFrom` | src/topology/TopologyInfo.cpp:79-101 | they come in wire order, each with its wire position as hash ID |
| `Topologies.KeptHashIds` | src/topology/TopologyInfo.cpp:79-101 | hash IDs are distinct; for lists up to 2^31 they increase and each is the position of its server in the update |
| `Topologies.KeptAll` | src/topology/TopologyInfo.cpp:79-101 | nothing is dropped if and only if the list has no duplicates |
| `Topologies.SamePosition` | src/topology/TopologyInfo.cpp:79-131 | index j means the same server on both sides if and only if no address repeats up to j |
| `Topologies.ReadWrittenUpdate` | src/topology/TopologyInfo.cpp:48-134 | every update is read to its last byte at each level of intelligence |
| `Topologies.ParseTopologyInfo` | src/topology/TopologyInfo.cpp:48-134 | the nested reading loops accept exactly the streams that carry an update and return what it means |
| `Topologies.ReceiveServers` | src/topology/TopologyInfo.cpp:79-101 | the reading and de-duplicating loop computes `Kept` of the list on the wire |
| `Topologies.ReceiveSegments` | src/topology/TopologyInfo.cpp:103-131 | the segment loop reads every owner list |
| `Topologies.ReceiveCollected` | src/topology/TopologyInfo.cpp:54-63 | the parser's own varint reader agrees with the streaming reader on every stream |
| `ConsistentHashing.SegmentForIsSegmentOf` | src/hash/ConsistentHash.cpp:58-86 | for a consistent table the fallback to segment 0 is dead |
| `ConsistentHashing.SegmentFormula` | src/hash/ConsistentHash.cpp:58-86 | the whole way from key to segment in numbers: 32-bit hash with seed 9001, modulo 2^31, times the segments, divided by 2^31 |
| `ConsistentHashing.MaskedIsRemainder` | src/hash/ConsistentHash.cpp:66-67 | masking off the sign bit is the remainder modulo 2^31 |
| `ConsistentHashing.OctetsOfKey` | src/hash/ConsistentHash.cpp:63-64 | the hash sees exactly the bytes of the key |
| `ConsistentHashing.ConvertConsistent` | src/hash/ConsistentHash.cpp:143-190 | the converted table is consistent, and non-empty exactly if the topology is valid |
| `ConsistentHashing.FindByIdAt` | src/hash/ConsistentHash.cpp:192-203 | the search by hash ID finds the server at its own index |
| `ConsistentHashing.OwnersAreIndexed` | src/hash/ConsistentHash.cpp:114-184 | the detour over hash IDs is direct indexing: no owner dropped, same order |
| `ConsistentHashing.ParsedOwnersAreIndexed` | src/hash/ConsistentHash.cpp:114-184 | the same for every parsed topology |
| `ConsistentHashing.WireOwners` | src/topology/TopologyInfo.cpp:79-131 | without duplicates on the wire, owners are the servers that the wire indexes name |
| `ConsistentHashing.PrimaryIsHead` | src/hash/ConsistentHash.cpp:88-184 | of every valid parsed topology the primary owner is the first of the owners, and there is one if and only if the update lists one |
| `ConsistentHashing.HashKey` | src/hash/ConsistentHash.cpp:63-67 | the masked 32-bit hash, computed as the source does |
| `ConsistentHashing.ConsistentHash.Clear` | src/hash/ConsistentHash.cpp:186-190 | the table becomes empty |
| `ConsistentHashing.ConsistentHash.UpdateFromTopology` | src/hash/ConsistentHash.cpp:143-184 | the loops leave the converted topology, or nothing if an index is out of range |
| `ConsistentHashing.ConsistentHash.GetSegment` | src/hash/ConsistentHash.cpp:58-86 | the segment of a key in this table |
| `ConsistentHashing.ConsistentHash.FindServerByHashId` | src/hash/ConsistentHash.cpp:192-203 | the first server with this hash ID |
| `ConsistentHashing.ConsistentHash.GetOwners` | src/hash/ConsistentHash.cpp:114-141 | the owners of a key, in table order |
| `ConsistentHashing.ConsistentHash.GetPrimaryOwner` | src/hash/ConsistentHash.cpp:88-112 | the head of the owners, or none if and only if no owner is listed or the first one listed is unknown |
| `ServerSelection.OrderKeyCandidates` | include/hotrod/ServerSelection.h:32-54 | the push loops compute `Candidates` |
| `ServerSelection.CandidatesFilter` | include/hotrod/ServerSelection.h:32-54 | it is the first-occurrence filter of owners then servers, without repetitions, containing exactly what is not excluded |
| `ServerSelection.OwnersFirst` | include/hotrod/ServerSelection.h:32-54 | before a non-owner stand all owners that are not excluded, and only when proxying |
| `ServerSelection.UnionNodes` | include/hotrod/ServerSelection.h:66-73 | the loop computes the union |
| `ServerSelection.UnionMembers` | include/hotrod/ServerSelection.h:66-73 | the union has exactly the members of both lists, the first list in front |
| `RemoteCaches.PoolKeyInjective` | src/operations/RemoteCache.cpp:1052-1053 | `host:port` keys are injective, even for hosts with colons |
| `RemoteCaches.SoundThroughout` | src/operations/RemoteCache.cpp:86-104 | after any sequence of updates and selections the table of a hash-aware client is exactly the conversion of its topology and any other client has none, pool keys name current servers, and pooled connections are for their key's address |
| `RemoteCaches.UpdatedKeepsInvariant` | src/operations/RemoteCache.cpp:86-104 | a topology update keeps that invariant |
| `RemoteCaches.AcquiredKeepsInvariant` | src/operations/RemoteCache.cpp:1050-1090 | so does acquiring a connection, which is then in the pool for its address |
| `RemoteCaches.SweptKeepsInvariant` | src/operations/RemoteCache.cpp:934-955 | so does a sweep over candidates |
| `RemoteCaches.FirstReachable` | src/operations/RemoteCache.cpp:934-955 | a sweep stops at the first candidate that was reachable when it began |
| `RemoteCaches.RoutingPreference` | src/operations/RemoteCache.cpp:914-955 | a non-owner is chosen only when proxying and after every non-excluded owner failed |
| `RemoteCaches.ExhaustionTruthful` | src/operations/RemoteCache.cpp:957-980 | when keyed selection throws, nothing was reachable, `ownersExhausted` is true, and `triedNodes` is exactly exclusions, owners and (proxying) servers |
| `Routing.UsableIff` | src/hash/ConsistentHash.cpp:143-184 | an update gives a table if and only if it has segments, fewer than 2^31, and every index names a kept server |
| `Routing.DefaultIff` | src/operations/RemoteCache.cpp:904-989 | a keyed selection is the default connection if and only if the client is not hash-aware, the update cannot be used, or it lists no owner for the key's segment |
| `Routing.FirstWorkingIsChosen` | src/operations/RemoteCache.cpp:914-955 | otherwise the first owner in the order of the update's indexes, and after them (when proxying) the first server, that is neither excluded nor unreachable |
| `Routing.SweepFindsFirst` | src/operations/RemoteCache.cpp:930-955 | filtering first and sweeping then ends at the first node of the unfiltered list that works |
| `Routing.TriedAreFailures` | src/operations/RemoteCache.cpp:934-955 | the nodes reported as tried are the candidates up to the chosen one, and all before it could not be reached |
| `Routing.KeylessDefaultIff` | src/operations/RemoteCache.cpp:1003-1010 | without a key the default connection is used if and only if there is no topology |
| `Routing.KeylessChoice` | src/operations/RemoteCache.cpp:1012-1037 | otherwise the first server that is neither excluded nor unreachable |
| `Routing.KeylessExhaustion` | src/operations/RemoteCache.cpp:1039-1047 | when none works the report is exactly exclusions and servers, never blamed on owners |
| `Routing.ExclusionsMatterIff` | src/operations/RemoteCache.cpp:904-989 | exclusions make a difference for a key if and only if the update gives it an owner that the client can use |
| `Routing.LiveIsReused` | src/operations/RemoteCache.cpp:1055-1087 | a live pooled connection is used and nothing changes; otherwise a new one has a number never given out, or there is none |
| `Routing.SweptConnection` | src/operations/RemoteCache.cpp:934-955 | the connection of the chosen server is the live one of the pool, or new |
| `Routing.UpdateKeepsIff` | src/operations/RemoteCache.cpp:1092-1115 | an update drops a connection if and only if its server is gone |
| `RemoteCaches.RemoteCache.HandleTopologyUpdate` | src/operations/RemoteCache.cpp:86-104 | the whole new state after an update |
| `RemoteCaches.RemoteCache.CleanupStaleConnections` | src/operations/RemoteCache.cpp:1092-1115 | the pool keeps exactly the connections of current servers |
| `RemoteCaches.RemoteCache.GetConnectionForServer` | src/operations/RemoteCache.cpp:1050-1090 | a live connection is reused, a dead one replaced, a failed connect leaves none |
| `RemoteCaches.RemoteCache.Sweep` | src/operations/RemoteCache.cpp:934-955 | the loop returns the connection of the first candidate that works and every node tried |
| `RemoteCaches.RemoteCache.SelectServerForKey` | src/operations/RemoteCache.cpp:892-990 | the selection for a key and the state it leaves |
| `RemoteCaches.RemoteCache.SelectAnyServer` | src/operations/RemoteCache.cpp:992-1048 | the same without a key |
| `Retries.ChosenFromPool` | src/operations/RemoteCache.cpp:887-955 | a chosen node qualifies and is not excluded |
| `Retries.ExhaustedIff` | src/operations/RemoteCache.cpp:930-980 | selection gives up if and only if no qualified node outside the exclusions is reachable |
| `Retries.ProgressIff` | src/operations/RemoteCache.cpp:18-31 | the next exclusions contain the previous ones and the node used if and only if the future delivered the failure or there were none |
| `Retries.ExclusionsGrow` | src/operations/RemoteCache.cpp:18-31 | over a series of delivered failures exclusions grow and contain every node used |
| `Retries.RetriesTerminate` | src/operations/RemoteCache.cpp:887-1048 | no node is used twice, so a series is no longer than the list of qualified nodes |
| `Retries.KeyedRetriesBounded` | src/operations/RemoteCache.cpp:887-990 | at most one failed dispatch per server, without proxying one per owner |
| `Retries.ThrownFailureForgets` | src/transport/MultiplexedConnection.cpp:152-163 | a failure thrown by `execute` makes the next attempt return to a node tried before |
| `Retries.SeriesExhausts` | src/operations/RemoteCache.cpp:887-1048 | after as many failed dispatches as there are qualified nodes the next selection is exhausted, whatever the network does |
| `Retries.ToldExactly` | src/operations/RemoteCache.cpp:18-31 | what the caller is told was tried: exclusions, nodes tried now and nodes carried, and nothing else; one node if `execute` throws |
| `Retries.ExclusionsIgnoredIff` | src/operations/RemoteCache.cpp:982-989 | exclusions make no difference to the selection for a key if and only if the key is not routed |
| `Codec.WriteVar` | src/codec/Codec.cpp:8-45 | the writing loop appends the encoding |
| `Codec.ReadVarAt` | src/codec/Codec.cpp:18-66 | the buffer reader computes `ReadVar` at any offset |
| `Codec.LengthBounds` | src/codec/Codec.cpp:8-45 | encodings have 1 to 5, or 1 to 10 bytes |
| `Codec.EncodedLength` | src/codec/Codec.cpp:8-45 | an encoding has k bytes at most exactly if the value has 7k bits at most |
| `Codec.ReadWritten` | src/codec/Codec.cpp:8-66 | reading inverts writing, with any suffix, and consumes exactly the encoding |
| `Codec.PrefixFree` | src/codec/Codec.cpp:8-66 | no encoding is a prefix of another |
| `Codec.DecodeMinimal` | src/codec/Codec.cpp:18-66 | no decodable string is shorter than the encoding, and the encoding is the only one as short |
| `Codec.WriteLong` | src/codec/Codec.cpp:71-75 | the loop appends the eight bytes |
| `Codec.AssembleLong` | src/codec/Codec.cpp:78-87 | the loop assembles the signed value |
| `Codec.ReadWrittenLong` | src/codec/Codec.cpp:71-87 | every signed 64-bit value round-trips |
| `Codec.ReadWrittenBlob` | src/codec/Codec.cpp:91-144 | a byte string round-trips if and only if it is shorter than 2^32 |
| `Connections.Connection.Send` | src/transport/Connection.cpp:159-183 | everything is written however the socket chunks it; a failure leaves a proper prefix, or nothing if not connected |
| `Connections.Connection.Receive` | src/transport/Connection.cpp:185-217 | exactly the requested bytes however they are fragmented |
| `Connections.Connection.ReceiveVar` | src/transport/Connection.cpp:250-274 | the streaming reader agrees with the buffer reader |
| `Connections.Connection.ReceiveByteArray` | src/transport/Connection.cpp:276-285 | reads one length-prefixed field |
| `Connections.Connection.ReceiveMetadata` | src/transport/Connection.cpp:292-335 | reads one metadata block |
| `Entries.ReadWrittenMetadata` | src/transport/Connection.cpp:292-335 | metadata round-trips for all four combinations of expirations, and the stream is left at the value |
| `Entries.ReadWrittenEntry` | src/operations/RemoteCache.cpp:353-358 | so do whole entries |
| `Requests.WriteRequestHeader` | src/codec/HeaderCodec.cpp:10-57 | the field-by-field writer appends the encoded header |
| `Requests.WriteParams` | src/codec/HeaderCodec.cpp:46-56 | the loop appends every parameter |
| `Requests.WriteExpiration` | src/operations/RemoteCache.cpp:411-447 | time units and durations |
| `Requests.BuildBody` | src/operations/RemoteCache.cpp:405-450 | the bodies of the keyed operations |
| `Requests.ReadWrittenHeader` | src/codec/HeaderCodec.cpp:10-57 | a header determines all its fields |
| `Requests.ReadWrittenBody` | src/operations/RemoteCache.cpp:635-648 | a body determines key, durations, version and value |
| `Requests.ReadWrittenRequest` | src/transport/MultiplexedConnection.cpp:295-323 | a frame determines the request and where it ends |
| `Requests.SplitsOneWay` | src/transport/MultiplexedConnection.cpp:295-323 | a concatenation of frames splits in one way only |
| `Responses.ReceiveHead` | src/transport/MultiplexedConnection.cpp:171-213 | the loop's header reads accept exactly what `ReadHead` accepts |
| `Responses.ReceiveBody` | src/operations/RemoteCache.cpp:453-468 | the body parsers as functions of the stream |
| `Responses.ReadWrittenHead` | src/transport/MultiplexedConnection.cpp:171-213 | every header, with its update and its error text, is consumed to its last byte |
| `Responses.ParseWrittenBody` | src/operations/RemoteCache.cpp:515-531 | a parser reads the body of its own command to the last byte, and throws only when there is none |
| `Responses.EntryIsRead` | src/operations/RemoteCache.cpp:340-359 | getWithMetadata at status 0, put at 3 from version 40 on, and the conditional commands at 3 and 4 read exactly the entry |
| `Responses.ValueIsRead` | src/operations/RemoteCache.cpp:277-292 | get at status 0, and put at 3 before version 40, read exactly the value |
| `Responses.NothingIsRead` | src/operations/RemoteCache.cpp:515-531 | for every other status nothing is read, whatever is on the stream |
| `Responses.ThrowsIff` | src/operations/RemoteCache.cpp:277-292 | a parser throws if and only if the status means failure for its command |
| `Responses.OpcodesMeet` | src/operations/RemoteCache.cpp:298-303 | the client expects the response opcode of the protocol for each command |
| `Scram.XorBytes` | src/auth/SCRAM.cpp:243-254 | the loop computes the exclusive or bit by bit, and throws for different sizes |
| `Scram.XoredBack` | src/auth/SCRAM.cpp:243-254 | XOR undoes itself |
| `Scram.XoredIff` | src/auth/SCRAM.cpp:248-251 | a string is the result if and only if each of its bits is set exactly where the two others differ |
| `Scram.ParseServerFirstMessage` | src/auth/SCRAM.cpp:50-81 | the token loop computes `ParseServerFirst` |
| `Scram.AcceptedIff` | src/auth/SCRAM.cpp:50-81 | a message is accepted if and only if every count is readable and the last nonce, salt and count are present; those are the results |
| `Scram.AcceptedNonceCommaFree` | src/auth/SCRAM.cpp:54-68 | an accepted nonce has no comma |
| `Scram.StoiOfDecimal` | src/auth/SCRAM.cpp:72-74 | an iteration count in decimal notation is read back |
| `Scram.StoiOfDigits` | src/auth/SCRAM.cpp:72-74 | an iteration count after any spaces and before any rest: its value, or an exception without digits or outside int |
| `Scram.StoiOfSigned` | src/auth/SCRAM.cpp:72-74 | the same with a sign |
| `Scram.CreateClientFinalMessage` | src/auth/SCRAM.cpp:84-118 | the message, or its exceptions, computed with the XOR loop |
| `Scram.SignedMessageRecovered` | src/auth/SaslAuthenticator.cpp:215-219 | for every accepted server-first message, cutting at the first ",p=" gives the text that was signed |
| `Scram.SignedMessageDetermines` | src/auth/SCRAM.cpp:97-98 | the signed message determines user, nonces and server-first message |
| `Scram.UserNameRecoveredIff` | src/auth/SCRAM.cpp:43-47 | a server following section 5.1 of RFC 5802 reads the user name if and only if it has neither comma nor equals sign |
| `Scram.MechanismsNamed` | src/auth/SCRAM.cpp:26-31 | a digest is selected by its registered mechanism name and by no other |
| `Scram.KeysOfTheStandard` | src/auth/SCRAM.cpp:104-108 | the client's keys are those that section 3 of RFC 5802 derives |
| `Scram.SameMessage` | src/auth/SCRAM.cpp:97-98 | both sides put the same AuthMessage together |
| `Scram.HonestServerFirst` | src/auth/SCRAM.cpp:50-81 | what an honest server sends is parsed as it was meant |
| `Scram.ProofIsAccepted` | src/auth/SCRAM.cpp:104-114 | a server recovers a key that hashes to its StoredKey from the proof (section 3 of RFC 5802) |
| `Scram.ClientAccepted` | src/auth/SCRAM.cpp:84-118 | a server that takes the last field as the proof accepts the client-final message |
| `Scram.SignatureAccepted` | src/auth/SCRAM.cpp:121-146 | the client accepts that server's signature |
| `Sasl.Authenticate` | src/auth/SaslAuthenticator.cpp:128-233 | the driver ends as `Handshake` says and has sent exactly its requests, or a part of them when a send fails |
| `Sasl.TakeTurns` | src/auth/SaslAuthenticator.cpp:162-233 | the same for the two SCRAM turns |
| `Sasl.RespondTo` | src/auth/SaslAuthenticator.cpp:193-217 | the client's answer to a server-first message, or the failure |
| `Sasl.ConnectionSaslTransport.SendRequest` | src/auth/SaslAuthenticator.cpp:29-52 | one request under the next message ID, or a part of it |
| `Sasl.ConnectionSaslTransport.ReadResponseHeader` | src/auth/SaslAuthenticator.cpp:54-99 | the opcode, or the phase of the failure; an update is consumed |
| `Sasl.ConnectionSaslTransport.ReceiveOffer` | src/auth/SaslAuthenticator.cpp:144-155 | the list is drained and says whether the mechanism is offered |
| `Sasl.ConnectionSaslTransport.ReceiveAuth` | src/auth/SaslAuthenticator.cpp:168-177 | the completed flag and the challenge |
| `Authentication.BytesAreMessages` | src/auth/SaslAuthenticator.cpp:128-233 | for all server messages, and any updates riding along, the handshake over bytes is the conversation over messages |
| `Authentication.Completeness` | src/auth/SaslAuthenticator.cpp:128-233 | with an honest server and the same password the server accepts the proof and `authenticate` returns normally, for all three digests |
| `Authentication.CompletenessOnTheWire` | src/auth/SaslAuthenticator.cpp:128-233 | the same over the bytes |
| `Authentication.AuthenticatedIff` | src/auth/SaslAuthenticator.cpp:142-232 | `authenticate` returns normally if and only if the mechanism is offered, the nonce extends the client's and the signature is that of the message the proof was made for |
| `Authentication.SameConversation` | src/auth/SaslAuthenticator.cpp:215-232 | if the client accepts what a server signed for its own view and the keyed hash does not collide, both saw the same user, nonces and server-first message |
| `Authentication.UntypedIff` | src/auth/SaslAuthenticator.cpp:200-231 | exactly which complete conversations end in an exception without a phase |
| `Authentication.CutStream` | src/auth/SaslAuthenticator.cpp:142-232 | for any three responses, errors, statuses and wrong opcodes included, and every place at which the stream may end: an untyped failure after part of the requests if the cut falls inside what had to be read, and no difference otherwise |
| `Authentication.DialogueIsConversation` | src/auth/SaslAuthenticator.cpp:54-99 | without such responses that is the conversation of the other results |
| `Authentication.DialogueUntypedIff` | src/auth/SaslAuthenticator.cpp:142-232 | with complete responses the failure is untyped if and only if cryptography fails |
| `Authentication.AfterSendIff` | src/auth/SaslAuthenticator.cpp:142-173 | phase AfterSend means exactly a mechanism that is not offered, or an unexpected opcode in answer to a request that was made |
| `Authentication.UntypedOnTheWireIff` | src/auth/SaslAuthenticator.cpp:128-233 | for any three responses, cut anywhere, the failure is untyped if and only if the stream ends inside what still had to be read, or cryptography fails |
| `Truncation.HeadExtends` | src/auth/SaslAuthenticator.cpp:54-82 | what follows a response header does not change how it is read |
| `Truncation.HeadCut` | src/auth/SaslAuthenticator.cpp:54-82 | no proper prefix of a header is read as a header, and none fails by its magic byte |
| `Authentication.BeforeSendIff` | src/auth/SaslAuthenticator.cpp:131-140 | phase BeforeSend, nothing sent and an unsupported mechanism are the same thing |
| `Authentication.ReadWrittenAuth` | src/auth/SaslAuthenticator.cpp:29-52 | a server reads ID, version, opcode, intelligence, mechanism and token of each request, for no cache, without flags and topology |

## Left out

- The PING body parser (src/operations/RemoteCache.cpp:116-242): it simplifies its own layout.
- Socket setup, name resolution, timeouts and Winsock (src/transport/Connection.cpp:49-157).
- The inside of OpenSSL: hashes, HMAC, PBKDF2, base64 and random bytes are parameters with the laws of `Scram.Lawful`; their failures for lack of resources are not modelled, except those of PBKDF2 and of base64 decoding.
- Responses that are no well-formed header at all (a wrong magic byte): `Sasl.ReadOpcode` models them, and the theorems on cut streams do not speak of them.
- Thread joins, destructors, blocking, deadlock and liveness: locks are atomic steps and `close` waits for the read loop in one step. An `execute` that races with `close` is not promised a resolution.
- The bytes of a handshake on a connection that a selection opens: `Operations` starts new connections with nothing written, so what it says of outgoing bytes is about requests.
- Connecting again after a close, and two threads closing one connection at once.
- An exception thrown by the topology callback: the callback returns normally.
- Variable-length integers that run past their width: their C++ meaning is undefined, and runs that meet one leave the model. In the handshake they count as untyped failures.
- Message counters past 2^64: `Multiplexing.ExactlyOnce` assumes that fewer requests are made, and `Multiplexing.WrappedIdDisplaces` shows why.
- src/selector/ServerSelector.cpp (not built), and `selectServer` and `removeServer` of src/topology/TopologyInfo.cpp.
- `parseHashTopology` of src/hash/ConsistentHash.cpp:12-56: only tests call it.
- Order of topology IDs, and delivery of updates carried by orphan responses: the code promises neither.
- `HeaderCodec::readResponseHeader` (src/codec/HeaderCodec.cpp:61-97): the client reads response headers in the read loop.
- SASLprep: `authenticate` does not apply it, so client and server are taken to use the same bytes of a password.
- Opcode constants, `isTransient`, `outcomeUncertain` and the forwarding of RetryView: one branch each.
