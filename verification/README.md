# Verified model of the RPC registry, server and caller

The system is a small RPC framework in three languages: a registry (Rust) with which servers register
and keep themselves alive, RPC servers (Go), and a caller (Kotlin) that discovers servers through the
registry and multiplexes its calls over one connection per server. This project models its
concurrent core in Dafny and proves what the parts promise to each other, over every interleaving,
every run and every chunking of the byte streams.

`dafny verify dfyconfig.toml` checks everything.

## The parts

- **Store** (`Store`, `ServiceStore`, `MapRuns`, `StoreRuns`, `StoreLocks`). Two maps that must agree,
  changed in place by the class `ServiceStore`. Each operation acts on one map from key to (service,
  last heartbeat); every run of the two maps is a run of that one map, with a heartbeat split into its
  two critical sections. `StoreLocks` goes one level down, to single lock requests, grants and releases
  on two fair read-write locks with torn maps in between, and proves atomicity, deadlock freedom and
  termination.
- **Registry protocol** (`Registry`, `Requests`, `Publication`, `Delivery`, `Settling`, `Lifecycle`,
  `Discovery`). Connections, sweeper and
  bounded broadcast channel as steps of many tasks, with the error exits as written: publication,
  convergence of lagging subscribers, what a connection may touch, what cleanup and expiry leave, and
  what ends up in a caller's cache.
- **Framing** (`Framing`, `Streams`, `Wire`). The incremental decoder, the blocking reader and the
  two-write writer under a mutex, against one parser of whole byte strings.
- **Multiplexed RPC** (`Rpc`, `RpcReplies`, `RpcOrder`, `RpcFutures`, `RpcProgress`). Both ends of one connection, from the calling
  threads to the reply bytes: replies reach the calls they answer, and no call is lost.
- **Reconnect, retry, routing** (`Backoff`, `Reconnect`, `Retry`, `CallerRegistry`, `Routing`).

Conventions: a run is a sequence of events and a sequence of states, one longer, related step by step
(`Run`, `StepOf`); instants are natural numbers; what the environment decides (results of writes and
reads, handler outcomes, clock readings, scheduling) is part of the events.

## Where the code and its documentation differ

- docs/architecture.md:429-430 promise that timeouts and failed connects are retried. A timed-out future
  is read with `get`, which wraps the timeout in an ExecutionException, and a failed connect is a
  RuntimeException; `isRetryable` sees through neither. `Retry.Invoke` proves that the body of a proxied
  call runs exactly once, whatever happens.
- The server's back-off can pass its configured maximum (`Backoff.GoOvershoot` says exactly when), with
  the program's defaults of 1 and 30 seconds it reaches 32 (`Backoff.DefaultsOvershoot`), and it wraps to a negative delay for a maximum so large that the last doubling leaves 63 bits
  (`Backoff.GoDelaysPositiveIff`).
- The caller's cache merges lists. A service that loses its last instance is no longer in the lists, so
  its old instances stay in the cache (`CallerRegistry.VanishedServiceStays`).
- Two publishers may send their lists in the opposite order of building them, and a failed reply to a
  register request skips the publication. Either can leave a subscriber with an outdated list
  (`Publication.OrderIsNeeded`, `Publication.RepliesAreNeeded`), and nothing else can
  (`Publication.OutdatedBecause`); the next publication repairs both (`Publication.SubscribersConverge`).
- The blocking reader reports a plain end of file also when the stream stops right after a header
  (`Streams.ReadersAgree`).
- Reads have no deadline, and the server's registry client hangs in two places on a silent connection:
  in `Register`, waiting for the answer, and in `Run`, waiting for its reader without closing the
  connection (`Reconnect.StuckIff`). The second happens when the heartbeat loop has been cancelled
  (`Reconnect.ReaderNeverReturns`), and never after failed heartbeats alone, if a failed write means a
  connection on which reads do not block either (`Reconnect.ReaderHangsOnlyIfHalted`). Cancelling frees
  neither (`Reconnect.FreedIff`), and a stop that comes while it is dialing does not keep the client
  from hanging in `Register` (`Reconnect.AnswerNeverComes`, `Reconnect.StopCanComeTooEarly`).
- A cleanup also drops a key that another connection has registered since and is still serving
  (`Lifecycle.CleanupDropsLiveKey`); nothing else drops a key that is refreshed in time
  (`Lifecycle.DroppedByAnotherCleanup`). A server gets into that position whenever it starts:
  server/internal/server/server.go:35-39 registers twice, and server/internal/registry/client.go:60-62
  replaces the first connection without closing it, so whenever that one is closed the running server
  is deregistered, until its next heartbeat is rejected (`Reconnect.SelfHeals`).
- The close of a channel completes every call that was there when it began; any call that slips
  in later can be dropped from the pending map without being completed, and then only its timer ends it
  (`RpcFutures.CloseCompletesCalls`, `RpcFutures.LateCallsCanBeMissed`, `RpcFutures.OrphansTimeOut`).

## Model

| member | source | states |
|---|---|---|
| Store.ContentsIsTheLists | registry/src/registry/store.rs:15-18 | a key has (service, heartbeat) in the one map exactly when that instance is in that service's list, once, and in no other list |
| Store.VisibleIsContents | registry/src/registry/store.rs:138-159 | a list shown to subscribers names a key under a service exactly when the one map has it there, and names it once |
| Store.RegisterRefines | registry/src/registry/store.rs:35-64 | register keeps both maps in agreement, is one assignment of the one map, and reports a change exactly when the visible list changes |
| Store.HeartbeatReadRefines | registry/src/registry/store.rs:66-75 | the index read returns the service that the one map has for the key |
| Store.HeartbeatWriteRefines | registry/src/registry/store.rs:77-86 | the list write succeeds exactly when the key still has the service that was read, and then refreshes that entry only; the visible list never changes |
| Store.DeregisterRefines | registry/src/registry/store.rs:89-106 | deregister removes exactly that key and reports a change exactly when the visible list changes |
| Store.SweepRefines | registry/src/registry/store.rs:108-136 | remove_expired keeps exactly the entries alive at their own check; the visible list changes exactly when something was dropped |
| ServiceStores.ServiceStore.constructor | registry/src/registry/store.rs:21-26 | a new store is well formed and empty |
| ServiceStores.ServiceStore.Register | registry/src/registry/store.rs:35-64 | the loops in place do the assignment of the one map; the result is true exactly when the visible list changed |
| ServiceStores.ServiceStore.Heartbeat | registry/src/registry/store.rs:66-87 | an uninterrupted heartbeat finds a key exactly when it is present, refreshes it and changes nothing else |
| ServiceStores.ServiceStore.HeartbeatLists | registry/src/registry/store.rs:77-86 | the scan for the key in the list of the service that was read |
| ServiceStores.ServiceStore.Deregister | registry/src/registry/store.rs:89-106 | removal in place of exactly that key from both maps |
| ServiceStores.ServiceStore.RemoveExpired | registry/src/registry/store.rs:108-136 | the sweep in place, in any order of services: the returned vector has every dropped instance exactly once under its service, and nothing else |
| ServiceStores.BuildServiceList | registry/src/registry/store.rs:138-159 | the loop builds the visible list, empty services left out |
| ServiceStores.CleanupConnection | registry/src/network/server.rs:223-239 | removes every registered key still present, duplicates included, and no other; a list is published exactly when the visible list changed |
| MapRuns.HeartbeatOutcome | registry/src/registry/store.rs:66-87 | for every interleaving between the two steps: true exactly when the key has the same service at both, and then refreshed; otherwise nothing changes |
| MapRuns.GoneByTheBound | registry/src/registry/store.rs:108-136 | an entry not refreshed since t is gone by t + timeout + largest gap between sweeps |
| MapRuns.KeptWhileRefreshed | registry/src/registry/store.rs:108-136 | an entry refreshed less than the timeout before each sweep's check of it, and not deregistered, is never removed |
| StoreRuns.StepRefines | registry/src/registry/store.rs:35-136 | each critical section keeps the maps in agreement, is the same step of the one map, and reports exactly what the one map and the visible list say |
| StoreRuns.RunRefines | registry/src/registry/store.rs:35-136 | every run of the two maps is, state by state, a run of the one map |
| StoreRuns.OldestFirst | registry/src/registry/store.rs:58-62 | in every state of every run a service's list is in the order in which its keys were last assigned to the service, each key once |
| StoreRuns.HeartbeatOutcome | registry/src/registry/store.rs:66-87 | the split heartbeat on the two maps: its boolean, its effect, and that the visible list stays |
| StoreRuns.GoneByTheBound | registry/src/registry/health.rs:29-44 | by the expiry bound the key is in neither map and on no list |
| StoreRuns.KeptWhileRefreshed | registry/src/registry/health.rs:29-44 | a key refreshed in time stays on the visible list through every sweep |
| StoreLocks.StepKeeps | registry/src/registry/store.rs:36-37 | every lock or data action keeps mutual exclusion, the queues and the agreement of the committed maps |
| StoreLocks.StepSimulates | registry/src/registry/store.rs:68-77 | every action on the locks is one atomic step of the store or none; a listing sees committed maps only |
| StoreLocks.SchedulesAreAtomic | registry/src/registry/store.rs:35-159 | for every schedule of any set of calls: the atomic operations its steps stand for are a run of the store that ends in its state; every finished call took effect there exactly once (a heartbeat: one read, one later write), in steps of its own, and returned what the run reports at that point |
| StoreLocks.HeartbeatsReturn | registry/src/registry/store.rs:66-87 | on the locks: a finished heartbeat returned true exactly when its key had the same service in the store at its read and at its write |
| StoreLocks.SomeoneCanAct | registry/src/registry/store.rs:90-91 | in no reachable state is every unfinished task blocked |
| StoreLocks.ReadersShare | registry/src/registry/store.rs:139 | a listing at the head of its queue waits for no other listing, and a heartbeat's index read for no other one |
| StoreLocks.NoDeadlock | registry/src/registry/store.rs:109-110 | over every schedule: some task can act until all calls are finished, and no schedule is longer than the calls' actions |
| Registry.StepKeeps | registry/src/network/server.rs:51-239 | every step of connections and sweeper keeps the store well formed, keys under their peer's address and read positions within the channel |
| Registry.StoreRun | registry/src/network/server.rs:73-239 | a run of the registry, seen from the store, is a run of the store, so the heartbeat and expiry results apply |
| Requests.RegisterTakesEffect | registry/src/network/server.rs:117-142 | a registration assigns the peer's address with the requested port to the service as of now, is remembered, and is published exactly if the visible list changed |
| Requests.OneRequestAtATime | registry/src/network/server.rs:79-104 | in every reachable state a connection takes a request exactly if it has answered the one before and has not subscribed |
| Requests.HeartbeatTakesEffect | registry/src/network/server.rs:147-172 | a heartbeat refreshes the peer's address with the requested port exactly if that has one service at the read and the write, and the reply says whether it did |
| Requests.CleanupTakesEffect | registry/src/network/server.rs:228-233 | each step of a cleanup removes the next registered key and notes whether that was visible |
| Requests.SweepTakesEffect | registry/src/registry/health.rs:33-42 | a sweep keeps exactly the entries with a heartbeat less than the timeout before its look at them, and publishes exactly if the visible list changed |
| Requests.NothingElseDoes | registry/src/network/server.rs:73-239 | no other step touches the store |
| Requests.HeartbeatsKeepListed | registry/src/registry/health.rs:29-44 | a connection that registers a port and sends heartbeats for it in time for every sweep stays on the visible list of its service, until somebody registers or deregisters the key anew |
| Publication.VisibleStep | registry/src/network/server.rs:118-142 | whoever changes the visible list goes on to build a list, or the sweeper does |
| Publication.CurrentStep | registry/src/registry/health.rs:33-42 | unless a change still awaits its list, the last list built shows the store as it is |
| Publication.ChangesArePublished | registry/src/network/server.rs:139-142 | once nothing is left to build or send, a change was followed by building the list that is on the channel and equals the visible list (no changing register reply failed after that change) |
| Publication.BuildsFollowChanges | registry/src/network/server.rs:234-237 | behind every list built there is a change of the visible list by the same task, with no list built by it in between |
| Publication.ListsAreGenuine | registry/src/network/server.rs:174-221 | every list sent, held or delivered was the visible list of an earlier state |
| Delivery.DeliveredInOrder | registry/src/network/server.rs:185-205 | without lag a subscriber is given its snapshot and then every list sent since its connection was accepted, in order, each once, as far as it has received |
| Delivery.InOrderSince | registry/src/network/server.rs:198-205 | the same between any two states without a lag in between |
| Delivery.ReceivesOrLags | registry/src/network/server.rs:198-214 | it receives if there are unread lists and the channel has kept them all, and lags exactly if it has not |
| Delivery.OneFreshListPerLag | registry/src/network/server.rs:206-214 | a lag skips to the oldest list kept and gives the subscriber one list, the one visible at that step |
| Publication.SubscribersConverge | registry/src/network/server.rs:185-221 | for every capacity and lag, once nothing is left to build or send: a live subscriber that has read everything holds the visible list if the list sent last is the one built last and no changing register reply has failed since that was built |
| Settling.EverySubscriberCanSettle | registry/src/network/server.rs:185-239 | from every reachable state with a subscriber the run can go on until nothing is left to build or send and the subscriber has read everything |
| Publication.OrderKeepsLast | registry/src/network/server.rs:140-141 | sending lists in the order they were built makes the list sent last the one built last |
| Publication.OrderedRunsConverge | registry/src/network/server.rs:35-41 | so subscribers converge in every run with ordered sends and no failed reply; they subscribe at accept, before the snapshot |
| Publication.ConvergedIff | registry/src/network/server.rs:199-214 | with no assumption on order or replies: such a subscriber holds the visible list if and only if that is the same now as in the step that built the list sent last, or took its snapshot |
| Publication.OutdatedBecause | registry/src/network/server.rs:137-142 | if it does not, the list sent last is not the one built last, or a changing register reply failed and no list was built after that |
| Publication.OrderIsNeeded | registry/src/network/server.rs:140-141 | for every capacity, a run without failed replies that ends with a live subscriber holding an outdated list for good |
| Publication.RepliesAreNeeded | registry/src/network/server.rs:137-142 | for every capacity, a run whose one failed register reply leaves a live subscriber with an outdated list and the change on no list |
| Lifecycle.StagesAdvance | registry/src/network/server.rs:60-70 | server phase, client phase, cleanup, end: a connection never goes back |
| Lifecycle.HowItEnds | registry/src/network/server.rs:60-70 | which steps end a connection without cleanup, which begin its cleanup with all keys it registered, and which end that |
| Lifecycle.Footprint | registry/src/network/server.rs:117-129 | a step of a connection changes only entries under its own address, in cleanup only entries it registered, and nothing in the store between subscription and cleanup or after it |
| Lifecycle.CleanupRemoves | registry/src/network/server.rs:223-239 | among any other tasks: after the cleanup loop every key the connection registered is gone unless registered anew |
| Lifecycle.DroppedByAnotherCleanup | registry/src/network/server.rs:223-239 | a key refreshed in time for every sweep, registered by a connection that still serves, can be gone only because another connection that registered it too has cleaned up |
| Lifecycle.CleanupDropsLiveKey | registry/src/network/server.rs:228-232 | for every key, a run in which the cleanup of a first connection drops the key of a second one that still serves |
| Lifecycle.AbandonedKeysExpire | registry/src/registry/health.rs:29-44 | a key registered by a connection that ended without cleanup, and refreshed by no other connection since, is gone from maps and lists by the expiry bound |
| Discovery.CallersConverge | client/src/main/kotlin/tech/bobliu/rpc/registry/RegistryClient.kt:155-163 | where subscribers converge, a caller's cache agrees with the store on every service with instances, and equals the visible list exactly if no service it knew has vanished |
| Discovery.CachedAddressesAreRegistered | client/src/main/kotlin/tech/bobliu/rpc/registry/RegistryClient.kt:107-108 | then the cached addresses of such a service are exactly the keys registered for it |
| Framing.HeaderRoundTrip | registry/src/network/codec.rs:28 | reading a header gives the length modulo 2^32 |
| Framing.HeadersInOrder | registry/src/network/codec.rs:55 | headers compare byte by byte as the lengths do, so the highest byte comes first |
| Framing.WireFormat | server/internal/codec/codec.go:16-19 | the format in bytes: headers, frames, the bound of 16777216 and what is read just at it and just above |
| Framing.OversizeIsRejected | registry/src/network/codec.rs:30-35 | after any whole frames a header above 16 MiB is a rejection, whatever follows |
| Framing.UnfinishedIsLeft | registry/src/network/codec.rs:24-39 | a frame with a part missing is left for later |
| Framing.ParseAppend | registry/src/network/codec.rs:23-46 | parsing more bytes continues from what was left over |
| Framing.RoundTripIff | registry/src/network/codec.rs:52-58 | a sequence of bodies comes back exactly if and only if each is at most 16 MiB |
| Streams.RegistryCodec.DecodeNext | registry/src/network/codec.rs:23-46 | one decode: wait, reject, or take exactly one frame off the buffer; an undecodable body leaves the body behind |
| Streams.RegistryCodec.Encode | registry/src/network/codec.rs:52-58 | appends exactly one frame |
| Streams.ReadFramed | registry/src/network/codec.rs:23-46 | for every chunking: the bodies and the end that the whole stream parses to, up to the first undecodable message |
| Streams.ReadFull | server/internal/codec/codec.go:13-23 | exactly n bytes from any pieces, or the error, which is EOF only if nothing was read |
| Streams.ReadFrame | server/internal/codec/codec.go:11-25 | one frame off the stream, or the error for what is there instead |
| Streams.ReadFrames | server/internal/server/server.go:76-81 | the frames of a connection until the first error are those of the parse |
| Streams.WriteFrame | server/internal/codec/codec.go:27-35 | two writes: exactly one frame without an error, otherwise a part of it, with nothing of the body if the header failed |
| Streams.ReadersAgree | server/internal/codec/codec.go:11-25 | both readers on two chunkings of one stream: same bodies, same oversize rejection, and exactly where their ends differ |
| Streams.EndToEnd | registry/src/network/codec.rs:23-58 | bodies within the bound, framed and cut in any way, come back complete from either reader |
| Wire.AlwaysWholeFrames | server/internal/server/server.go:131-135 | in every interleaving the bytes are whole frames and a prefix of at most one more, the mutex holder's or the one whose writing failed |
| Wire.AlwaysInBound | server/internal/codec/codec.go:27-35 | parsing the bytes at any moment gives exactly the finished replies in order (bodies within the bound) |
| Wire.ReaderSeesPrefix | server/internal/codec/codec.go:11-35 | however little has arrived, the reader finds a prefix of the finished replies and no oversized frame |
| Wire.HolderCanFinish | server/internal/server/server.go:131-135 | whoever holds the mutex can always go on to release it, with its frame finished unless the connection is broken |
| RpcReplies.RepliesMatchCalls | client/src/main/kotlin/tech/bobliu/rpc/network/RpcClient.kt:88-97 | in every interleaving a future completed with a reply has the payload, or the code 500 and the message, with which the handler routed for its own service and method returned for its own payload, in the goroutine started for that very request; or the code 404 and the dotted name |
| RpcReplies.EveryFrameAnswers | server/internal/server/server.go:83-124 | every frame on the connection is a reply to one message, with its id and what its handler run returned, the code 404, or no id, the code 400 and the reason |
| RpcReplies.AtMostOneReply | server/internal/server/server.go:76-136 | each received message is answered by at most one frame, and no two frames carry one request id |
| RpcReplies.StubCallsReachTheirHandler | client/src/main/kotlin/tech/bobliu/rpc/proxy/RpcInvocationHandler.kt:55-62 | through the generated code at both ends a reply is an outcome of the handler generated for that very rpc |
| RpcProgress.CallsComeThrough | server/internal/server/server.go:104-135 | for every request and everything its handler may return there is a run after which the call's future holds exactly that (reply at most 16 MiB) |
| RpcProgress.RefusalsComeThrough | server/internal/server/server.go:94-102 | and without a handler one after which it holds the not-found error |
| RpcOrder.ReadsInOrder | client/src/main/kotlin/tech/bobliu/rpc/network/RpcClient.kt:88-97 | the caller reads every frame once, in order, and completes the pending call with its id if there is one |
| RpcOrder.ErrorsBeforeTheNext | server/internal/server/server.go:84-102 | the read loop's own error replies are written, or have failed, before the next message is read |
| RpcOrder.ReadsOn | server/internal/server/server.go:104-106 | handlers never keep the read loop from the next message |
| RpcOrder.PanicsAreSilent | server/internal/server/server.go:106-111 | a handler that panics is never answered for |
| RpcOrder.NothingSentAfterClose | client/src/main/kotlin/tech/bobliu/rpc/network/RpcClient.kt:33-36 | once the caller has noticed the end of the channel no request is sent |
| RpcOrder.NothingReadAfterHangup | server/internal/server/server.go:77-81 | once the read loop has ended no message is read |
| RpcFutures.NoCallIsLost | client/src/main/kotlin/tech/bobliu/rpc/network/RpcClient.kt:24-39 | an id is pending only while incomplete or before its callback; an incomplete call is in the map, in the event loop's hand or was begun after the close, and has its timer; at rest all futures are complete and nothing is pending |
| RpcFutures.CloseCompletesCalls | client/src/main/kotlin/tech/bobliu/rpc/network/RpcClient.kt:99-106 | once the close is through, every call begun before it is complete; one that was incomplete then ends as closed, or as timed out by its own timer |
| RpcFutures.OwnTurnFinishes | client/src/main/kotlin/tech/bobliu/rpc/network/RpcClient.kt:29-30 | from any state, the call's own thread, timer and callback complete it and remove its id |
| RpcFutures.ResultsAreFinal | client/src/main/kotlin/tech/bobliu/rpc/network/RpcClient.kt:95-103 | a future is completed once, by reply, close or timer, and keeps its result |
| RpcFutures.ResultHasCause | client/src/main/kotlin/tech/bobliu/rpc/network/RpcClient.kt:95-103 | every result has its cause: a reply claimed for that id, the close coming across it, or its own timer |
| RpcFutures.OrphansTimeOut | client/src/main/kotlin/tech/bobliu/rpc/network/RpcClient.kt:99-106 | a call incomplete after the channel is closed can only end in a timeout |
| RpcFutures.LateCallsCanBeMissed | client/src/main/kotlin/tech/bobliu/rpc/network/RpcClient.kt:101-104 | from every state after the close has begun, any new call can end up incomplete and out of the map |
| Backoff.LeastPower | server/internal/registry/client.go:141-143 | K, the number of doublings until the maximum is reached, is the least with base * 2^K >= max |
| Backoff.GoClosedForm | server/internal/registry/client.go:140-143 | after k failures the delay is base * 2^min(k, K) |
| Backoff.GoDelaysPositiveIff | server/internal/registry/client.go:141-143 | all delays are positive exactly when base * 2^K fits in 63 bits |
| Backoff.GoOvershoot | server/internal/registry/client.go:169-172 | delays stay below twice the maximum, and within it exactly when base * 2^K is the maximum |
| Backoff.DefaultsOvershoot | server/internal/config/config.go:40-41 | with the defaults of 1 and 30 seconds every delay from the fifth failure on is 32 seconds |
| Backoff.KotlinClosedForm | client/src/main/kotlin/tech/bobliu/rpc/fault/FaultTolerance.kt:24-25 | after k failures the delay is min(base * 2^k, max) |
| Backoff.KotlinDelaysPositiveIff | client/src/main/kotlin/tech/bobliu/rpc/fault/FaultTolerance.kt:25 | all delays are positive exactly when the maximum is below 2^62 |
| Reconnect.FailCountIsRunLength | server/internal/registry/client.go:185-219 | in every interleaving failCount is the length of the current run of failed writes and below the limit |
| Reconnect.HeartbeatLoop | server/internal/registry/client.go:181-221 | the loop returns at the first tick whose run of failed writes reaches max(1, heartbeatMaxFail), or at the first stop |
| Reconnect.LoopEndsAfter | server/internal/registry/client.go:206-216 | once the reader has read a rejection, at failure count f, it is gone and the loop returns with exactly the (limit - f)-th further tick |
| Reconnect.EarlierFailuresCount | server/internal/registry/client.go:206-216 | a run in which fewer ticks than the limit end the loop, because a write had failed before |
| Reconnect.RegistersAgain | server/internal/registry/client.go:157-173 | then, unless stopped or cancelled, the next steps of Run are one sleep of the back-off and a new registration |
| Reconnect.SelfHeals | server/internal/registry/client.go:147-173 | the whole way: from reading a rejection at failure count f, over exactly limit - f further ticks, to one sleep of the base delay and the next dial, unless stopped or cancelled; each step can be taken when it is due |
| Reconnect.ExitsOnlyIfHalted | server/internal/registry/client.go:123-129 | Run returns for a stop or a cancellation and for nothing else |
| Reconnect.HaltDecides | server/internal/registry/client.go:131-141 | once halted, Run returns before each round, after a failed registration and after the heartbeat loop; otherwise it dials or sleeps |
| Reconnect.NewConnection | server/internal/registry/client.go:55-62 | after a dial the connection is open, with nothing read from it and nothing left over from an earlier one |
| Reconnect.HaltBounds | server/internal/registry/client.go:162-173 | after a stop or a cancellation at most one more registration is completed, and at most four steps are taken outside the heartbeat loop |
| Reconnect.HaltedDials | server/internal/registry/client.go:123-131 | and none of them is a dial, unless it was about to dial |
| Reconnect.HaltedRunEnds | server/internal/registry/client.go:157-166 | from every halted state the client's own steps, at most four, lead to the end of Run or to one of the two places where it hangs |
| Reconnect.StuckIff | server/internal/registry/client.go:85-89 | in every reachable state the client hangs if and only if Register waits for an answer, or Run for a blocked reader, on a silent connection |
| Reconnect.FreedIff | server/internal/registry/client.go:111-116 | it is freed exactly by a frame, the end of the connection or the closing half of a stop; not by cancelling |
| Reconnect.AnswerNeverComes | server/internal/registry/client.go:85-89 | a run that hangs in Register |
| Reconnect.ReaderNeverReturns | server/internal/registry/client.go:157-160 | a run that is cancelled in the heartbeat loop and hangs waiting for the reader |
| Reconnect.ReaderHangsOnlyIfHalted | server/internal/registry/client.go:206-216 | if writes fail only on closed or broken connections, Run hangs waiting for its reader only after a stop signal or a cancellation |
| Reconnect.StopCanComeTooEarly | server/internal/registry/client.go:55-62 | a run that hangs in Register after a complete stop |
| Reconnect.ReaderLeaves | server/internal/registry/client.go:223-231 | while Run waits for it, or after a stop or a cancellation, the reader returns from at most one read, and then leaves |
| Reconnect.BackoffOverRun | server/internal/registry/client.go:119-147 | in every run the back-off is the delay for the failures since the last registration |
| Retry.RetryableIff | client/src/main/kotlin/tech/bobliu/rpc/fault/FaultTolerance.kt:32-38 | retryable exactly when stripping RpcException wrappers, and no others, reaches an I/O, socket or timeout error |
| Retry.Execute | client/src/main/kotlin/tech/bobliu/rpc/fault/FaultTolerance.kt:14-30 | at most maxRetries + 1 runs, each but the last a retryable failure followed by its sleep, and the last attempt's outcome; the negative bound and an overflowing delay too |
| Retry.ExecutedWithSensibleDelays | client/src/main/kotlin/tech/bobliu/rpc/fault/FaultTolerance.kt:14-30 | for base <= max the outcome is exactly the last attempt's and the sleeps are min(base * 2^i, max) |
| Retry.NothingIsRetried | client/src/main/kotlin/tech/bobliu/rpc/network/RpcClient.kt:36-37 | no exception that a proxied call can raise is retryable |
| Retry.FailuresAreWrapped | client/src/main/kotlin/tech/bobliu/rpc/network/RpcClient.kt:33-39 | what failed is two causes below the exception a caller gets, behind the wrapper that hides it from the retry rule |
| Retry.Invoke | client/src/main/kotlin/tech/bobliu/rpc/proxy/RpcInvocationHandler.kt:46-71 | so the body of a proxied call runs exactly once |
| CallerRegistry.RegistryCache.ChannelRead | client/src/main/kotlin/tech/bobliu/rpc/registry/RegistryClient.kt:155-163 | the loop merges the pushed list into the cache, later entries winning |
| CallerRegistry.RegistryCache.ChannelInactive | client/src/main/kotlin/tech/bobliu/rpc/registry/RegistryClient.kt:167-175 | the cache is emptied, every cached service announced as empty, and one reconnect thread started |
| CallerRegistry.RegistryCache.GetInstances | client/src/main/kotlin/tech/bobliu/rpc/registry/RegistryClient.kt:107-108 | the instances in the merge of all lists since the channel came up, or none |
| CallerRegistry.LaterWins | client/src/main/kotlin/tech/bobliu/rpc/registry/RegistryClient.kt:158-162 | a service has the instances of the last list that named it |
| CallerRegistry.EqualsLatestIff | client/src/main/kotlin/tech/bobliu/rpc/registry/RegistryClient.kt:158-162 | the cache agrees with the latest list where that names a service, and equals it exactly when every earlier name is still in it |
| CallerRegistry.VanishedServiceStays | client/src/main/kotlin/tech/bobliu/rpc/registry/RegistryClient.kt:158-162 | a service missing from the latest list keeps its old instances |
| CallerRegistry.Connect | client/src/main/kotlin/tech/bobliu/rpc/registry/RegistryClient.kt:37-60 | stops at the first success, at shutdown, at an interrupted sleep, or after K + 1 attempts, with the delays min(base * 2^i, max) slept between attempts |
| CallerRegistry.Reconnect | client/src/main/kotlin/tech/bobliu/rpc/registry/RegistryClient.kt:123-146 | the reconnect thread makes no attempt after a shutdown, ends with the first success, shutdown or interrupt and never otherwise, and sleeps the same delays |
| CallerRegistry.SixAttempts | client/src/main/kotlin/tech/bobliu/rpc/registry/RegistryClient.kt:38-39 | with one and thirty seconds that is six attempts |
| Routing.RegisterAll | server/cmd/genrpc/main.go:262-277 | the generated registrations fill the table in order, later ones replacing earlier ones |
| Routing.KeyInjective | server/internal/router/router.go:25 | a dotted key has one reading when service names have no dot |
| Routing.LoweredName | server/cmd/genrpc/main.go:218-223 | the first letter of a name is replaced by its small form if it is a capital, and nothing else is changed |
| Routing.LoweredExamples | server/internal/router/router.go:25 | "Login" of UserService is UserService.login, and "Get" and "get" of one service collide |
| Routing.GeneratorsAgree | server/cmd/genrpc-java/main.go:132-137 | the service and method that a generated stub sends make the key under which the other generator registers that rpc |
| Routing.StubsReachHandlersIff | server/cmd/genrpc/main.go:123-139 | every stub reaches the handler of its own rpc if and only if no two rpcs of a service agree after lowering the first letter |
| Routing.CallThroughStub | server/cmd/genrpc-java/main.go:72-81 | the name the stub sends is routed to that rpc's handler |

## Left out

- Registry: connections, sweeper and channel are modelled on values, one step at a time, instead of as methods of objects; in-place update is shown for the store, the cleanup and the list building only.
- Rpc: both ends of the connection are modelled on values, one step at a time; the maps `channels` and `pending` are not objects, and several connections of one caller are not modelled together.
- Module `Reconnect`: the fields and goroutines of the server's registry client are modelled on values, one step at a time; only the heartbeat loop is also a method. A dial and a write are taken to return; only reads can block.
- Protobuf encoding: a parameter that decodes what it encoded, or a verdict on bytes.
- The broadcast channel of tokio: a log with a retained suffix; that a list sent without any receiver is dropped makes no difference to later receivers and is not modelled.
- Netty's frame codec and its own accounting of the 16 MiB limit, idle-state closing and the connect timeout.
- Fairness and real time outside the expiry bound: that a timer or a task gets its turn is not modelled; the results say what is enabled and what follows.
- Behaviour of a connection after a failed write: it is taken to accept no more bytes.
- The wording of log lines, listener callbacks in the caller, random load balancing, class scanning and proxies, configuration, the database and the sample services.
- Parsing of proto files and import aliases in the generators: the model starts from parsed service and rpc names.
- The second registration by `Start` before `Run` is modelled at the registry only, as a second connection; and several registry channels at once in the caller.
