# Verification of activerecord

Dafny models of the iproto transport, of the octopus wire codec on top of it, and of three pieces of the record layer,
with proofs of what they promise. Each module stands for one part of the program.

- `Peers`, `ClusterReset`, `ClusterResetFacts`, `Cluster`: the list of peers of a cluster. `reset` is modelled as the
  in-place merge it is, with its five cursors over one array; the cluster as an object.
- `Pending`, `Channel`, `ChannelResults`, `Ping`: the store of pending calls as an object; callers, reader, timers,
  Drop, Hijack and Shutdown as interleaved steps of a state machine; where each result comes from; the ping exchange
  of two peers over FIFO links.
- `WorkerPool`, `WorkerPoolRuns`: schedulers, workers and Close of the goroutine pool as interleaved steps; why a
  schedule fails or succeeds and in what order tasks leave the queue.
- `Watcher`, `WatcherFlag`: the event loop over five maps, three counters and a flag, against a view that counts, and
  the flag told from the events alone.
- `TaskGroup`: the slots, counters and contexts of repeatable tasks.
- `Wire`, `Octopus`, `Requests`, `Response`: integers, byte strings, tuples, requests and responses. Encoders and
  readers are programs proved against functional encoders and decoders, and these against each other. `Layouts` has
  the bytes themselves: digits and their places, fixed words, and the encodings the tests of the program expect.
- `Framing`, `Hijack`, `Datagram`, `DatagramRun`: packets on a stream that may stop anywhere, handing a connection
  over, glueing packets into datagrams and taking them apart; senders, stop and writer of datagrams as interleaved steps.
- `Mutators`: the code generated for records with 32-bit fields and what the database makes of the queued operations.
- `Timestamp`, `RoundRobin`: the saturating difference and the choice of instances in turn.
- `Common`, `Counting`: types, machine constants, and counting the members of a set.

`dafny verify dfyconfig.toml` checks everything.

Integers are unbounded in Dafny, so every width is written out: counters and lengths of 32 bits, the 64-bit accumulator
of the base-128 decoder, wrapping time arithmetic, and signed conversions. Anything the program does not decide is
nondeterministic: which timer fires, how many bytes a read returns, whether a send fails, when a packet is queued.

Where the code does not do what its documentation or its messages say, the model follows the code:

- `Cluster.Reset` promises deduplication (pkg/iproto/iproto/cluster.go:37-53). A new address below a retained one keeps
  all its copies, because a retained pool is swapped next to the copy just created. `DistinctIffNoRepeat` gives the
  exact condition and `DuplicateInserted` an input.
- A reset that names a disabled address makes it a peer while it stays disabled (`DisabledBecomesPeer`);
  `Cluster.Reset` states exactly when that leaves the cluster invalid.
- A reader that meets a broken packet says it drops the datagram (pkg/iproto/iproto/dgram.go:286-287); the packets before
  it have been handled by then. `DroppedWholeOnlyIfFirst` says when the promise holds, `HeadIsHandled` gives an input.
- The datagram writer says nothing can be queued once it is stopped (pkg/iproto/iproto/dgram.go:236-239), but `send` does
  not look at that, and a packet queued late leaves the buffer unsent. `UnsentExactly` gives the exact condition and
  `LatePacketLosesBuffer` a run.
- A watcher that requires graceful closing stays attached over a broken pool without connections when a pool removed
  with an open connection is watched again. `StrictAttachedIsSound` gives the exact condition on the events and
  `RewatchBreaksSoundness` such a sequence.
- `Call` guarantees a response or a corresponding error (pkg/iproto/iproto/channel.go:370). When a sync number is used
  again, a call that only then gives up its old number makes another call fail with its own error (`ReuseMixesUp`);
  within 2^32 calls that does not happen (`FailureIsOwn`).
- The flag for a unique result (pkg/octopus/box.go:141) refuses more than two tuples and not more than one.
- The text of an error response starts with the four bytes of a field count (pkg/octopus/pack.go:331 and 364).
- The error of reading an operation code is not looked at (pkg/octopus/box.go:307-308); nothing is accepted by that.
- `Inc` and `Dec` with a negative argument are guarded the wrong way round (`IncRefusedWhen`, `DecRefusedWhen`).
- The manual says that `Update` brings the data of the database back into the object (docs/manual.md:401); the generated
  code does not look at the tuples of the response. `SyncedExactly` and `MaskedFieldSynced` say when the two agree all
  the same, `UpdateNotSynced` gives an input where they do not.
- A refused start keeps the counter of its `Do` up, so the last task of that call does not release its context.

## Model

| member | source | states |
|---|---|---|
| Peers.CmpRemoteAddr | pkg/iproto/iproto/cluster.go:402-425 | -1, 0 or 1 by network, then address: a total order, zero exactly for equal remote addresses |
| Peers.BeforeMeans | pkg/iproto/iproto/cluster.go:402-425 | a string is before another when they agree up to a place where it ends or has the lower character |
| Peers.LessIsTotalOrder | pkg/iproto/iproto/cluster.go:402-425 | the order is transitive, total and antisymmetric, which the sort and the merge rely on |
| Peers.StableSort | pkg/iproto/iproto/cluster.go:313-320 | the sorted list is a permutation of its input and ordered by address |
| Peers.SortIsStable | pkg/iproto/iproto/cluster.go:313-320 | pools with equal addresses keep their order |
| Peers.DistinctIffBag | pkg/iproto/iproto/cluster.go:37-53 | a list has distinct addresses exactly when no address is counted twice |
| ClusterReset.ResetPeers | pkg/iproto/iproto/cluster.go:302-399 | for every current and every given list the in-place merge ends; kept and removed together are a permutation of the current pools, inserted, ignored and matched together one of the given pools; for each address it keeps the minimum of both counts, inserts none when it is current, one when it is new, and all copies when it is new and below a retained address, and the ignored pools of an address are the first ones given |
| ClusterReset.RemoveKeeps | pkg/iproto/iproto/cluster.go:362-367 | removing the peer under the right cursor keeps the seven-region invariant of the array |
| ClusterReset.CreateKeeps | pkg/iproto/iproto/cluster.go:341-344 | moving a source pool among the created ones keeps the invariant when it does not repeat its right neighbour |
| ClusterReset.DedupKeeps | pkg/iproto/iproto/cluster.go:345-360 | moving a repeated source pool to the ignored front keeps the invariant |
| ClusterReset.MatchKeeps | pkg/iproto/iproto/cluster.go:376-381 | equal addresses at both cursors become one matched and one retained pool, and the invariant stays |
| ClusterReset.MatchedMeansAbove | pkg/iproto/iproto/cluster.go:345-351 | for a new address, something has been matched exactly when a retained address is above it: the reason the dedup comparison looks at a wrong pool |
| ClusterReset.DedupEarlier | pkg/iproto/iproto/cluster.go:345-360 | once a copy of an address is ignored, the ignored ones stay the first copies of what has been processed |
| ClusterReset.CreateEarlier | pkg/iproto/iproto/cluster.go:341-344 | a pool is created only while no copy of it has been ignored |
| ClusterReset.MatchEarlier | pkg/iproto/iproto/cluster.go:376-381 | a pool is matched only while no copy of it has been ignored |
| ClusterReset.LastIsProcessed | pkg/iproto/iproto/cluster.go:345-351 | the pool the dedup comparison looks at is a processed source pool, and it repeats a new address only while nothing was matched |
| ClusterReset.CreatedIsNew | pkg/iproto/iproto/cluster.go:341-344 | a created pool has no current peer, and while nothing was matched no processed pool shares its address |
| ClusterReset.Remove | pkg/iproto/iproto/cluster.go:335-339 | the swap at the removed boundary leaves the array in the layout of the next state |
| ClusterReset.Create | pkg/iproto/iproto/cluster.go:340-344 | the swap at the created boundary leaves the array in the layout of the next state |
| ClusterReset.Dedup | pkg/iproto/iproto/cluster.go:345-360 | a repeat is found exactly when the right neighbour in the array has the same address, and is then shifted to the ignored front |
| ClusterReset.ShiftUp | pkg/iproto/iproto/cluster.go:353-356 | the block is rotated by one: its last pool comes first and the others move up |
| ClusterReset.DedupOrCreate | pkg/iproto/iproto/cluster.go:368-375 | a source pool without a peer is ignored or created, and the invariant stays either way |
| ClusterReset.MergeOnce | pkg/iproto/iproto/cluster.go:362-382 | one comparison of the two cursors keeps the invariant and lowers the measure (i - dp) + (j - mid) |
| ClusterReset.Finish | pkg/iproto/iproto/cluster.go:398-398 | with both halves consumed the five regions satisfy the relation of the whole merge |
| ClusterResetFacts.ResultCoversSource | pkg/iproto/iproto/cluster.go:37-53 | the addresses of the merged list are exactly those of the given list |
| ClusterResetFacts.InsertedAreNew | pkg/iproto/iproto/cluster.go:37-53 | inserted pools come from the given list and have no current peer, every new address is inserted, and ignored pools come from the given list |
| ClusterResetFacts.UntouchedAndRemoved | pkg/iproto/iproto/cluster.go:37-53 | with distinct current pools, exactly those whose address is given stay and exactly the others are removed |
| ClusterResetFacts.DistinctIffNoRepeat | pkg/iproto/iproto/cluster.go:302-399 | the merged list has distinct addresses if and only if no given address repeats that is repeated among the current pools, or is new and below a retained one |
| ClusterResetFacts.DuplicateFreeSource | pkg/iproto/iproto/cluster.go:302-399 | a given list without repeats gives distinct addresses and ignores nothing |
| ClusterResetFacts.LatestInserted | pkg/iproto/iproto/cluster.go:345-360 | of a new address the last given pools are inserted and the first ones ignored |
| ClusterResetFacts.DuplicateInserted | pkg/iproto/iproto/cluster.go:345-360 | two new pools at address a next to a retained c are both inserted: the promise of deduplication does not hold there |
| Cluster.WithoutSlices | pkg/iproto/iproto/cluster.go:229-245 | cutting the found index out is removing the first pool with that address |
| Cluster.DisableEnableRestores | pkg/iproto/iproto/cluster.go:104-141 | taking the first pool with an address out of a list and appending one with that address keeps the addresses of the list, and in between none is left when the list is distinct |
| Cluster.Cluster.DisableThenEnable | pkg/iproto/iproto/cluster.go:104-141 | Disable followed by Enable succeeds on any peer of a valid cluster and leaves the same addresses and the same disabled pools |
| Cluster.Cluster.Run | pkg/iproto/iproto/cluster.go:37-141 | over any sequence of calls nothing changes after a Terminate; addresses stay distinct and in one place in every run without a reset, and in every run without Disable whose resets name each address once |
| Cluster.Cluster.Apply | pkg/iproto/iproto/cluster.go:37-141 | the same for any one call |
| Cluster.Cluster.IndexPeer | pkg/iproto/iproto/cluster.go:289-300 | the first index with the address, or -1 exactly when no peer has it |
| Cluster.Cluster.InsertPeer | pkg/iproto/iproto/cluster.go:212-227 | appended exactly when the address is new |
| Cluster.Cluster.RemovePeer | pkg/iproto/iproto/cluster.go:230-245 | the first pool with the address is cut out, if there is one |
| Cluster.Cluster.Insert | pkg/iproto/iproto/cluster.go:65-82 | refused when terminated, disabled or present; peers stay distinct and apart from the disabled |
| Cluster.Cluster.Remove | pkg/iproto/iproto/cluster.go:84-102 | a disabled pool is forgotten, otherwise the peer is cut out; distinctness is kept |
| Cluster.Cluster.Disable | pkg/iproto/iproto/cluster.go:104-122 | a present peer becomes disabled; one place per address is kept |
| Cluster.Cluster.Enable | pkg/iproto/iproto/cluster.go:124-141 | a disabled address becomes a peer again, and in a valid cluster the insertion does not fail |
| Cluster.Cluster.Terminate | pkg/iproto/iproto/cluster.go:261-281 | the pools to stop are the peers, the list is emptied and the cluster is terminated |
| Cluster.Cluster.Current | pkg/iproto/iproto/cluster.go:172-177 | the peers followed by each disabled pool once, in some order |
| Cluster.Cluster.Reset | pkg/iproto/iproto/cluster.go:164-209 | the whole new state in terms of the merge; a valid cluster stays valid if and only if no disabled address is given and, unless insertion is deferred, no address repeats in the way above |
| Cluster.ResetValid | pkg/iproto/iproto/cluster.go:164-209 | the two conditions are exactly what distinct peers and disjoint disabled pools need |
| Cluster.DisabledBecomesPeer | pkg/iproto/iproto/cluster.go:164-209 | a reset to a lone disabled address makes it a peer and leaves it disabled |
| Pending.Store.Push | pkg/iproto/iproto/pending.go:18-41 | files the callback under the first sync number after the current one that is free for the method, wrapping at 2^32, and changes nothing else |
| Pending.Store.Resolve | pkg/iproto/iproto/pending.go:43-67 | takes exactly that entry out, if it is there, and closes the wait channel exactly when the store gets empty |
| Pending.Store.RejectAll | pkg/iproto/iproto/pending.go:69-88 | takes all entries out and closes the wait channel; an empty store is left as it is |
| Pending.Store.OnEmptied | pkg/iproto/iproto/pending.go:98-104 | closes the current wait channel once and forgets it |
| Pending.Store.Empty | pkg/iproto/iproto/pending.go:106-123 | the always-closed channel for an empty store, else the current wait channel, made when there is none |
| Pending.StoreStaysGood | pkg/iproto/iproto/pending.go:18-123 | every operation keeps open wait channels unclosed and all channels closed at most once |
| Pending.ClosedOnlyWhenEmpty | pkg/iproto/iproto/pending.go:99-104 | a wait channel is closed only by an operation that leaves the store empty, and only the current one |
| Pending.HeldChannelIsServed | pkg/iproto/iproto/pending.go:106-123 | a wait channel handed out stays the current one until the store is empty and it is closed |
| Channel.InitInv | pkg/iproto/iproto/channel.go:374-423 | the invariant of callers, store, callbacks and slots holds of a new channel |
| Channel.StepKeeps | pkg/iproto/iproto/channel.go:374-423 | every step of callers, reader, timers, Drop, Hijack and Shutdown keeps the invariant |
| Channel.ExactlyOneResult | pkg/iproto/iproto/channel.go:374-423 | in every interleaving the callback of a call runs at most once; until the result is received exactly one of store entry, pending callback and filled slot exists; a finished call received exactly one result, filed under its own code |
| Channel.SenderNeverBlocks | pkg/iproto/iproto/util.go:20-36 | the one-slot channel is empty whenever a callback is about to send, and a released result function is referred to by nothing |
| Channel.NoCallLost | pkg/iproto/iproto/channel.go:587-634 | once Drop has released the mutex, every entry left belongs to a call that has not passed the stopped check, will fail it and takes the entry out itself |
| Channel.EntryResolvesItself | pkg/iproto/iproto/channel.go:943-957 | the same for every state satisfying the invariant |
| Channel.StoppedStops | pkg/iproto/iproto/channel.go:943-957 | after stopped is set no call passes the stopped check |
| Channel.ShutdownDrains | pkg/iproto/iproto/channel.go:520-576 | once Shutdown is past waiting for the empty store, every call that ever passed the stopped check has left the store for good and no later call passes |
| Channel.ClosedAtMostOnce | pkg/iproto/iproto/channel.go:594-599 | the stopper and every wait channel are closed at most once, the latter only by a step that leaves the store empty |
| Channel.RankDrops | pkg/iproto/iproto/channel.go:374-423 | the own steps of a call and the run of its callback lower its rank, and no other step raises it |
| Channel.RankBounded | pkg/iproto/iproto/channel.go:374-423 | the rank is at most 11 |
| Channel.FewSteps | pkg/iproto/iproto/channel.go:374-423 | in every run at most 11 steps are a call's own or run its callback, whatever else happens in between |
| Channel.NeverStuck | pkg/iproto/iproto/channel.go:374-423 | for every unfinished call some step is enabled that is its own, runs its callback, or ends the Drop that holds the mutex, given that a sync number is free and its timer may fire |
| ChannelResults.DecidedIsDelivered | pkg/iproto/iproto/channel.go:376-423 | whatever takes the entry of a call out of the store decides its result: a packet of its code with the data of the packet, a failing call of that code with its error, a Drop with its own; in every run nothing later changes it |
| ChannelResults.ReplyIsDelivered | pkg/iproto/iproto/channel.go:873-878 | a packet read while the entry of a call is filed is what that call returns, with its data |
| ChannelResults.ResultIsDecided | pkg/iproto/iproto/channel.go:376-423 | conversely every result a call has was decided so, while its own entry was filed |
| ChannelResults.FailureIsNamed | pkg/iproto/iproto/channel.go:403-421 | a call fails only with an error it was told before: stopped or hijacked by its check in such a state, or the very error of its send, timer or context |
| ChannelResults.FlagsTell | pkg/iproto/iproto/channel.go:520-633 | a channel is stopped exactly after a Drop or Shutdown and hijacked exactly after a Hijack |
| ChannelResults.PassesExactly | pkg/iproto/iproto/channel.go:943-957 | a call may send if and only if nothing was dropped, shut down or hijacked before it looked, and otherwise fails with the matching error |
| ChannelResults.NobodyPassesAfter | pkg/iproto/iproto/channel.go:943-957 | after a Drop, Shutdown or Hijack no further call sends anything |
| ChannelResults.RunNumbers | pkg/iproto/iproto/pending.go:18-41 | the first 2^32 calls filed are numbered one after the other |
| ChannelResults.FailureIsOwn | pkg/iproto/iproto/channel.go:403-421 | as long as at most 2^32 calls were filed a failing call resolves no entry but its own |
| ChannelResults.ReuseMixesUp | pkg/iproto/iproto/channel.go:411-415 | after 2^32 calls, a call whose timer fired before its reply was read and that only then resolves its number makes a new call fail that nobody told to |
| ChannelResults.CallIsAnswered | pkg/iproto/iproto/channel.go:376-423 | from every reachable state of a channel that is not dropped, shut down or hijacked a new call that is sent and answered returns the answer |
| ChannelResults.DropFailsAll | pkg/iproto/iproto/channel.go:587-634 | a channel can be dropped in every reachable state, and then every call that was filed gets the error of a dropped connection |
| ChannelResults.ShutdownGoesOn | pkg/iproto/iproto/channel.go:520-576 | a Shutdown waits for nothing but calls that are still filed |
| ChannelResults.IdleShutsDown | pkg/iproto/iproto/channel.go:520-576 | with nothing filed a Shutdown takes its four steps and closes the stopper |
| ChannelResults.CanBeHijacked | pkg/iproto/iproto/channel.go:321-336 | a channel that was neither stopped nor hijacked can be hijacked |
| Ping.StepConserves | pkg/iproto/iproto/channel.go:900-919 | each step changes pings in flight and waiting peers alike, except for a failed send |
| Ping.TimerPings | pkg/iproto/iproto/channel.go:987-1020 | a timer that fires while no ping is awaited puts a fresh ping on the wire and awaits one |
| Ping.PingAnswered | pkg/iproto/iproto/channel.go:900-919 | a ping that is not awaited is answered with its number, an awaited one is not |
| Ping.SyncStaysZero | pkg/iproto/iproto/channel.go:907-914 | acks echo the number of the ping and requests carry zero, so between two such peers all stay zero |
| Ping.PingsTrackWaiters | pkg/iproto/iproto/channel.go:987-1020 | in every run pings in flight plus failed sends equal the peers with a pending ping, so at most two are in flight |
| Ping.ReceiveLowers | pkg/iproto/iproto/channel.go:900-919 | without new timer pings every receive lowers a potential of at most four |
| Ping.ExchangeDiesOut | pkg/iproto/iproto/channel.go:900-919 | from any reachable state at most four more pings are received unless a timer sends a new one |
| WorkerPool.InitInv | pkg/iproto/util/pool/pool.go:139-170 | the invariant of queue, tokens, workers and schedulers holds of a new pool |
| WorkerPool.StepKeeps | pkg/iproto/util/pool/pool.go:444-498 | every step of schedulers, workers and Close keeps the invariant |
| WorkerPool.DoneMeansAllRan | pkg/iproto/util/pool/pool.go:784-808 | when done is closed each task has run once if its schedule returned nil and never otherwise, the queue is full of stubs and no stub ran |
| WorkerPool.NeverTwice | pkg/iproto/util/pool/pool.go:664-739 | at every moment a task has run at most once, and only if its schedule returned nil |
| WorkerPool.TokensAccounted | pkg/iproto/util/pool/pool.go:534-596 | tokens equal live workers plus schedulers between token and spawn, never above the limit, and the wait group counts the live workers |
| WorkerPool.ExitsNeverBlock | pkg/iproto/util/pool/pool.go:577-588 | giving a token back, leaving the wait group and draining a corked queue are always possible |
| WorkerPool.GroupNeverGrows | pkg/iproto/util/pool/pool.go:549-565 | after kill is closed the wait group never grows |
| WorkerPool.WorkerCanStep | pkg/iproto/util/pool/pool.go:664-739 | after kill every worker that has not left can take a step |
| WorkerPool.CorkNeverBlocks | pkg/iproto/util/pool/pool.go:784-808 | while the queue is being corked Close can take a step |
| WorkerPool.CorkStep | pkg/iproto/util/pool/pool.go:784-808 | a step of Close lowers what it still has to do, a task queued late adds one pass, and nothing else adds anything |
| WorkerPool.CorkEnds | pkg/iproto/util/pool/pool.go:784-808 | in every run Close corks the queue within one pass for each item it finds there, one for each task queued meanwhile and a last one |
| WorkerPoolRuns.RefusedOnlyWhenFull | pkg/iproto/util/pool/pool.go:444-491 | in every run a schedule is refused as unavailable only by a pool with a limit, after it found the queue full, and with an immediate timeout only while all tokens are taken |
| WorkerPoolRuns.NeverRefused | pkg/iproto/util/pool/pool.go:459-462 | a pool without a limit never refuses |
| WorkerPoolRuns.ClosedOnlyAfterKill | pkg/iproto/util/pool/pool.go:448-453 | a schedule fails with a closed pool only after Close |
| WorkerPoolRuns.FullQueueSpawns | pkg/iproto/util/pool/pool.go:456-491 | from every reachable state with a full queue of an open pool, with a token left or no limit, the schedule returns nil after three steps with a new worker that runs the task in the next |
| WorkerPoolRuns.RoomTakesTask | pkg/iproto/util/pool/pool.go:448-456 | with room in the queue either select puts the task at its end |
| WorkerPoolRuns.IdleIsHanded | pkg/iproto/util/pool/pool.go:448-456 | with nothing queued an idle worker is handed the task and runs it |
| WorkerPoolRuns.KilledRefuses | pkg/iproto/util/pool/pool.go:448-453 | after Close a schedule that still looks can fail at once |
| WorkerPoolRuns.IdleRunsHead | pkg/iproto/util/pool/pool.go:694-702 | an idle worker can take the head of the queue and run it |
| WorkerPoolRuns.QueueIsFifo | pkg/iproto/util/pool/pool.go:444-498 | in every run what entered the queue is what left it followed by what is in it, and a task handed over directly overtakes none |
| WorkerPoolRuns.WorkersStay | pkg/iproto/util/pool/pool.go:139-170 | until Close every worker New started runs a task or waits for one |
| WorkerPoolRuns.LeavesEmpty | pkg/iproto/util/pool/pool.go:704-737 | a worker of a pool that is corked leaves only because it expired, or after Close with the queue empty |
| WorkerPoolRuns.NoCorkDrops | pkg/iproto/util/pool/pool.go:202-213 | a pool that is not corked closes as soon as its workers have left and drops what is queued |
| Watcher.CountsAfterUpdate | pkg/iproto/iproto/watch.go:329-360 | writing one record changes each count by that record only |
| Watcher.AttachedExactly | pkg/iproto/iproto/watch.go:318-571 | with graceful closing not required, attached means enough alive peers and none uninitialized, and conversely, after every event sequence if and only if the number asked for is not negative |
| Watcher.CallbacksAlternate | pkg/iproto/iproto/watch.go:287-316 | attach and detach callbacks strictly alternate starting with attach, and their number tells the flag |
| Watcher.StrictAttachedIsSound | pkg/iproto/iproto/watch.go:318-424 | with graceful closing required, attached implied enough alive peers, none uninitialized and a live connection for every broken pool throughout a run if and only if no closure in it was told of a watched pool, unannounced and without an opening since it was taken under watch to stand against it, while the last callback was an attach |
| Watcher.StrictStep | pkg/iproto/iproto/watch.go:318-424 | for one event, in terms of what the watcher keeps |
| Watcher.HistoryTells | pkg/iproto/iproto/watch.go:329-455 | what the watcher keeps of a pool is its history of events: watched or not, openings less closures since, announced closures not used up |
| Watcher.OpenedSinceWatchIsSound | pkg/iproto/iproto/watch.go:318-424 | it is sound whenever each closure told of a watched pool follows an opening told since the pool was taken under watch |
| Watcher.NotifiedIsSound | pkg/iproto/iproto/watch.go:83-93 | it is sound whenever notifications of a pool start after it is watched with openings first, as the hooks send them, and no removed pool is watched again |
| Watcher.RewatchBreaksSoundness | pkg/iproto/iproto/watch.go:222-240 | a pool removed with an open connection and watched again: each closure follows its opening, and the watcher stays attached over a broken pool |
| WatcherFlag.MarksTell | pkg/iproto/iproto/watch.go:329-390 | the marks kept of a pool are its history: broken by an unannounced closure and mended by an opening, uninitialized and initialized as told |
| WatcherFlag.CountsTell | pkg/iproto/iproto/watch.go:329-360 | the three counts are those of the pools as the events leave them |
| WatcherFlag.AttachesWhen | pkg/iproto/iproto/watch.go:391-571 | in both modes a detached watcher attaches at an event if and only if that opens the first connection of a watched pool, initializes one or removes one, and then enough are alive, none is uninitialized and, in the strict mode, none is broken |
| WatcherFlag.DetachesWhen | pkg/iproto/iproto/watch.go:366-539 | an attached one detaches if and only if a watched pool becomes uninitialized, the last connection of a pool closes with too few alive or, in the strict mode, the pool broken, or a removal leaves too few |
| WatcherFlag.ReportTells | pkg/iproto/iproto/watch.go:318-364 | a change of a watched pool reports its connections, its mark and the number of pools alive, and nothing else reports |
| Watcher.StoppedStays | pkg/iproto/iproto/watch.go:573-577 | events after a stop change neither state nor callbacks |
| Watcher.MultiWatcher.constructor | pkg/iproto/iproto/watch.go:279-316 | attached at once, with its callback, exactly when no alive peer is needed; all maps and counters start empty |
| Watcher.MultiWatcher.HandleInit | pkg/iproto/iproto/watch.go:443-455 | a pool becomes watched; the counters still count the maps |
| Watcher.MultiWatcher.HandleChange | pkg/iproto/iproto/watch.go:318-424 | the maps, counters, flag, callback and reported state after a connection change are those of the view |
| Watcher.MultiWatcher.Tally | pkg/iproto/iproto/watch.go:329-360 | peerAlive and peerBroken equal the number of alive and of broken pools after the change |
| Watcher.MultiWatcher.HandleShutdown | pkg/iproto/iproto/watch.go:426-441 | one more closure of the pool is expected |
| Watcher.MultiWatcher.HandleRemove | pkg/iproto/iproto/watch.go:456-518 | all entries of a watched pool are dropped, the counters follow, and the flag is decided again |
| Watcher.MultiWatcher.HandleUninitialized | pkg/iproto/iproto/watch.go:519-539 | the pool is counted as uninitialized once and an attached watcher detaches |
| Watcher.MultiWatcher.HandleInitialized | pkg/iproto/iproto/watch.go:541-571 | the pool is no longer counted and the watcher may attach |
| Watcher.MultiWatcher.Run | pkg/iproto/iproto/watch.go:579-598 | after any sequence of events the object holds the view, the callbacks and the reports of that sequence |
| TaskGroup.PromisesDistinct | pkg/iproto/syncutil/taskgroup.go:125-133 | collecting the occupied slots in order gives distinct promises |
| TaskGroup.RunKeeps | pkg/iproto/syncutil/taskgroup.go:56-158 | in every run of Do, completions and Cancel at most N tasks are pending, each in the slot it remembers, with a context that is not cancelled and that Cancel would reach; each counter is its running tasks and refused starts |
| TaskGroup.DoStartsMissing | pkg/iproto/syncutil/taskgroup.go:56-134 | Do starts what is missing to n less what the Goer refuses, moves no pending task, and returns promises of distinct pending tasks, n of them when there are that many |
| TaskGroup.ReturnedInOrder | pkg/iproto/syncutil/taskgroup.go:125-133 | the promises returned are the first in slot order |
| TaskGroup.DoWithWillingGoer | pkg/iproto/syncutil/taskgroup.go:45-50 | with a Goer that never refuses exactly the missing tasks start and min(n, N) promises come back |
| TaskGroup.StartOneKeeps | pkg/iproto/syncutil/taskgroup.go:81-122 | one accepted or refused start keeps slots, contexts and counters in agreement |
| TaskGroup.EndFreesOwnSlotOnly | pkg/iproto/syncutil/taskgroup.go:94-113 | an ending task frees its own slot and no other, and a cancelled one frees none |
| TaskGroup.CancelledStaysOut | pkg/iproto/syncutil/taskgroup.go:94-113 | a cancelled task never comes back into a slot, whatever runs until it ends |
| TaskGroup.CancelReachesPending | pkg/iproto/syncutil/taskgroup.go:138-158 | Cancel frees every slot and cancels the context of every pending task |
| TaskGroup.LastEndReleases | pkg/iproto/syncutil/taskgroup.go:100-104 | an ending task releases the context of its call exactly when it is the last one running and no start of that call was refused |
| TaskGroup.ChainForgotten | pkg/iproto/syncutil/taskgroup.go:106-112 | when the last pending task ends, and not before, there is nothing left to cancel |
| TaskGroup.EndSlots | pkg/iproto/syncutil/taskgroup.go:94-113 | a completion never cancels the context of a task that is still pending |
| TaskGroup.TaskGroup.constructor | pkg/iproto/syncutil/taskgroup.go:35-43 | a group of zero slots is a group of one |
| TaskGroup.TaskGroup.Do | pkg/iproto/syncutil/taskgroup.go:56-134 | the fields after Do and the promises returned are those of the specification, with n equal to the occupied slots |
| TaskGroup.TaskGroup.FindFree | pkg/iproto/syncutil/taskgroup.go:82-91 | the first free slot |
| TaskGroup.TaskGroup.Collect | pkg/iproto/syncutil/taskgroup.go:125-133 | the first promises in slot order, no more than asked for |
| TaskGroup.TaskGroup.End | pkg/iproto/syncutil/taskgroup.go:94-113 | the fields after a completion; the slot is compared with the own promise first |
| TaskGroup.TaskGroup.Cancel | pkg/iproto/syncutil/taskgroup.go:138-158 | the fields after Cancel |
| Wire.LeInverse | pkg/iproto/iproto/pack.go:59-95 | fixed-width bytes decode to the number they encode |
| Wire.BerDecodes | pkg/iproto/iproto/pack.go:200-220 | the base-128 form of a 64-bit number decodes to it and leaves what follows, given enough bytes to look at |
| Wire.BerLen | pkg/iproto/iproto/pack.go:25-45 | the base-128 form has at most k bytes exactly when the number is below 128^k |
| Wire.BerIsShortest | pkg/iproto/iproto/pack.go:200-220 | no byte string that decodes to a number is shorter than its encoding |
| Wire.BerTruncatedFails | pkg/iproto/iproto/pack.go:205-220 | every proper prefix of a base-128 encoding is refused |
| Layouts.LeDigits | pkg/iproto/iproto/pack.go:59-95 | byte i of a fixed-width number is its i-th digit to the base 256 |
| Layouts.BerDigits | pkg/iproto/iproto/pack.go:25-45 | the base-128 form has the highest digit first and marks every byte but the last |
| Layouts.NumbersAccepted | pkg/iproto/iproto/pack.go:200-279 | a base-128 number is accepted if and only if it ends within 3, 5 or 10 bytes, a fixed-width one if and only if a byte is left |
| Layouts.BerIsCut | pkg/iproto/iproto/pack.go:241-256 | a base-128 number too large for 32 bits is cut to them |
| Layouts.NumbersExpected | pkg/iproto/iproto/pack_test.go:12-45 | the bytes the tests expect for numbers and strings |
| Layouts.BerExpected | pkg/iproto/iproto/pack_test.go:89-101 | the bytes the tests expect for base-128 numbers |
| Layouts.BerLongest | pkg/iproto/iproto/pack_test.go:89-101 | the ten bytes expected for the largest 64-bit number |
| Layouts.PacketExpected | pkg/iproto/iproto/writer_test.go:19-32 | the twelve bytes the test expects of a packet without data |
| Layouts.InsertExpected | pkg/octopus/box_test.go:66-134 | the bytes the tests expect of an insert in its three modes |
| Layouts.SelectExpected | pkg/octopus/box_test.go:8-57 | the bytes the test expects of a select |
| Wire.UintInverse | pkg/iproto/iproto/pack.go:47-95 | for 16, 32 and 64 bits and both modes decoding gives the number back and leaves the trailing bytes |
| Wire.ShortReadAccepted | pkg/iproto/iproto/pack.go:241-256 | a fixed-width number cut short is accepted as its low bytes |
| Wire.BytesInverse | pkg/iproto/iproto/pack.go:98-101 | a byte string that fits 32 bits comes back and what follows is left |
| Wire.ManyInverse | pkg/octopus/pack.go:139-168 | a list of items comes back if each item does |
| Wire.PackUint64Ber | pkg/iproto/iproto/pack.go:25-45 | the buffer filled from the right holds the base-128 form |
| Wire.PackUint16 | pkg/iproto/iproto/pack.go:48-57 | appends the encoding in either mode |
| Wire.PackUint32 | pkg/iproto/iproto/pack.go:60-71 | appends the encoding in either mode |
| Wire.PackUint64 | pkg/iproto/iproto/pack.go:74-95 | appends the encoding in either mode |
| Wire.PackBytes | pkg/iproto/iproto/pack.go:98-101 | appends the length, cut to 32 bits, and the bytes |
| Wire.UnpackBer | pkg/iproto/iproto/pack.go:200-220 | reads at most bits/7 + 1 bytes, accumulating in 64 bits |
| Wire.UnpackUint16 | pkg/iproto/iproto/pack.go:223-238 | reads what the decoder says, in either mode |
| Wire.UnpackUint32 | pkg/iproto/iproto/pack.go:241-256 | reads what the decoder says, in either mode, zero-padding a short read |
| Wire.UnpackUint64 | pkg/iproto/iproto/pack.go:259-279 | reads what the decoder says, in either mode |
| Wire.UnpackBytes | pkg/iproto/iproto/pack.go:304-319 | reads what the decoder says; the test against the size of the whole packet refuses nothing that the full read would accept |
| Octopus.FieldInverse | pkg/octopus/pack.go:95-107 | a field comes back |
| Octopus.TupleInverse | pkg/octopus/pack.go:170-198 | a tuple, or key, comes back and what follows is left |
| Octopus.TuplesInverse | pkg/octopus/pack.go:139-168 | a list of tuples comes back and what follows is left |
| Octopus.PackTuple | pkg/octopus/pack.go:170-178 | appends the encoding of the tuple |
| Octopus.PackTuples | pkg/octopus/pack.go:139-147 | appends the encoding of the tuples |
| Octopus.UnpackTuple | pkg/octopus/pack.go:180-198 | reads what the decoder says, up to the first field that fails |
| Octopus.UnpackTuples | pkg/octopus/pack.go:149-168 | reads what the decoder says, up to the first tuple that fails |
| Octopus.ByteLenAgrees | pkg/octopus/pack.go:10-23 | the size told for a field is the size of its encoding, in 32-bit arithmetic |
| Octopus.PackedTupleLen | pkg/octopus/pack.go:25-33 | the size of the encoded tuple, in 32-bit arithmetic |
| Octopus.PackedTuplesLen | pkg/octopus/pack.go:77-85 | the size of the encoded tuples, in 32-bit arithmetic |
| Requests.FlagsInverse | pkg/octopus/pack.go:228-255 | the return flag comes back, and a mode m as the bit 1<<m for m from 1 to 7 and as 0 otherwise |
| Requests.LimitInverse | pkg/octopus/pack.go:267-287 | a limit comes back if and only if it is not 0xffffffff, which comes back as 0 |
| Requests.SelectInverse | pkg/octopus/box.go:235-245 | a select comes back if and only if its limit is not 0xffffffff |
| Requests.InsertInverse | pkg/octopus/box.go:202-233 | an insert or replace comes back but for its mode, which comes back as its bit |
| Requests.OpInverse | pkg/octopus/box.go:298-322 | an update operation comes back |
| Requests.MissingCodeFails | pkg/octopus/box.go:307-311 | an operation without its code byte is refused although the error of that read is not looked at |
| Requests.UpdateInverse | pkg/octopus/box.go:247-326 | an update comes back, also without operations |
| Requests.DeleteInverse | pkg/octopus/box.go:328-359 | a delete comes back |
| Requests.LuaInverse | pkg/octopus/box.go:361-395 | a call comes back |
| Layouts.TupleLayout | pkg/octopus/pack.go:170-180 | a tuple is its count and its fields one after the other |
| Layouts.SelectLayout | pkg/octopus/box.go:235-245 | the words of a select in order; no limit is the largest number |
| Layouts.UpdateLayout | pkg/octopus/box.go:247-265 | an update asks for its result in the word after the namespace, which no decoder hands on |
| Layouts.DeleteLayout | pkg/octopus/box.go:328-336 | a delete asks for its result in the word after the namespace |
| Layouts.LuaLayout | pkg/octopus/box.go:361-371 | a call starts with a zero word |
| Layouts.OpLayout | pkg/octopus/box.go:257-261 | an operation is its field, one byte of code and its value |
| Layouts.InsertFlags | pkg/octopus/pack.go:228-240 | the flags of the three insert modes |
| Requests.PackSelect | pkg/octopus/box.go:235-245 | writes the encoding; the capacity asked for is exactly its size |
| Requests.PackInsertReplace | pkg/octopus/box.go:202-210 | writes the encoding; the capacity asked for is four bytes more |
| Requests.PackedUpdateOpsLen | pkg/octopus/pack.go:49-57 | the size of the encoded operations, in 32-bit arithmetic |
| Requests.PackUpdate | pkg/octopus/box.go:247-265 | writes the encoding; the capacity asked for is exact with operations and four bytes over without |
| Requests.PackDelete | pkg/octopus/box.go:328-336 | writes the encoding; the capacity asked for is exactly its size |
| Requests.PackLua | pkg/octopus/box.go:361-371 | writes the encoding |
| Requests.UnpackSelect | pkg/octopus/testutil.go:201-225 | accepts exactly what the decoder accepts, with its values |
| Requests.UnpackInsertReplace | pkg/octopus/box.go:212-233 | accepts exactly what the decoder accepts, with its values |
| Requests.UnpackUpdate | pkg/octopus/box.go:267-326 | accepts exactly what the decoder accepts, with its values |
| Requests.UnpackDelete | pkg/octopus/box.go:338-359 | accepts exactly what the decoder accepts, with its values |
| Requests.UnpackLua | pkg/octopus/box.go:373-395 | accepts exactly what the decoder accepts, with its values; a first word other than zero is refused |
| Response.ResponseInverse | pkg/octopus/box.go:135-200 | a well-formed response that fits 32 bits comes back tuple by tuple with nothing left, unless none came when one is needed or more than two came when one is asked for |
| Response.SizedInverse | pkg/octopus/box.go:154-193 | one sized tuple passes all length tests and comes back with its field count |
| Response.ErrorInverse | pkg/octopus/pack.go:331-336 | an error response is an error, and its text starts with the four bytes of the field count |
| Response.FieldBounds | pkg/octopus/box.go:172-190 | a field that takes the sum of lengths over the size of its tuple is refused, one within it but past the end is out of range, any other is read |
| Response.CutTupleRefused | pkg/octopus/box.go:161-163 | a tuple that tells a size beyond what is left is refused |
| Response.ExtraBytesRefused | pkg/octopus/box.go:195-197 | bytes behind the tuples are refused |
| Layouts.ResponseLayout | pkg/octopus/pack.go:339-368 | a response starts with its return code, zero for success, then the count and the tuples |
| Layouts.ErrorLayout | pkg/octopus/pack.go:339-368 | an error has a count of fields between its code and its text |
| Response.PackResponseStatus | pkg/octopus/pack.go:339-368 | writes the encoding of the tuples, or of the error |
| Response.UnpackResponseStatus | pkg/octopus/pack.go:303-337 | tells count and tuple bytes, an error, or an index past the end, as the decoder says |
| Response.ProcessResponse | pkg/octopus/box.go:135-200 | gives exactly what the decoder gives, with all its length tests |
| Response.ReadFields | pkg/octopus/box.go:172-190 | the fields as slices of the response, with the running sum of lengths in 32 bits |
| Framing.PacketInverse | pkg/iproto/iproto/reader.go:44-74 | a packet whose header tells its length is read back and what follows is left |
| Framing.DecPacketConsumes | pkg/iproto/iproto/reader.go:44-74 | what is read is the packet whose bytes were consumed |
| Framing.PacketRefused | pkg/iproto/iproto/reader.go:44-74 | a packet cut short anywhere, or longer than the limit, is refused |
| Framing.PutPacket | pkg/iproto/iproto/writer.go:45-52 | the slice starts with the bytes of the packet and is otherwise unchanged |
| Framing.MarshalPacket | pkg/iproto/iproto/writer.go:54-60 | the bytes of the packet |
| Framing.Source.ReadFull | pkg/iproto/iproto/reader.go:56-58 | takes bytes in order until the buffer is full or there is an error; nothing is lost |
| Framing.StreamReader.ReadPacket | pkg/iproto/iproto/reader.go:44-61 | however far the read comes, the first LastRead bytes of the returned packet are the bytes taken; without error the packet is complete and is the one the decoder tells |
| Framing.StreamReader.ReadHeader | pkg/iproto/iproto/reader.go:67-74 | the same for a piece of a header, with stale bytes behind it |
| Hijack.ChannelReader.Run | pkg/iproto/iproto/channel.go:817-898 | for every stream and every moment of the hijack and of the deadline, what the new owner reads is the raw stream without the packets that answered a pending call and without those before the reader saw the hijack, in order and without loss; a packet answered a call exactly when its code was pending, and of the others those before the turn were dispatched and those after it kept |
| Hijack.ChannelReader.HandOver | pkg/iproto/iproto/channel.go:828-851 | the hijack buffer gets the first LastRead bytes of the split packet and then what was read ahead |
| Hijack.ChannelReader.Dispose | pkg/iproto/iproto/channel.go:873-898 | a packet is taken for a response if and only if its code is pending, and uses that code up; otherwise it is kept once the hijack was seen and dispatched before; the log grows by it and the buffer by the kept ones only |
| Hijack.ChannelReader.Notice | pkg/iproto/iproto/channel.go:880-885 | a hijack that was seen stays seen, and the log tells when |
| Hijack.TrackedOne | pkg/iproto/iproto/channel.go:873-898 | one more whole packet keeps the account of the raw stream |
| Datagram.Writer.Flush | pkg/iproto/iproto/dgram.go:209-218 | sends what is buffered as one datagram of whole packets of one destination, or nothing when there is nothing |
| Datagram.Writer.Write | pkg/iproto/iproto/dgram.go:221-225 | a packet larger than the empty buffer is sent directly, any other is buffered whole |
| Datagram.Writer.Put | pkg/iproto/iproto/dgram.go:206-225 | flushes before a new destination and before a packet that does not fit; the packet stays in the buffer exactly when it fits an empty one |
| Datagram.Writer.Run | pkg/iproto/iproto/dgram.go:177-251 | every datagram is consecutive whole packets of one destination, within the buffer size unless it is a single packet, and datagrams and buffer together are a prefix of the queue; a stopped loop leaves the buffer unsent exactly when its last check saw a queued packet and the last packet taken fits the buffer |
| Datagram.PutKeeps | pkg/iproto/iproto/dgram.go:195-232 | the buffer as a value: groups of one destination within the size, order kept, and what stays after a put |
| Datagram.PutShares | pkg/iproto/iproto/dgram.go:206-225 | a packet to the same destination that fits behind what is buffered shares its datagram |
| Datagram.BurstIsTight | pkg/iproto/iproto/dgram.go:195-232 | of packets put without a pause no two datagrams in a row could have given the second its first packet earlier |
| DatagramRun.StepKeeps | pkg/iproto/iproto/dgram.go:177-251 | every step of senders, stop and writer keeps the invariant of queue, hand, buffer and lengths |
| DatagramRun.NothingVanishes | pkg/iproto/iproto/dgram.go:177-251 | in every interleaving the packets queued are those sent, buffered, in hand and still queued, in that order |
| DatagramRun.UnsentExactly | pkg/iproto/iproto/dgram.go:236-243 | when the writer has gone its buffer is unsent if and only if the last length check saw a packet and the last packet put fits the buffer; what is left in the queue was all queued after the stop |
| DatagramRun.AllSentUnlessLate | pkg/iproto/iproto/dgram.go:236-243 | without a packet queued after the stop everything queued has been sent |
| DatagramRun.CountedIsThere | pkg/iproto/iproto/dgram.go:206-232 | a packet counted in the length is there when the writer takes it, so it never waits in the inner loop |
| DatagramRun.WriterGoesOn | pkg/iproto/iproto/dgram.go:177-251 | unless it has gone or waits for a packet or a stop, the writer can take a step |
| DatagramRun.LatePacketLosesBuffer | pkg/iproto/iproto/dgram.go:236-243 | send, stop, drain one packet, a late send, the length check: the drained packet is never sent |
| Datagram.ParseInverse | pkg/iproto/iproto/dgram.go:284-297 | glued packets are read back one by one, whatever follows |
| Datagram.BrokenTailKeepsHead | pkg/iproto/iproto/dgram.go:286-297 | packets before a broken one are handled: only the rest of the datagram is dropped |
| Datagram.DroppedWholeOnlyIfFirst | pkg/iproto/iproto/dgram.go:286-297 | a datagram is dropped whole if and only if its first packet is broken |
| Datagram.HeadIsHandled | pkg/iproto/iproto/dgram.go:286-297 | a whole packet followed by one stray byte is handled |
| Datagram.QueuedIsWhole | pkg/iproto/iproto/dgram.go:333-339 | what is queued for a packet that tells its length within the limit is whole |
| Datagram.ReadersGetPrefix | pkg/iproto/iproto/dgram.go:177-251 | what is read from all datagrams sent is a prefix of the queued packets in queue order, and all of them when nothing is left |
| Datagram.ReadDatagram | pkg/iproto/iproto/dgram.go:284-328 | the loop over one datagram handles exactly the packets up to the first broken one, and a proper prefix of them when a stop comes in between |
| Mutators.Neutral | internal/pkg/generator/tmpl/octopus/main.tmpl:703-738 | bit operations with zero or all ones, which the skipped branches rely on |
| Mutators.GatedBits | internal/pkg/generator/tmpl/octopus/main.tmpl:703-738 | each of the 32 bits is the and, or and exclusive or of the bits of both numbers |
| Mutators.GatedSums | internal/pkg/generator/tmpl/octopus/main.tmpl:703-738 | or and and share out the sum, and exclusive or is their difference |
| Mutators.ClearedBits | internal/pkg/generator/tmpl/octopus/main.tmpl:721-729 | a bit stays if and only if it was set and is not in the argument |
| Mutators.CodesOnTheWire | pkg/octopus/types.go:136-141 | the codes of the five operations as the byte in the request |
| Mutators.ApplyWord | internal/pkg/generator/tmpl/octopus/main.tmpl:676-745 | an operation on the packed fields is the operation on the local field |
| Mutators.IncRefusedWhen | internal/pkg/generator/tmpl/octopus/main.tmpl:677-684 | with a non-negative argument Inc is refused exactly when the sum leaves the type; with a negative one exactly when the field is not negative or the sum stays in the type |
| Mutators.DecRefusedWhen | internal/pkg/generator/tmpl/octopus/main.tmpl:690-697 | with a non-negative argument Dec is refused exactly when the difference leaves the type; with a negative one exactly when the field is negative or the difference stays in the type |
| Mutators.NegativeIncWraps | internal/pkg/generator/tmpl/octopus/main.tmpl:682-689 | Inc by the smallest number on -1 is taken and wraps |
| Mutators.LoadedInStep | internal/pkg/generator/tmpl/octopus/main.tmpl:381-394 | a loaded record is in step with its tuple if and only if every stored field has four bytes |
| Mutators.AdditionsAddToAny | internal/pkg/generator/tmpl/octopus/main.tmpl:686-702 | replayed on any tuple the queued additions add the same amount to what is there |
| Mutators.SyncedExactly | internal/pkg/generator/tmpl/octopus/main.tmpl:1238-1341 | after an update on a tuple that others may have changed the database holds the fields of the record if every field is overwritten or still as loaded, and only then when no field had bits masked |
| Mutators.MaskedFieldSynced | internal/pkg/generator/tmpl/octopus/main.tmpl:703-738 | a field with bit operations only comes out as in the record if and only if the tuple and the loaded one agree on the bits let through |
| Mutators.UpdateNotSynced | internal/pkg/generator/tmpl/octopus/main.tmpl:1238-1341 | one added to a field loaded as 5 and since changed to 7: the update is accepted, the database holds 8 and the record 6 |
| Mutators.RetryInStep | internal/pkg/generator/tmpl/octopus/main.tmpl:1238-1341 | retrying a call that failed after it was applied leaves the fields in the database if every field is overwritten or was not changed by the queue, and only then when no field had bits masked |
| Mutators.ExtraFieldsStay | internal/pkg/generator/tmpl/octopus/main.tmpl:399-405 | the operations of a record leave the fields behind its own alone |
| Mutators.Record.Set | internal/pkg/generator/tmpl/octopus/main.tmpl:541-603 | refused exactly for a primary key field of an existing record; field and queue stay in step |
| Mutators.Record.Inc | internal/pkg/generator/tmpl/octopus/main.tmpl:676-689 | the field grows by the argument or the call is refused as above; the argument is queued as an addition unless zero; in step either way |
| Mutators.Record.Dec | internal/pkg/generator/tmpl/octopus/main.tmpl:690-702 | the field shrinks by the argument or the call is refused as above; its negation is queued as an addition unless zero; in step either way |
| Mutators.Record.AndBits | internal/pkg/generator/tmpl/octopus/main.tmpl:703-711 | the field is and-ed with the argument, and that is queued exactly when the field changes; in step |
| Mutators.Record.OrBits | internal/pkg/generator/tmpl/octopus/main.tmpl:712-720 | the field is or-ed with the argument, and that is queued exactly when the field changes; in step |
| Mutators.Record.XorBits | internal/pkg/generator/tmpl/octopus/main.tmpl:730-738 | the field is xor-ed with the argument, and that is queued exactly when the field changes; in step |
| Mutators.Record.ClearBits | internal/pkg/generator/tmpl/octopus/main.tmpl:721-729 | the bits of the argument are cleared, and keeping the others is queued exactly when the field changes; in step |
| Mutators.Record.Send | internal/pkg/generator/tmpl/octopus/main.tmpl:1238-1341 | the request names the namespace, the packed primary key and the queued operations; an accepted update makes of the tuple in the database, whoever changed it, what the queue makes of it, and empties the queue; of an unchanged tuple that is the packed fields; a refused or failed call keeps the queue, and after a failed one the database may have applied it |
| Mutators.TupleToStruct | internal/pkg/generator/tmpl/octopus/main.tmpl:381-408 | loads all fields or fails exactly on an empty one, and puts further fields aside; nothing stays queued; the record is in step exactly when every field loaded has four bytes |
| Timestamp.AddCarries | pkg/iproto/util/time/time.go:21-39 | the sum is the normal form of the nanoseconds added up |
| Timestamp.AddReaches | pkg/iproto/util/time/time.go:21-39 | one duration alone leads from one timestamp to another |
| Timestamp.SubTells | pkg/iproto/util/time/time.go:41-53 | the difference of any two normalised timestamps, seconds subtracted in 64 bits |
| Timestamp.SubIsSaturated | pkg/iproto/util/time/time.go:41-53 | the difference is exact or saturated on the right side if and only if the seconds differ by an int64 or the wrapped difference does not fit |
| Timestamp.AddUndoesSub | pkg/iproto/util/time/time.go:41-53 | for seconds that differ by an int64, add undoes sub exactly when the difference fits |
| Timestamp.FarApartWraps | pkg/iproto/util/time/time.go:41-53 | seconds 2^64 - 1 apart are told to be one second apart the other way |
| RoundRobin.RoundIsFair | pkg/activerecord/cluster.go:64-102 | as many calls as there are online instances choose each of them exactly once, wherever the cursor starts |
| RoundRobin.TurnPasses | pkg/activerecord/cluster.go:82-96 | each call moves on within one round and passes over no online instance |
| RoundRobin.Rotate | pkg/activerecord/cluster.go:79-101 | finds the next online instance within one round of attempts and leaves the cursor on it, also from beyond the list; all offline takes ten rounds and any instance |
| RoundRobin.Shard.NextMaster | pkg/activerecord/cluster.go:64-102 | panics exactly without masters or with a lone offline one, and otherwise takes the next turn |
| RoundRobin.Shard.NextReplica | pkg/activerecord/cluster.go:104-134 | panics exactly without replicas, and otherwise takes the next turn when one is online |
| RoundRobin.Shard.OnlineReplica | pkg/activerecord/cluster.go:168-183 | chosen if and only if some replica is online, and then an online one |
| RoundRobin.Shard.SetInstances | pkg/activerecord/cluster.go:213-231 | masters and replicas are the instances of that mode in the order given |
| RoundRobin.OfModeKeeps | pkg/activerecord/cluster.go:213-231 | the instances of a mode are kept each as often as given, and no others |
| RoundRobin.OfModeInOrder | pkg/activerecord/cluster.go:213-231 | and in the order given |
| RoundRobin.Shard.NextMasters | pkg/activerecord/cluster.go:64-102 | consecutive calls over an unchanged list of at least two masters take the turns one after the other |

## Left out

- Sockets, deadlines, dialling, listening, timers and clocks: they are nondeterministic events or byte streams here.
- Reflection in iproto pack.go (`packOne`, `unpackOne`, struct tags): the typed encoders are modelled.
- The generator front end, its other templates, configuration, logging, metrics, serializers and mocks.
- Custom mutators, partial fields, flags of fields and widths other than 32 bits in generated records.
- The replacement of a repaired record, and the refusal of strings that are too long, in generated setters.
- Direct messages, barriers, multicast and waiting in the goroutine pool, and user callbacks everywhere.
- That every notice, or every send that ignores the stopped flag, is written when it races with a shutdown.
- Wall-clock bounds: a missed ping, idle connections and timeouts may happen at any time.
- The lists returned by a reset share one array in the program, and the list of peers shares it too; here they are values.
- The slices of a shard are rebuilt over their old storage in the program; here they are values.
- Slices of a response that end past its length but within the capacity of its storage; the model takes them for out of range.
- Arbitrary response bytes as a property: the decoder is modelled on all bytes, the theorem is about well-formed ones.
- The order in which disabled pools are visited, which is that of a map and arbitrary here.
- Comparison of cluster configurations by checksum and the caching of configurations.
- Pending.Store.Push: requires a free sync number for the method, without which the program's loop does not end.
- RoundRobin.Rotate: the cursor is one that a 32-bit counter can still be advanced from, as it is after any earlier call; concurrent callers are not modelled.
- Mutators.SyncedExactly: for an unsigned field whose queue mixes masks and additions without overwriting it, only that an unchanged field is in step; tuples changed by others are taken to keep their number of fields and their four-byte widths.
- Mutators.Record.Dec: only for int32, since the code generated for unsigned fields names a constant that Go does not have.
- Ping.PingsTrackWaiters: takes the time since the last ping to be positive when the timer fires again, and both peers to run this code.
- Datagram.Writer.Run: assumes that writes to the connection succeed.
- Hijack.ChannelReader.Run: says nothing when the reader ends with an error that is not the deadline of a hijack.
- TaskGroup.TaskGroup.Do: a Goer that runs its function before it returns would wait for the lock the caller holds, and is not modelled.
