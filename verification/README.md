# Dafny model of the offline-first sync core

The repository keeps a local mirror of server rows, pushes changes, queues what it could not push, and
reconciles versions later. This project models that path, and the protocols and text tools around it, and
proves what they promise over every input, every run and every interleaving.

| files | what they model |
|---|---|
| `Contract`, `OfflineQueue`, `FileBackedQueue`, `SqliteQueue` | the finalize rule and the three queues, each a class whose methods are proved against functions of the old state |
| `QueueProtocol`, `QueueRefinement`, `FileQueueFailures` | writers, overlapping replay workers and restarts interleaved over one queue; all three queues refine it, the in-memory one within a process; the file queue when writes fail |
| `Coordinator`, `ServerReplies`, `Payload` | the write path with its calls interleaved step by step, what a server reply means, and column encryption |
| `WriteFate` | the write path and the replays over one queue: a change from its mirror write to its delivery or acknowledgement |
| `Reducer`, `SyncSystem` | the scheduling state machine, composed with the queue, timers and one replay worker |
| `Reconcile`, `Tombstones`, `ReconcilePlan` | many replicas reconciling one row with a server, along runs with edits; the planner |
| `JsonDebug`, `JsonDebugParser`, `SomeStripper`, `DebugCleaner`, `CleanedJson` | the `{:?}` text cleaner: grammar, parser, rewriter, layer stripping, and what it shows |
| `SessionRefresh`, `RealtimeSupervisor`, `Heartbeats` | the single-flight token refresh, the reconnect loop, and the probing tasks of a connection |
| `EchoTracker`, `LogOverrides`, `Manifest` | the echo window, log level overrides, and the cache manifest |
| `Ordering`, `Sequences`, `Wrappers` | string order, prefixes and concatenation, and `Option` |

A protocol is a list of steps in the order they take effect, together with a function that runs it; a
theorem about the protocol quantifies over all such lists. Where the source loops over a buffer, a map or an
array, the model has a method with that loop, and its `ensures` equates the result with the function the
lemmas are about.

## What the model shows about the code

These are places where the code does something other than its comments or its callers may expect. In each
case the model keeps the code and a lemma says exactly when it meets the expectation.

- **Queue stamps.** `crates/polybase/src/sync/coordinator.rs:471-474` stamps with the wall clock and not with
  `next_queued_at_micros`. If a row is written twice with the same stamp while a replay is open, the second
  write can be lost (`QueueProtocol.RepeatedStampLosesAnOperation`); an enqueue is safe exactly when no open
  replay may still drop its row and stamp (`QueueProtocol.EnqueueIsSafeIff`). Safe enqueues are therefore
  the hypothesis of the theorems over whole runs, and order equality between the queues needs increasing
  stamps. Stamping with `next_queued_at_micros` meets both whatever the clock reads
  (`QueueProtocol.MonotonicStampsAreSafe`). A clock that always advances does not: the stamp is taken before
  the queue is awaited, so overlapping calls can queue against the order of their stamps
  (`Coordinator.OverlapReversesStamps`).
- **File queue.** When the write after a finalize fails and the finalize had emptied the cache, the next
  caller that loads takes whatever the failed write left: acknowledged operations can come back, or the load
  can fail (`FileBackedQueue.UnwrittenFinalizeIsSeenIff`). An enqueue whose write fails reports an error and
  has stored the operation in the cache (`FileBackedQueue.EnqueueStoresIff`), so a call can return an error and
  have its change replayed all the same (`Coordinator.FailedCallIsQueuedIff`). A restart goes back to the last
  queue that was written (`FileQueueFailures.RestartShowsTheLastWrittenQueue`).
- **Memory queue.** A restart loses it, and it holds what the process now running has queued
  (`QueueRefinement.MemoryHoldsItsProcess`, `QueueRefinement.MemorySurvivesRestartIff`).
- **Overlapping calls on a row.** Nothing locks a row from the mirror write to the enqueue. Two overlapping
  calls that both succeed can leave the mirror at one change and the queue at the other
  (`Coordinator.OverlappingCallsQueueTheOlderChange`); the two agree exactly when the call that queued last
  also mirrored last (`Coordinator.QueuedChangeIsCurrentIff`).
- **Direct success leaves an older queued change.** A write that goes through does not remove an older queued
  write of the same row, so a replay sends the older one again
  (`Coordinator.TurnsKeepQueueCurrentIff`, `Coordinator.LaterSuccessLeavesOldChangeQueued`). Only the version
  guard on the server stands in the way.
- **Same-version rejection.** `crates/polybase/src/sync/coordinator.rs:366-372` treats it as benign for
  deletes too, but the tombstone update never reports it that way: on a tombstone it is an error and is not
  queued (`ServerReplies.SameVersionDividesTheRoutes`).
- **Undelete.** A tombstone held by any replica wins over the server's live row at every version, so an undelete
  sticks exactly when nobody still holds the tombstone (`Tombstones.UndeleteSticksIff`,
  `Tombstones.ConvergedRowIsDeletedIff`). Where the tombstone is on the server, the undelete wins only if its replica
  is the very first to reconcile: any other adopts the tombstone and pushes it back later
  (`Tombstones.TombstoneIsLiftedIff`). A row that never saw the tombstone passes the undelete guard after
  enough ordinary edits (`Tombstones.OrdinaryEditsPassTheGuardIff`).
- **Token refresh.** A waiter holds the slot lock across its await, and a watch channel without receivers
  stores nothing. Setting and clearing the session hold the mutation lock, and clearing holds it until it gets
  the slot lock. So a sign-out that begins while a refresh with a waiter is in flight ends in a circle once the
  refresh succeeds: the leader waits for the sign-out, the sign-out for the waiter and the waiter for the leader
  (`SessionRefresh.SignOutDuringRefreshDeadlocks`), and from then on nobody can join or claim a refresh, sign in or
  sign out (`SessionRefresh.DeadlockStopsEverything`). A caller that joins is never answered if the leader has
  already sent to nobody, has failed permanently, or has fresh credentials to set while a sign-out holds the
  mutation lock (`SessionRefresh.JoinOrphansIff`, `SessionRefresh.OrphanWaitsForever`); every other joiner has a
  continuation that answers it (`SessionRefresh.JoinIsAnsweredIff`). A sign-out that does get through during a
  refresh lets a second leader in (`SessionRefresh.SignOutIsHarmlessIff`). A captured watermark
  only tells whether some session is present, not whose (`SessionRefresh.CapturedWatermarkStaysValidIff`), although
  `crates/polybase/src/auth.rs:250-252` means it to detect an account switch.
- **Cleaner.** `Some('"')` is left as it is, because the scan takes the quote character for the start of a
  literal (`SomeStripper.QuoteCharIsNotStripped`); stripping works exactly on text that balances outside
  string literals (`SomeStripper.StripsExactlyBalanced`). Strings are shown with their `{:?}` escapes, which
  is JSON exactly for plainly shown strings (`CleanedJson.CleanedIsJsonIff`).
- **Liveness probe.** The silence check and the probe are separate steps, so a probe can go out right after a
  frame came in (`Heartbeats.ProbeMayFollowAFrame`).
- **Reducer.** It has an effect to process at once, and never emits it; a delay of zero does that job.

## Model

| member | source | states |
|---|---|---|
| QueueProtocol.QueueHoldsExactlyTheOutstanding | crates/polybase/src/contract.rs:229-263 | Over every interleaving of enqueues, restarts (which end all replays) and any number of overlapping snapshot/replay/finalize cycles in which each enqueue is safe, an operation is queued exactly when it was enqueued, no later enqueue of its row replaced it, and no finalize acknowledged it |
| QueueProtocol.NoOperationIsLost | crates/polybase/src/offline_queue/mod.rs:102-159 | The same per enqueued operation: still queued, or superseded, or in a finalized snapshot and not in its failed list |
| QueueProtocol.EverythingWasEnqueued | crates/polybase/src/offline_queue/mod.rs:111-113 | Whatever is queued or held in a snapshot was enqueued, and enqueued before that snapshot was taken |
| QueueProtocol.PendingIsInStampOrder | crates/polybase/src/offline_queue/mod.rs:102-109 | Under increasing stamps the queue is sorted by stamp after every run |
| QueueProtocol.EnqueueIsSafeIff | crates/polybase/src/sync/coordinator.rs:223-232 | In every reachable state, an enqueued operation outlives every way an open replay can run to its end if and only if no replay still holds its row and stamp and no finalize under way has acknowledged them |
| QueueProtocol.FreshStampsAreSafe | crates/polybase/src/offline_queue/mod.rs:102-159 | If no two enqueues of a row share a stamp, every enqueue of the run is safe |
| QueueProtocol.MonotonicStampsAreSafe | crates/polybase/src/contract.rs:89-99 | Stamping with the monotonic rule makes stamps increase for any clock readings, so every enqueue is safe, nothing is lost and the queue is in stamp order |
| QueueProtocol.RepeatedStampLosesAnOperation | crates/polybase/src/sync/coordinator.rs:471-474 | From any reachable state, a repeated stamp can leave a row unqueued although its last write was neither superseded nor acknowledged |
| QueueRefinement.MemoryRefines | crates/polybase/src/offline_queue/mod.rs:101-164 | The in-memory queue follows the abstract queue through every run of one process, order included |
| QueueRefinement.MemoryHoldsItsProcess | crates/polybase/src/offline_queue/mod.rs:87-164 | Over any number of restarts it holds exactly the operations that the process now running has enqueued and neither superseded nor acknowledged |
| QueueRefinement.MemorySurvivesRestartIff | crates/polybase/src/offline_queue/mod.rs:88-100 | A restart empties it and ends its replays, so it still agrees with the abstract queue if and only if nothing was queued |
| QueueRefinement.FileRefines | crates/tauri-plugin-polybase/src/queue_store.rs:51-138 | While writes succeed, so does the file queue, with any steps of other callers between a load and its operation, and a restart at any moment |
| FileQueueFailures.CacheIgnoresFailedWrites | crates/tauri-plugin-polybase/src/queue_store.rs:98-138 | In a process whose loads find nothing to take from the file, the cache follows the abstract queue through every run, whichever writes fail |
| FileQueueFailures.RestartShowsTheLastWrittenQueue | crates/tauri-plugin-polybase/src/queue_store.rs:51-94 | If failed writes leave the file alone, a restart at any moment of such a run shows exactly the abstract queue as of the last successful write |
| QueueRefinement.EveryTraceIsAHistory | crates/tauri-plugin-polybase/src/queue_store.rs:98-138 | Every abstract run is the history of some run of the file queue whose writes succeed |
| QueueRefinement.SqliteRefines | crates/polybase-sqlite/src/queue.rs:107-177 | So does the SQLite table while enqueues are safe, with arbitrary steps of others between a finalize's read and its transaction |
| QueueRefinement.SqliteOrderAgreesIff | crates/polybase-sqlite/src/queue.rs:94-105 | The ordered SELECT returns the abstract queue in the abstract order if and only if that queue is sorted the way the SELECT sorts |
| QueueRefinement.QueuesAgree | crates/polybase/src/offline_queue/mod.rs:66-86 | Under increasing stamps the file queue and the SQLite queue hand out the same operations in the same order after every run, retry diagnostics aside, and within one process so does the in-memory queue |
| QueueRefinement.NoQueueLosesAnOperation | crates/polybase/src/offline_queue/mod.rs:75-82 | The file queue and the SQLite queue hold exactly the operations neither superseded nor acknowledged, and within one process so does the in-memory queue |
| Contract.FinalizeQueueAfterProcessing | crates/polybase/src/contract.rs:234-263 | The two loops over the current queue and the failed list compute the specified finalize |
| Contract.FinalizeKeepsExactly | crates/polybase/src/contract.rs:229-263 | Of the operations now queued, one per row, finalize keeps exactly those the snapshot did not hold and those it held and that failed |
| Contract.LocalWinnerMergedVersion | crates/polybase/src/contract.rs:80-88 | The merged version is above both sides, and one above one of them |
| OfflineQueue.MemoryQueue.Enqueue | crates/polybase/src/offline_queue/mod.rs:102-109 | Replaces the row's operation and appends; everything else keeps its place |
| OfflineQueue.MemoryQueue.FinalizeAfterProcessing | crates/polybase/src/offline_queue/mod.rs:115-159 | The queue after the in-place retain and retry update is the specified one |
| OfflineQueue.MemoryFinalizeDropsAcknowledged | crates/polybase/src/offline_queue/mod.rs:115-159 | That queue is the old one without exactly the acknowledged operations, in order |
| FileBackedQueue.FileBackedQueue.LoadIntoCache | crates/tauri-plugin-polybase/src/queue_store.rs:51-71 | Fills the cache from the file only while the cache is empty, and reports an unreadable file |
| FileBackedQueue.FileBackedQueue.FlushLocked | crates/tauri-plugin-polybase/src/queue_store.rs:73-94 | Writes the whole cache, or leaves the file as a failed write leaves it |
| FileBackedQueue.FileBackedQueue.Enqueue | crates/tauri-plugin-polybase/src/queue_store.rs:98-105 | State and outcome of an uninterrupted enqueue, write failures and the disable switch included |
| FileBackedQueue.FileBackedQueue.EnqueueLocked | crates/tauri-plugin-polybase/src/queue_store.rs:100-104 | What it does to the cache as it finds it once it has the lock |
| FileBackedQueue.FileBackedQueue.FinalizeAfterProcessing | crates/tauri-plugin-polybase/src/queue_store.rs:112-133 | State and outcome of an uninterrupted finalize, likewise |
| FileBackedQueue.FileBackedQueue.FinalizeLocked | crates/tauri-plugin-polybase/src/queue_store.rs:118-132 | What it does to the cache as it finds it once it has the lock |
| FileBackedQueue.EnqueueStoresIff | crates/tauri-plugin-polybase/src/queue_store.rs:98-105 | An enqueue has the operation in the cache if and only if the load before it succeeded, and reports success if and only if the write did too or the file is switched off |
| FileBackedQueue.WrittenFinalizeIsCoherent | crates/tauri-plugin-polybase/src/queue_store.rs:112-133 | While writes succeed, cache and file agree and exactly the acknowledged operations are gone |
| FileBackedQueue.WrittenEnqueueIsCoherent | crates/tauri-plugin-polybase/src/queue_store.rs:98-105 | While writes succeed, cache and file agree and the enqueue is the abstract one |
| FileBackedQueue.RestartIsInvisible | crates/tauri-plugin-polybase/src/queue_store.rs:33-39 | Rebuilding the queue from disk changes nothing a reader sees |
| FileBackedQueue.UnwrittenFinalizeIsSeenIff | crates/tauri-plugin-polybase/src/queue_store.rs:51-133 | After a finalize whose write failed, whatever that left of the file: who has loaded sees the finalized queue; who still has to load sees it if and only if some queued operation was not acknowledged or the file left reads as an empty queue |
| FileBackedQueue.UntouchedFileIsSeenIff | crates/tauri-plugin-polybase/src/queue_store.rs:51-71 | When the failed write left the file alone: if and only if something is still cached or there was nothing to drop |
| SqliteQueue.SqliteOfflineQueue.Enqueue | crates/polybase-sqlite/src/queue.rs:74-92 | Inserts or replaces the row of the operation's key |
| SqliteQueue.SqliteOfflineQueue.FinalizeRead | crates/polybase-sqlite/src/queue.rs:107-141 | The read half plans from the table as it is then, and changes nothing |
| SqliteQueue.SqliteOfflineQueue.FinalizeCommit | crates/polybase-sqlite/src/queue.rs:143-177 | The transaction's per-row statements, on whatever the table holds by then |
| SqliteQueue.CommitRowsAt | crates/polybase-sqlite/src/queue.rs:143-177 | For every key: the row goes if and only if the very operation that was read is not retained, is bumped once if that operation failed, and is otherwise untouched |
| SqliteQueue.FinalizeNeverTouchesOtherOperations | crates/polybase-sqlite/src/queue.rs:107-177 | After any change by other writers in between, a row whose operation was not in the snapshot is neither deleted nor bumped |
| SqliteQueue.SelectOrdered | crates/polybase-sqlite/src/queue.rs:94-105 | The ordered SELECT returns each row once, by stamp, then table, then id |
| SqliteQueue.SortedRowsAreDetermined | crates/polybase-sqlite/src/queue.rs:94-105 | That listing is unique |
| Coordinator.Coordinator.Write | crates/polybase/src/sync/coordinator.rs:156-252 | A call nobody comes between performs these steps in this order on mirror, queue and regressions: mirror, mark, send, receive, and queue only after a transient failure; and its result |
| Coordinator.NothingIsSentUnmarked | crates/polybase/src/sync/coordinator.rs:144-150 | In every interleaving of calls, each send has its own mirror write and then its own echo mark behind it, and no other step of that call between them |
| Coordinator.QueueingFollowsAFailedSend | crates/polybase/src/sync/coordinator.rs:223-241 | A change is queued only after its own send failed for a passing reason, with the stamp taken when that reply came in |
| Coordinator.CallSucceedsIff | crates/polybase/src/sync/coordinator.rs:205-251 | A finished call succeeded if and only if its change was delivered or the queue reported it stored |
| Coordinator.FailedCallIsQueuedIff | crates/polybase/src/sync/coordinator.rs:223-241 | A call that returned an error has its change queued all the same if and only if the queue stored it and reported an error |
| Coordinator.MirrorShowsTheLastChange | crates/polybase/src/sync/coordinator.rs:182-183 | In every interleaving the mirror shows each row's last mirror write, whatever became of it on the network |
| Coordinator.QueueHoldsTheLastQueued | crates/polybase/src/sync/coordinator.rs:223-241 | And the queue holds exactly the operation of each row's last step that stored one, reported or not |
| Coordinator.QueuedChangeIsCurrentIff | crates/polybase/src/sync/coordinator.rs:182-241 | A row's queued operation is the change its mirror shows if and only if the call that queued last on the row also mirrored last |
| Coordinator.TurnsKeepQueueCurrentIff | crates/polybase/src/sync/coordinator.rs:182-241 | When no call begins on a row that another is still busy with, that is so if and only if no call has mirrored the row since it was queued |
| Coordinator.OverlappingCallsQueueTheOlderChange | crates/polybase/src/sync/coordinator.rs:182-241 | Two overlapping calls on a row that both succeed can leave the mirror at the second change and the queue at the first |
| Coordinator.OverlapReversesStamps | crates/polybase/src/sync/coordinator.rs:223-241 | On two rows the same overlap queues them against the order of their stamps, although the clock advances |
| Coordinator.LaterSuccessLeavesOldChangeQueued | crates/polybase/src/sync/coordinator.rs:206-241 | A write that was queued stays queued when a later write of the row goes through |
| WriteFate.AcceptedWriteIsAccountedFor | crates/polybase/src/sync/coordinator.rs:205-251 | In every interleaving of calls, replays and restarts with safe enqueues, a call that returned success had its change delivered, or the change is still queued, or another call queued the row again later, or a replay acknowledged it |
| WriteFate.CurrentChangeWaitsForItsReplay | crates/polybase/src/sync/coordinator.rs:182-241 | When calls on a row take turns, the change its mirror shows, once its call returned success, was delivered or is queued exactly as long as no replay has acknowledged it |
| WriteFate.CurrentChangeIsNotSuperseded | crates/polybase/src/sync/coordinator.rs:182-241 | Nothing queued later on the row takes that change's place |
| WriteFate.SourcesInOrder | crates/polybase/src/sync/coordinator.rs:223-241 | The queue sees the operations in the order in which the calls queued them, each enqueue being one call's step |
| ServerReplies.SameVersionDividesTheRoutes | crates/polybase/src/sync/push.rs:77-133 | Upsert and tombstone update read every reply alike except the same-version rejection, which is success for one and a permanent error for the other |
| Payload.SerializeForRemote | crates/polybase/src/registry/mod.rs:402-440 | The loop over columns computes the specified payload, and fails when an encryption fails |
| Payload.RemoteRow.DecryptColumns | crates/polybase/src/sync/coordinator.rs:476-496 | Decrypts in place; a failure keeps the columns opened before it |
| Payload.DecryptingRestoresIff | crates/polybase/src/registry/mod.rs:381-401 | Decrypting a serialized payload restores it with the user id in it, if and only if no encrypted column of it holds text that already carries the ciphertext prefix |
| Payload.SerializingTwiceIsSerializingOnce | crates/polybase/src/registry/mod.rs:394-399 | For every payload, repeated column names and fresh nonces included, a second serialization changes nothing; it can fail only on an encrypted user id column |
| Payload.SealSealsEachField | crates/polybase/src/registry/mod.rs:410-432 | Each field of an encrypted column ends up as one ciphertext of its original text, never encrypted twice, and all other fields are kept |
| Payload.OpeningShortens | crates/polybase/src/sync/coordinator.rs:483-494 | Decryption changes every ciphertext of an encrypted column and lengthens nothing |
| Payload.NamesRoundTripIff | crates/polybase/src/registry/mod.rs:334-362 | Mapping every row to local names and back keeps exactly the registered fields if and only if no local name stands for two remote ones |
| Payload.RemoteToLocal | crates/polybase/src/registry/mod.rs:338-347 | The mapping loop, a later column winning |
| Payload.LocalToRemote | crates/polybase/src/registry/mod.rs:353-362 | The mapping loop back |
| Reducer.EffectsHonorGates | crates/polybase/src/sync/reducer.rs:99-173 | A schedule is emitted only with work pending and all gates open, and every event that opens the gates on pending work or brings work to open gates emits one |
| SyncSystem.NothingIsStranded | crates/polybase/src/sync/reducer.rs:99-173 | In every reachable state of reducer, queue, timers and worker, work queued with the gates open has a timer running or a notification about to arm one |
| SyncSystem.FateOfEveryWrite | crates/polybase/src/sync/reducer.rs:99-173 | In every reachable state each write is superseded, acknowledged by a replay that began after it, or still queued with a replay coming as soon as the gates are open |
| SyncSystem.QueueCanAlwaysDrain | crates/polybase/src/sync/reducer.rs:99-173 | From every reachable state, once connected and signed in, at most ten steps of the system itself empty the queue |
| SyncSystem.FailuresCountStalledReplays | crates/polybase/src/sync/reducer.rs:137-155 | The failure counter is the number of reports of a replay that moved nothing and left work since the last launch or report of anything else, up to the u32 limit |
| SyncSystem.StalledReplayWaitsForItsRung | crates/polybase/src/contract.rs:102-108 | The k-th stalled replay in a row waits for the k-th rung of 2, 5, 10, 30, 60, 120 seconds, and 120 from the sixth on |
| Reconcile.WorkIsBounded | crates/polybase/src/contract.rs:176-201 | For any number of replicas in any order, only boundedly many reconciles ever do something |
| Reconcile.SyncLowersWeight | crates/polybase/src/contract.rs:80-88 | Each one that does something lowers a measure: server row absent, replicas ahead, server live, replicas that differ |
| Reconcile.RoundsConverge | crates/polybase/src/sync/reconcile.rs:62-101 | As many rounds as the measure says, each letting every replica reconcile, end in agreement on version and tombstone flag |
| Reconcile.QuietMeansAgreed | crates/polybase/src/contract.rs:176-201 | No replica has anything to do if and only if all sides agree |
| Reconcile.AgreedIsQuiet | crates/polybase/src/contract.rs:176-201 | Once they agree, no schedule does anything more |
| Tombstones.ServerVersionNeverRegresses | crates/polybase/src/contract.rs:80-88 | Along every run with edits, the server's version never decreases and grows by at least one per push |
| Tombstones.LiftedTombstoneHadAnUndelete | crates/polybase/src/contract.rs:176-201 | When a server tombstone has become live, some step pushed a live row at least 1000 past the tombstone it met |
| Tombstones.OrdinaryEditsPassTheGuardIff | crates/polybase/src/contract.rs:76-78 | A row that never saw the tombstone is pushed over it if and only if enough ordinary edits carry it past the guard |
| Tombstones.UndeleteSticksIff | crates/polybase/src/contract.rs:176-201 | A live server row stays live under every schedule of reconciles if and only if no replica holds a tombstone |
| Tombstones.ConvergedRowIsDeletedIff | crates/polybase/src/contract.rs:176-201 | What all converge to from a live or absent server row is deleted if and only if some replica deleted it, and exists if and only if somebody had it |
| Tombstones.TombstoneIsLiftedIff | crates/polybase/src/contract.rs:176-201 | From a tombstone on the server they converge to a live row if and only if no replica holds a tombstone and the first replica to reconcile has a live row past the undelete threshold |
| Tombstones.VersionsFitI64 | crates/polybase/src/contract.rs:76-88 | With room for 1000 per step, no version and no guard in any state of a run overflows an i64 |
| Tombstones.RawPushesCycleIff | crates/polybase/src/contract.rs:80-88 | With unmerged pushes, a tombstone at t and a live row at v undo each other forever if and only if v is at least t + 1000 |
| ReconcilePlan.MakePlan | crates/polybase/src/sync/reconcile.rs:62-101 | The plan's six buckets are sorted, duplicate-free and hold exactly the ids whose row decision they stand for |
| ReconcilePlan.PlanIsDetermined | crates/polybase/src/sync/reconcile.rs:62-101 | There is only one such plan, so input order does not matter |
| ReconcilePlan.BucketsPartition | crates/polybase/src/sync/reconcile.rs:62-101 | Every id of either side is in exactly one bucket |
| ReconcilePlan.CountsAddUp | crates/polybase/src/sync/reconcile.rs:51-58 | The clamped counts add up to the number of ids while that fits in a u32 |
| ReconcilePlan.PlanActsRowByRow | crates/polybase/src/sync/reconcile.rs:62-101 | Carrying out a table's plan reconciles each row as that row alone would be |
| ReconcilePlan.SecondPassOnlySkips | crates/polybase/src/sync/reconcile.rs:62-101 | A second plan over settled tables only skips |
| JsonDebug.ParsePrinted | crates/polylog/src/clean.rs:142-301 | Parsing the text of any well-formed tree, with anything behind it, gives that tree and what is behind it |
| JsonDebug.ParsedIsPrinted | crates/polylog/src/clean.rs:142-301 | Whatever parses is the text of the tree it parses to, so the grammar is unambiguous |
| JsonDebugParser.Parser.ParseValue | crates/polylog/src/clean.rs:142-182 | The position-and-buffer parser consumes and writes exactly what the specification parser says, and terminates |
| JsonDebugParser.Parser.ParseArrayItems | crates/polylog/src/clean.rs:229-264 | The same for the loop over array items |
| JsonDebugParser.Parser.ParseObjectEntries | crates/polylog/src/clean.rs:184-227 | The same for the loop over object entries |
| JsonDebugParser.Parser.ParseRustString | crates/polylog/src/clean.rs:269-300 | A literal is copied with its quotes and escapes |
| JsonDebugParser.RewritesExactlyPrintedTrees | crates/polylog/src/clean.rs:99-103 | The rewriter accepts a string if and only if it is the text of some tree from end to end, and returns that tree's compact text |
| SomeStripper.FindMatchingCloseParen | crates/polylog/src/clean.rs:61-94 | The depth-counting scan finds the specified parenthesis |
| SomeStripper.ScanSkipsBalanced | crates/polylog/src/clean.rs:53-94 | The scan passes over any text that balances outside string literals |
| SomeStripper.ScannedTextIsBalanced | crates/polylog/src/clean.rs:53-94 | Whatever the scan passes over is balanced, one piece per open parenthesis |
| SomeStripper.StripsExactlyBalanced | crates/polylog/src/clean.rs:46-52 | A layer comes off with a given content if and only if the text is that layer around it and the content balances |
| SomeStripper.StripSomeWrappers | crates/polylog/src/clean.rs:36-42 | The loop strips all layers |
| SomeStripper.StripsAllLayers | crates/polylog/src/clean.rs:36-52 | Any number of layers around balanced text makes no difference |
| SomeStripper.QuoteCharIsNotStripped | crates/polylog/src/clean.rs:53-94 | A quote character inside a layer keeps the layer on |
| DebugCleaner.CleanDebugValue | crates/polylog/src/clean.rs:22-31 | The text shown, and that an unchanged value is borrowed and not copied |
| DebugCleaner.RewritesEveryValue | crates/polylog/src/clean.rs:99-301 | Every JSON value's `{:?}` text is rewritten to its compact text |
| DebugCleaner.CleansWrappedValues | crates/polylog/src/clean.rs:22-90 | And so is that text inside any number of `Some` layers |
| CleanedJson.CleanedIsJsonIff | crates/polylog/src/clean.rs:1-12 | What is shown is the value's JSON text if and only if every character of its strings and keys is escaped alike by `{:?}` and by JSON |
| SessionRefresh.SessionStore.SetSession | crates/polybase/src/auth.rs:160-203 | New state, kind and watermark for every payload; equal credentials change nothing |
| SessionRefresh.SessionStore.ClearSession | crates/polybase/src/auth.rs:206-227 | New state and kind; the cooldown and the slot are emptied as well |
| SessionRefresh.SingleFlight | crates/polybase/src/auth.rs:284-353 | On every run, until a sign-out or a permanent failure empties the slot, at most one caller is between claiming and releasing, and all callers that return from one refresh carry its outcome |
| SessionRefresh.WatermarksIncrease | crates/polybase/src/auth.rs:160-203 | Along every run a session that replaced another carries a larger watermark |
| SessionRefresh.CapturedWatermarkStaysValidIff | crates/polybase/src/auth.rs:247-261 | A captured watermark stays valid if and only if any session is present |
| SessionRefresh.SignOutIsHarmlessIff | crates/polybase/src/auth.rs:206-227 | A sign-out that gets the slot lock keeps the slot truthful if and only if no refresh is in flight |
| SessionRefresh.SignOutAdmitsSecondLeader | crates/polybase/src/auth.rs:317-324 | When a sign-out gets the slot lock during a refresh, a second caller can claim beside the first |
| SessionRefresh.SignOutDuringRefreshDeadlocks | crates/polybase/src/auth.rs:206-217 | A sign-out that begins while a refresh with a waiter is in flight ends in waiter, leader and sign-out waiting for one another as soon as the refresh succeeds or fails permanently |
| SessionRefresh.DeadlockStopsEverything | crates/polybase/src/auth.rs:160-217 | From then on no continuation has a step that takes the slot lock or the mutation lock |
| SessionRefresh.JoinOrphansIff | crates/polybase/src/auth.rs:289-292 | A caller that joins is left without an answer if and only if the leader has sent to nobody, has failed permanently, or has a session to set while a sign-out holds the mutation lock |
| SessionRefresh.JoinIsAnsweredIff | crates/polybase/src/auth.rs:289-353 | A caller that joins has a continuation that answers it with that refresh's outcome if and only if none of these is the case |
| SessionRefresh.WaiterIsAnsweredIff | crates/polybase/src/auth.rs:339-353 | A waiter is answered on some continuation if and only if it is not orphaned |
| SessionRefresh.WaiterCanBeAnswered | crates/polybase/src/auth.rs:326-353 | From wherever its leader stands, a waiter that is not orphaned can be brought back, with the refresh failing for now, and with it succeeding unless a sign-out holds the mutation lock |
| SessionRefresh.OrphanWaitsForever | crates/polybase/src/auth.rs:339-353 | Such a caller, and its leader, stay where they are in every continuation |
| SessionRefresh.PermanentFailureOrphansItsWaiter | crates/polybase/src/auth.rs:369-379 | A permanent failure leaves its waiter in that state whenever it has one, sign-out or not |
| RealtimeSupervisor.Run | crates/polybase/src/realtime/mod.rs:404-527 | The loop with its failure counter computes the specified log of events and delays |
| RealtimeSupervisor.LifecycleHasShape | crates/polybase/src/realtime/mod.rs:404-496 | Every run emits Connected Disconnected, then Reconnected Disconnected repeated, with a manual disconnect only at the end |
| RealtimeSupervisor.PrefixHasShape | crates/polybase/src/realtime/mod.rs:404-496 | So does everything a subscriber has seen at any moment |
| RealtimeSupervisor.CounterIsFailuresInARow | crates/polybase/src/realtime/mod.rs:404-496 | The counter is the number of failed turns since the last session |
| RealtimeSupervisor.DelayIsTheRung | crates/polybase/src/realtime/mod.rs:498-527 | Each delay before jitter is the initial one or the ladder entry for the failures so far, the last entry repeating |
| Heartbeats.TrackerIsTheUnanswered | crates/polybase/src/realtime/mod.rs:602-775 | In every interleaving the tracker holds exactly the references sent and not answered |
| Heartbeats.HandlingFollowsItsFrame | crates/polybase/src/realtime/mod.rs:602-684 | A reply leaves the tracker in the read task's next step after it noted the frame; checks of the other tasks may fall between |
| Heartbeats.AtMostOneOfEachIsUnanswered | crates/polybase/src/realtime/mod.rs:686-775 | At most one heartbeat and at most one liveness probe |
| Heartbeats.HeartbeatTimeoutIff | crates/polybase/src/realtime/mod.rs:689-726 | A heartbeat timeout is raised if and only if the reference sent at least the whole reply timeout ago is still unanswered |
| Heartbeats.LivenessTimeoutIff | crates/polybase/src/realtime/mod.rs:732-775 | The same for a liveness probe |
| Heartbeats.ProbeFollowsSilence | crates/polybase/src/realtime/mod.rs:732-757 | Every probe is the task's next step after a check that found a whole liveness window in which no frame was noted |
| Heartbeats.ProbeMayFollowAFrame | crates/polybase/src/realtime/mod.rs:735-757 | A frame may arrive between that check and the probe |
| EchoTracker.EchoTracker.WasRecentlyPushed | crates/polybase/src/sync/echo.rs:43-54 | Answer and pruned map |
| EchoTracker.EchoTracker.Vacuum | crates/polybase/src/sync/echo.rs:62-66 | Keeps exactly the unexpired marks |
| EchoTracker.ForgettingIsUnobservable | crates/polybase/src/sync/echo.rs:38-66 | With time moving forward, a query answers as the full history of marks since the last clear would, wherever pruning and vacuums fell, a vacuum with an older clock reading included |
| EchoTracker.KeysCollideIff | crates/polybase/src/contract.rs:110-112 | Two different rows share a key if and only if one table name runs past the colon of the other's key |
| EchoTracker.ColonFreeTablesNeverCollide | crates/polybase/src/contract.rs:110-112 | Hence never when table names hold no colon |
| LogOverrides.LogBuilder.TargetLevel | crates/polylog/src/builder.rs:83-91 | Updates the prefix's override in place or appends one |
| LogOverrides.BuiltHoldsLastSet | crates/polylog/src/builder.rs:83-91 | After any calls there is one override per prefix, at the level set last |
| LogOverrides.EffectiveMinLevel | crates/polylog/src/builder.rs:176-187 | The loop returns the first match, or the global level |
| LogOverrides.FirstMatchIsMostSpecific | crates/polylog/src/builder.rs:145-187 | After sorting, that is the level last set for the longest matching prefix |
| LogOverrides.CallOrderDoesNotMatter | crates/polylog/src/builder.rs:83-91 | The result depends only on the level last set per prefix |
| Manifest.WriteManifest | crates/polysym-build/src/lib.rs:270-283 | Header and one line per entry, stably sorted by name |
| Manifest.ReadManifest | crates/polysym-build/src/lib.rs:194-228 | The line loop computes the specified status, malformed and outdated files included |
| Manifest.ReadUndoesWrite | crates/polysym-build/src/lib.rs:194-283 | Reading a written manifest gives the map of its entries, a repeated name keeping its last signature |
| Manifest.EntryLineReadsBackIff | crates/polysym-build/src/lib.rs:205-221 | One entry's line reads back as that entry if and only if its name and signature are well formed |
| Manifest.SortingKeepsMap | crates/polysym-build/src/lib.rs:275-276 | The sort, being stable, changes no name's last signature |

## Left out

- HTTP, WebSocket, the SQL engine, the filesystem and Tauri commands: a network attempt is a reply, the table a map, the file a parsed sequence with an outcome per write, each chosen by the environment.
- AES-GCM, HKDF and base64: a cipher is a pair of functions; assumed are that ciphertext carries the prefix, decrypts to its text for the same user, is longer than it, and that the empty text stays empty. `Payload.TaggingIsSound` shows the assumptions can be met.
- JSON encoding of queued payloads and of the queue file: assumed to round-trip.
- The SQLite queue without an active database, and the retry column beyond the u32 range other than its saturation on reading.
- `retry_count` and `last_error` in comparisons between queues: the implementations differ there.
- QueueRefinement.FileRefines: takes writes to succeed; `FileQueueFailures` covers runs with failed writes in which no load refills an emptied cache from a file left behind, and `FileBackedQueue.UnwrittenFinalizeIsSeenIff` that load by itself.
- The replay loop is the host's: what it sends and in what order is not part of this model, a finalized snapshot without its failed list counts as acknowledged. After the server has a change, `Reconcile` and `Tombstones` speak of versions alone.
- `Coordinator` has no replays of its own; `WriteFate` puts its calls and the replays of `QueueProtocol` on one queue.
- The host's runtime: `SyncSystem` lets timers fire, replays run and the process restart in any order over a durable queue, and reports the true queue state when a replay ends.
- Clock values, jitter and the rounding of durations: durations are numbers, and delays are those before jitter.
- Strings are sequences of characters; byte positions and UTF-8 are not modelled, and string order is by code point.
- The counters behind heartbeat references and session watermarks are unbounded.
- `Tombstones.VersionsFitI64` covers overflow; everywhere else versions are mathematical integers.
- Row contents in reconcile: decisions see only version and tombstone flag, so agreement is on those two.
- The Postgres trigger `guard_version_regression` is not part of this model.
- The key-value layer, whose events the coordinator also publishes, and edge function envelopes beyond status, code and message.
- `persist_change_with_op` and `delete` differ in how they prepare and address a change; the steps of `Coordinator` take the prepared change, and failures before or at the mirror write are one flag.
- The order in which a lock serves those who wait for it, tasks that are cancelled while they hold or await one, liveness of token refresh beyond the lemmas on orphaned waiters, single use of refresh tokens, and the user-change hook.
- `Manifest.EntryLineReadsBackIff` is about one line; newlines inside names or signatures are excluded in `Manifest.ReadUndoesWrite`, whose entries are well formed and single-line.
- Pruning of orphaned cache files, symbol rendering, log formatting, colours and error display.
