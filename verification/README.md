# FastFiles: a verified model of the index

FastFiles keeps a durable file index (rows in SQLite), a bounded in-memory copy of it, and a
scan/journal protocol that feeds both. This project models the parts of it whose correctness
depends on many operations at once, and proves what they promise, for every input, every run and
every interleaving.

- **Scan authority and retry ownership** (`SessionSteps`, `SessionOwnership`, `SessionCadence`,
  `SessionReconciliation`, `SessionFinalization`, `SessionKinds`, `SessionManager`): the volume session
  manager as a machine whose steps are its critical sections, and as a class whose methods are proved
  against those steps.
- **Replacing a scan worker** (`ScanBarrier`): engine and service over two FIFO channels, with ghost
  attempt numbers that neither side sees.
- **The pipeline** (`BatchEffect`, `HotAgreement`, `IndexPipeline`, `ReconciliationWindow`): commit before
  apply, partial field masks, rule pruning, reconciliation passes with chunked removals, eviction, unload
  and reload. `SessionIndexBridge` shows that the index of the session machine is this pipeline's.
- **The read plane** (`Visibility`, `ReadPlane`, `SearchRoutes`): epochs, optimistic searches over all
  locations, restarts and the durable fallback.
- **The projection** (`ProjectionTable`, `ProjectionEviction`, `EvictionOrder`, `Projection`, `NamePool`,
  `FilenameIndex`, `SortedLists`, `FolderAggregate`, `FolderPath`): slots, free list, child lists,
  interned names, the trigram accelerator, least-recently-used eviction, compaction, folder totals.
- **The store** (`DurableStore`, `CandidateScan`, `TextCodec`, `FoldClassification`): masked upserts,
  all-or-nothing batches, the derived candidate index, both scan routes, the text codec.
- **Two dense pieces**: the MFT record parser (`MftFixup`, `MftAttributes`, `MftRoundTrip`) and the idle
  monitor (`IdleManager`).

Objects the code updates in place are classes here; a step-by-step algorithm is a method with its
loop invariants, proved against a function or stated outright. Loops over hash tables visit the keys
in an arbitrary order. Many lists and maps of one object are grouped into one record field.

## What turned out not to hold

- A re-arm after a failed start request can run after the connection was lost and came back; then a
  volume has two retry owners (`LateRearmDoublesOwner`). Over every run there is one owner throughout
  exactly if every re-arm finds the slot it does not write empty (`SingleRetryOwnerIff`). The re-armed
  deadline is kept exactly if that slot holds nothing sooner (`RearmCadenceIff`,
  `LateRearmStartsEarly`). No retry is lost either way (`RetryNeverLost`). The code resets the connection
  right after a re-arm (src/engine/src/VolumeSessionManager.cpp:838-846); here that is the loss of the
  connection, a step of its own that comes when its thread gets there. In `LateRearmStartsEarly` the request
  fails by its five-second timeout and nothing is held up after the re-arm.
- A re-armed reconciliation can also be started on a session that is still waiting for a marker. Batches
  dropped before that marker are then missing from the pass, and finishing it removes their rows
  (`WaitingIsReachable`, `BlindFinishRemovesUnread`). That run needs the thread that re-armed held up for
  five seconds before its reset, and a write that succeeds after another one failed. `FinishSparesWhatItSaw` says that this is the only
  way a finished pass has missed a batch, and `RescanIsReadIff` that it shows when the scan is started.
- The completion handler closes an attempt in one critical section and finishes its reconciliation
  pass later, with no manager lock held. The scheduler can start the volume's next reconciliation in
  between, which empties the seen-set the handler is about to use; the finish then removes every row
  of the volume (`LateFinishRemovesSeenRow`). `LateFinishSparesIff` says that this happens exactly when
  a pass of that volume began in the gap. For the same reason a failed finalization can give a volume a
  second retry owner (`LateRetryDoublesOwner`, exactly when: `LateRetrySingleOwnerIff` for one
  finalization, `WideSingleOwnerIff` over whole runs) and a successful one can clear a newer retry
  (`LateClearLosesIff`).
- A volume that owes a reconciliation need not get one: an initial scan that is started while the retry is
  in the scheduler's hand takes its place, if the volume's own scan was never completed
  (`StartDropsReconciliation`). Over every run what owns such a volume is for a reconciliation exactly if no
  initial scan is started for it meanwhile and no re-arm finds the retry of one (`OwedKindIff`).
- A replacement scan that is sent before the replaced attempt's own marker was read can take the old
  worker's terminal for its own: `EarlyReplacementTakesOldTerminal`. `BarrierProtocol` covers every run
  in which the marker was read first, and `ReplacementSafeIff` says that nothing weaker would do.
- A batch whose rule pruning fails has changed rows in memory but announces nothing; unloading a
  volume, or lowering the memory budget, renumbers all slots but announces only the volumes that turn
  cold. Whether a search can be misled is told from the state before the call: by the batch and the
  layout for a failed pruning (`HarmlessIff` and the contracts of `ApplyUsnBatchChanges` and
  `ApplyMftBatchChanges`), by the rows for an unload (`UnloadMisleadsIff`), and by the rows and when each
  was last used for a budget, of which the first branch to leave decides (`BudgetMisleadsIff`).
  `FailedPruneGoesUnnoticed`, `UnloadGoesUnnoticed` and `BudgetGoesUnnoticed` do it on a pipeline.
  `MisledSearch` drives a pipeline and the search's own plan to an accepted answer that is the query at
  no moment.
- An unknown allocated size that is not zero is kept in memory and lost in the store
  (`UnknownSizeDisagrees`); `ChangeAgreesIff` gives the condition. The record conversions always pass
  zero (src/engine/src/IndexPipeline.cpp:255-312).
- The two ways to name a file's folder differ when the root and the folder below it both have empty
  names and something lies deeper (`EmptyNamesDisagree`, `FoldersAgreeIff`).
- The folder total does not end on every parent graph: it ends exactly if the start is not a directory
  that lies below itself (`WalkEndsIff`); `KnotsEndIffFile` has both cases.
- The comment at src/indexsvc/src/MftParser.cpp:186-190 gives 0x20 and 0x28 as the hexadecimal
  offsets of the two sizes; the code reads 40 and 48, and so does the model.

## Model

| member | source | states |
|---|---|---|
| `SessionOwnership.SingleRetryOwnerIff` | src/engine/src/VolumeSessionManager.cpp:609-741 | over every run, with re-arms at any time: a durable volume has at most one of attempt in flight, queued retry, dispatch in hand and durable floor throughout, if and only if every re-arm finds the slot it does not write empty |
| `SessionOwnership.RetryNeverLost` | src/engine/src/VolumeSessionManager.cpp:294-324 | an owned volume stays owned over every run, late re-arms included, whose steps are not a durable authoritative completion, a clean completion while paused, or Stop |
| `SessionOwnership.DefensiveBranchesUnreachable` | src/engine/src/VolumeSessionManager.cpp:1540-1591 | over every run whatever the scheduler still holds belongs to a tracked session, which has no attempt in flight if every re-arm found its other slot empty |
| `SessionOwnership.RearmKeepsSingleOwnerIff` | src/engine/src/VolumeSessionManager.cpp:727-741 | a late re-arm leaves one owner exactly if the slot it does not write is empty |
| `SessionOwnership.LateRearmDoublesOwner` | src/engine/src/VolumeSessionManager.cpp:727-741 | a run after which a late re-arm, at any time, gives a volume two owners |
| `SessionCadence.WaitingKept` | src/engine/src/VolumeSessionManager.cpp:647-704 | no transfer, merge or re-arm moves a waiting retry's deadline earlier |
| `SessionCadence.RetryCadence` | src/engine/src/VolumeSessionManager.cpp:467-541 | over every run, no scan start is sent for a volume before the earliest deadline of the retries it waits for, on any path |
| `SessionCadence.NoRestartWithinDelay` | src/engine/src/VolumeSessionManager.cpp:1105-1176 | after a failed or lost attempt that was the only owner no run restarts the volume within the retry delay |
| `SessionCadence.PostponedForDelay` | src/engine/src/VolumeSessionManager.cpp:1466-1474 | while the connection is down a pass of the scheduler puts off every queued retry, of its kind, to five seconds from now or leaves it if later |
| `SessionCadence.RearmCadenceIff` | src/engine/src/VolumeSessionManager.cpp:727-741 | after a re-arm no continuation starts the volume before the re-armed deadline, if and only if the slot that is not written holds no sooner retry |
| `SessionCadence.LateRearmStartsEarly` | src/engine/src/VolumeSessionManager.cpp:727-741 | a run whose re-armed retry is due at 10 and whose volume is started at 5, with no step of the scheduler held up after the re-arm |
| `SessionReconciliation.FinishSparesWhatItSaw` | src/engine/src/VolumeSessionManager.cpp:1012-1083 | over every run in which a completion is one step, finishing a pass removes a row that was delivered as included since the pass began only if a rule excludes it now, touches one volume only, and never happens for an attempt with a failed or refused batch, a failure, a lost session or a pause; it has missed a batch only if the scan was started on a session waiting for a marker |
| `SessionReconciliation.WaitingIsReachable` | src/engine/src/VolumeSessionManager.cpp:743-847 | a run that starts a re-armed reconciliation on a session waiting for a marker |
| `SessionReconciliation.BlindFinishRemovesUnread` | src/engine/src/VolumeSessionManager.cpp:850-936 | from there a batch is dropped and the finish removes its row |
| `SessionReconciliation.RescanIsReadIff` | src/engine/src/VolumeSessionManager.cpp:743-847 | in any state in which a reconciliation can be started: a scan that delivers some rows and completes leaves exactly those, if and only if the session is not waiting for a marker (or nothing is delivered) |
| `SessionReconciliation.OnlyFinalizationRemoves` | src/engine/src/VolumeSessionManager.cpp:1065-1083 | besides batches only a finalizing completion changes rows |
| `SessionReconciliation.TerminalEndsPass` | src/engine/src/VolumeSessionManager.cpp:937-1176 | a failure, and a completion after a failed batch or while paused, ends the volume's pass and removes nothing; a completion with authority keeps it exactly if not all removals committed (of the pass's own scan) or the marks were not written (of another) |
| `SessionFinalization.SectionsMakeComplete` | src/engine/src/VolumeSessionManager.cpp:937-1103 | the handler's three sections, run without a gap, are the completion step of the joined machine |
| `SessionFinalization.WideSingleOwnerIff` | src/engine/src/VolumeSessionManager.cpp:998-1084 | over every run with gaps: at most one retry owner per volume throughout, if and only if every re-arm and every failed finalization finds its slot free |
| `SessionFinalization.WideNeverLost` | src/engine/src/VolumeSessionManager.cpp:998-1084 | over every run with gaps an intent stays in a retry slot or in the handler's hands until an event that may end it |
| `SessionFinalization.WideCadence` | src/engine/src/VolumeSessionManager.cpp:998-1084 | over every run with gaps a volume that waits for its retries is not started before the earliest of them |
| `SessionFinalization.LateRetrySingleOwnerIff` | src/engine/src/VolumeSessionManager.cpp:1046-1063 | a failed finalization leaves one owner exactly if no newer attempt runs and the slot it does not write is empty |
| `SessionFinalization.LateRetryDoublesOwner` | src/engine/src/VolumeSessionManager.cpp:1046-1063 | a run after which it leaves two |
| `SessionFinalization.LateClearLosesIff` | src/engine/src/VolumeSessionManager.cpp:1079-1083 | exactly which volumes lose their owner when a successful finalization clears the slots |
| `SessionFinalization.GapKeeps` | src/engine/src/VolumeSessionManager.cpp:998-1065 | whatever runs in the gap, rows stay, and a pass found there is the old one or a new empty one |
| `SessionFinalization.LateFinishSparesIff` | src/engine/src/VolumeSessionManager.cpp:1065-1073 | over every run, a finish after a gap spares the included rows its scan delivered exactly if no pass of the volume began in the gap (or no such row was left); otherwise it empties the volume |
| `SessionFinalization.LateFinishRemovesSeenRow` | src/engine/src/VolumeSessionManager.cpp:1065-1073 | a run in which a row that was just delivered is removed |
| `SessionKinds.OwedKindIff` | src/engine/src/VolumeSessionManager.cpp:656-741 | over every run: after a reconciliation failed, was lost, could not be started or was not made durable, and until one completes, every slot that owns the volume is for a reconciliation, if and only if no initial scan is started for it meanwhile and no re-arm finds the retry of one in its other slot |
| `SessionKinds.StartDropsReconciliation` | src/engine/src/VolumeSessionManager.cpp:431-523 | a run in which a failed reconciliation's retry is due and in the scheduler's hand, and an initial scan takes its place |
| `SessionIndexBridge.BatchIsPipelines` | src/engine/src/VolumeSessionManager.cpp:850-936 | for every batch and every way it can end, the rows and the seen-set of the machine's batch step are those of the pipeline's batch |
| `SessionIndexBridge.FinishIsPipelines` | src/engine/src/VolumeSessionManager.cpp:1065-1073 | what a finishing pass sets out to remove is the same in both |
| `SessionManager.VolumeSessionManager.MergeDurableFloor` | src/engine/src/VolumeSessionManager.cpp:647-654 | the floor is due no earlier than either retry and no later than the later one, owes a reconciliation if either did, and no other floor changes |
| `SessionManager.VolumeSessionManager.InstallNonAuthoritativeRetry` | src/engine/src/VolumeSessionManager.cpp:689-704 | exactly one slot is written and no dispatch survives; the volume is owned, and by this slot alone if it was idle and the other slot empty |
| `SessionManager.VolumeSessionManager.RearmFailedAdmission` | src/engine/src/VolumeSessionManager.cpp:727-741 | a tracked volume is owned again, by a reconciliation due in five seconds, in the queue or on the floor as the connection stands; the single-owner invariant survives exactly if the slot that is not written was empty |
| `SessionManager.VolumeSessionManager.TransferSessionRetryToFloor` | src/engine/src/VolumeSessionManager.cpp:656-687 | a floor exists exactly if the session owed anything or one was there; it is due when one of these was due and no earlier than any, and is for a reconciliation exactly if the old floor or what the session owed was; queue and dispatch are empty |
| `SessionManager.VolumeSessionManager.StartOrResumeVolume` | src/engine/src/VolumeSessionManager.cpp:431-567 | when a start is sent, in terms of the session, the slots and the marker, and that the attempt is then an initial scan and the volume's only owner; the connection is reset exactly if only the missing marker kept it from being sent |
| `SessionManager.VolumeSessionManager.TriggerReconciliation` | src/engine/src/VolumeSessionManager.cpp:743-847 | when a reconciliation start is sent, deferred or refused; the sent attempt is a reconciliation and the only owner; the connection is reset, with nothing changed, exactly if a batch failed and neither an attempt nor a floor is there |
| `SessionManager.VolumeSessionManager.OnScanComplete` | src/engine/src/VolumeSessionManager.cpp:937-1103 | a completion counts exactly if its session has an attempt and waits for no marker, and closes it; a failed batch leaves a retry of the attempt's own kind in five seconds, a failed finalization one that also covers a deferred reconciliation, anything else no owner; the single-owner invariant |
| `SessionManager.VolumeSessionManager.OnScanFailed` | src/engine/src/VolumeSessionManager.cpp:1105-1176 | a failure that counts closes the attempt and leaves one retry, due in five seconds and of the kind the attempt had; any other changes nothing |
| `SessionManager.VolumeSessionManager.OnConnectionLost` | src/engine/src/VolumeSessionManager.cpp:294-349 | exactly the owned volumes end up on floors, each with its owner's retry; nothing connection-scoped survives |
| `SessionManager.VolumeSessionManager.OnVolumeList` | src/engine/src/VolumeSessionManager.cpp:351-429 | tracked ids on the list stay as they were, new ones with a durable volume join, absent ones leave their retry on the floor, also when their volume comes back under another id; no volume gains or loses its owner |
| `SessionManager.VolumeSessionManager.TakeDueRetries` | src/engine/src/VolumeSessionManager.cpp:1476-1505 | exactly the due retries leave the queue and are in the scheduler's hand with their deadline and kind; every owned volume stays owned |
| `SessionManager.IssueDue` | src/engine/src/VolumeSessionManager.cpp:1540-1591 | a dispatched retry becomes an attempt of its kind exactly if the volume is not paused and no failed batch is in the way (a reconciliation), or no pause, no marker to wait for, no completed scan and no failed batch without a barrier (an initial scan); otherwise it is queued again, of its kind, for five seconds; other volumes keep their owners |
| `ScanBarrier.NoUnacknowledgedWorker` | src/indexsvc/src/ServiceConnection.cpp:318-345 | in every interleaving a worker runs only after its own marker was written, and none runs once a negotiated marker could not be written |
| `ScanBarrier.BarrierProtocol` | src/engine/src/VolumeSessionManager.cpp:1178-1201 | in every interleaving where replaced attempts' markers were read first, each batch applied and each terminal accepted is the current attempt's own |
| `ScanBarrier.FrameUsedIffOwn` | src/engine/src/VolumeSessionManager.cpp:850-962 | in every state such a run reaches, the next frame is used exactly if it is the current attempt's own, and what it then changes |
| `ScanBarrier.FailedMarkerEndsService` | src/indexsvc/src/ServiceConnection.cpp:318-345 | a marker that could not be written leaves no worker in any continuation; one that was written starts the oldest request's worker behind it |
| `ScanBarrier.ReplacementSafeIff` | src/engine/src/VolumeSessionManager.cpp:471-523 | in every state a prompt run reaches where a replacement may be sent: all that can follow uses the replacement's own frames only, if and only if the replaced attempt's marker has been read (or the service gave up with at most that marker under way) |
| `ScanBarrier.EarlyReplacementTakesOldTerminal` | src/engine/src/VolumeSessionManager.cpp:957-962 | a run without that condition in which an old terminal is accepted |
| `HotAgreement.ChangeAgreesIff` | src/indexstore/src/Projection.cpp:778-842 | one change leaves memory and store alike exactly if an unknown allocated size carries zero |
| `HotAgreement.ChangesKeepAgreement` | src/indexstore/src/Store.cpp:1385-1513 | any batch of partial upserts and removals keeps every non-cold volume equal on both sides |
| `HotAgreement.EvictionKeepsAgreement` | src/indexstore/src/Projection.cpp:485-545 | what leaves memory is marked, so the rest still agrees |
| `HotAgreement.ReloadAgrees` | src/indexstore/src/Projection.cpp:1165-1265 | streaming a volume in again makes it agree, whatever memory held |
| `HotAgreement.UnknownSizeDisagrees` | src/indexstore/src/Store.cpp:1462-1467 | a change after which the two sides differ |
| `BatchEffect.BatchFollows` | src/indexstore/src/Store.cpp:1385-1513 | the meaning of a batch, for every batch, file and field: a file is there if its last change leaves it there, a field is what the last change that carries it gave, the blank if the file came anew since, and what no change names is as before |
| `IndexPipeline.BatchReflects` | src/engine/src/IndexPipeline.cpp:893-983 | the batch, pruned or not, leaves on disk what it means under the rules |
| `IndexPipeline.FullBatchScans` | src/engine/src/IndexPipeline.cpp:745-845 | of a scan batch each listed file has the row of its last record if included and none otherwise, whatever the order and repetition of the records |
| `IndexPipeline.Pipeline.ApplyMftBatchChanges` | src/engine/src/IndexPipeline.cpp:745-845 | success exactly if both transactions commit; then each file on the list has the row of its last record if the rules include it and none otherwise, every other row is as before, the pass has seen exactly the included files besides, memory agrees and searches are told; nothing changes if the commit fails; if only the pruning fails both sides keep the excluded rows, no epoch moves unless memory ran out of room, and the batch and layout tell whether a search can be misled |
| `IndexPipeline.Pipeline.ApplyUsnBatchChanges` | src/engine/src/IndexPipeline.cpp:893-983 | the same for partial upserts and deletes: a file is there if its last change leaves it there, each field is what the last change that carries it gave, and the pass has seen exactly the files upserted and included besides; with the exact layout after a batch that fits |
| `IndexPipeline.Pipeline.FinishReconciliationPass` | src/engine/src/IndexPipeline.cpp:1060-1160 | store and memory lose the same committed rows: whole chunks of the stale ones, all of them unless a chunk fails; every row of another volume, and every row seen and included, stays, and after an uninterrupted finish nothing else does; the pass ends exactly if all was removed |
| `IndexPipeline.CommitChunks` | src/engine/src/IndexPipeline.cpp:1109-1129 | a prefix of whole chunks is committed, everything if no chunk fails |
| `IndexPipeline.Pipeline.FinishAfterFailure` | src/engine/src/IndexPipeline.cpp:1060-1160 | a finish that broke off followed by one that does not leaves, on both sides, what one uninterrupted finish leaves |
| `IndexPipeline.FinishLeavesSeen` | src/engine/src/IndexPipeline.cpp:1080-1089 | for any rules and any committed part: rows seen and included stay, and after the whole of it exactly those and the other volumes' |
| `ReconciliationWindow.Reconcile` | src/engine/src/IndexPipeline.cpp:1042-1160 | a pass from begin to finish with any batches of any volumes in between, failing or not: every file whose last batch in the window upserted it and which the rules include stays as that batch left it, wherever the finish breaks off; after a whole finish a file of the volume is there only if some batch of the window brought it; other volumes are as the batches left them |
| `IndexPipeline.Pipeline.ForgetVolume` | src/engine/src/IndexPipeline.cpp:1027-1040 | only an unavailable volume goes, from both sides, with its pass, and announced |
| `IndexPipeline.Pipeline.UnloadVolume` | src/engine/src/IndexPipeline.cpp:1365-1374 | exactly the volume's rows leave memory, the others are packed into the first slots in some order, and only this volume is announced |
| `IndexPipeline.UnloadMisleadsIff` | src/engine/src/IndexPipeline.cpp:1365-1374 | no such unload can mislead a search if and only if the volume has no row in memory, or searches read it there, or no order can move a row they read |
| `IndexPipeline.UnloadGoesUnnoticed` | src/engine/src/IndexPipeline.cpp:1365-1374 | a pipeline on which a row moves and no epoch a search compares shows it |
| `IndexPipeline.Pipeline.ReloadVolume` | src/indexstore/src/Projection.cpp:561-573 | a cold volume comes back agreeing with the store or stays marked, and does come back if it is known, readable and fits; announced either way |
| `IndexPipeline.Pipeline.SetProjectionMemoryBudget` | src/engine/src/IndexPipeline.cpp:1328-1345 | nothing changes if the budget suffices; otherwise the rows of a run of evictions leave, each of the least recently used row then and all below it, the others are packed, the volumes that turn cold are announced, and memory fits or is empty |
| `IndexPipeline.BudgetMisleadsIff` | src/engine/src/IndexPipeline.cpp:1328-1345 | however many such evictions and however the rest is packed, no search can be misled if and only if the branch of every row that may go first is one a search reads from, or leaves no row searches read that packing could move |
| `IndexPipeline.BudgetShrinks` | src/engine/src/IndexPipeline.cpp:1328-1345 | what the budget method does is one of the runs of evictions that condition speaks of |
| `IndexPipeline.BudgetGoesUnnoticed` | src/engine/src/IndexPipeline.cpp:1328-1345 | a pipeline on which one eviction moves a row and no epoch a search compares shows it |
| `IndexPipeline.SmallBudgetGoesUnnoticed` | src/engine/src/IndexPipeline.cpp:1328-1345 | the same from a new pipeline on |
| `IndexPipeline.Pipeline.RebuildAll` | src/engine/src/IndexPipeline.cpp:590-663 | from any content of memory, every volume that ends up resident agrees with the store; a row stays in the store exactly if its volume was not rebuilt, has no rules, or they include it; exactly the rebuilt volumes are announced; all are if they can be read, fit and can be pruned |
| `IndexPipeline.Pipeline.SetVolumeAvailable` | src/engine/src/IndexPipeline.cpp:985-997 | availability changes no row, succeeds exactly on a known volume, and is announced exactly if it changed |
| `IndexPipeline.Pipeline.ResolveVolume` | src/engine/src/IndexPipeline.cpp:665-673 | a volume becomes known with no row changed, and is announced exactly if it is new |
| `IndexPipeline.Pipeline.SetVolumeHidden` | src/engine/src/IndexPipeline.cpp:685-693 | a changed volume setting changes what searches read and is announced; an equal one is not |
| `IndexPipeline.HarmlessIff` | src/engine/src/IndexPipeline.cpp:960-973 | an unannounced batch is harmless exactly if no search reads the volume in memory or the batch leaves each of its rows what and where it was |
| `IndexPipeline.FailedPruneGoesUnnoticed` | src/engine/src/IndexPipeline.cpp:967-973 | a pipeline on which a failed pruning leaves a new row that no epoch shows |
| `Visibility.AdvanceResidency` | src/engine/src/IndexPipeline.cpp:429-446 | a structural change advances the dependency epoch and the data epoch of every volume that has one, and never moves an epoch back |
| `Visibility.EvolvesTransitive` | src/engine/src/IndexPipeline.cpp:1602-1620 | announced changes compose: equal epochs at two moments mean an unchanged view between them |
| `Visibility.RowsAnnounced` | src/engine/src/IndexPipeline.cpp:406-422 | changing one volume's rows and its data epoch is an announced change |
| `Visibility.TrimSafeIff` | src/engine/src/IndexPipeline.cpp:1365-1374 | in whatever order, exactly if a row it reads leaves or no order can move one |
| `Visibility.TrimSafeMore` | src/engine/src/IndexPipeline.cpp:1328-1345 | if more rows leave, searches are no worse off |
| `ReadPlane.SearchIndexed` | src/engine/src/IndexPipeline.cpp:1622-2034 | in every interleaving with announced changes, a completed search added exactly the rows that the store held at one moment of the search, of volumes known and not hidden then, in memory or not, that have a name and match, each once; an answer from memory is still right at the end; it is refused only for want of anything to read, a failed read or three lost races, and cancelled only on request; writers alone never keep it from completing, within four attempts in memory and three on the store, at once if neither rows nor storage change |
| `SearchRoutes.MisledSearch` | src/engine/src/IndexPipeline.cpp:1602-1620 | on any pipeline with more than 256 named rows of one searched volume: a batch whose pruning fails rewrites the first and the last row the cursor visits; a search that follows the cursor with the batch between its first two sections is accepted with an answer that is the query at no moment |
| `SearchRoutes.SearchIsMisled` | src/engine/src/IndexPipeline.cpp:1602-1620 | such a search from a new pipeline on |
| `ReadPlane.ChangeMisleads` | src/engine/src/IndexPipeline.cpp:1730-1955 | any two good states with equal epochs that differ in the first and the last row of such a plan mislead the search |
| `ReadPlane.HotPass` | src/engine/src/IndexPipeline.cpp:1730-1955 | the loop over chunks of 256 rows to show is the sections one after the other, stale as soon as one finds the capture outdated or the storage replaced |
| `ReadPlane.HotPassIsCaptured` | src/engine/src/IndexPipeline.cpp:1730-1955 | over every run of announced changes, unless found stale the sections add exactly the captured matches among the planned slots |
| `ReadPlane.ChunkIsFull` | src/engine/src/IndexPipeline.cpp:1730-1955 | a section goes on until it has 256 rows to show, however many slots that takes, or the plan ends |
| `ReadPlane.ColdPass` | src/engine/src/IndexPipeline.cpp:1957-1994 | unless a read fails, the matches of the cold volumes come from the captured snapshot, each once |
| `ReadPlane.Fallback` | src/engine/src/IndexPipeline.cpp:2036-2171 | a completed fallback added exactly the rows asked for, cold volumes included, of one snapshot taken after it began, within three attempts, and completes if only rows change |
| `ReadPlane.VisitIsAsCaptured` | src/engine/src/IndexPipeline.cpp:1602-1620 | while epochs are unchanged a slot reads as it did at the capture |
| `ReadPlane.PartsMakeAnswer` | src/engine/src/IndexPipeline.cpp:1550-1572 | hot rows of non-cold volumes and durable rows of cold ones make up the whole answer |
| `SearchRoutes.PipelineIsGood` | src/engine/src/IndexPipeline.cpp:745-845 | every valid pipeline state gives one slot per row and agreeing rows |
| `SearchRoutes.CursorCovers` | src/indexstore/src/Projection.cpp:933-968 | the cursor's slots cover every match in memory once |
| `SearchRoutes.AcceleratorCovers` | src/indexstore/src/Projection.cpp:970-1056 | the accelerator's candidates cover every match in memory once |
| `SearchRoutes.ScanDelivers` | src/indexstore/src/Store.cpp:1883-2166 | a complete scan of the snapshot delivers every match of the volume once |
| `ProjectionTable.ReplaceEntry` | src/indexstore/src/Projection.cpp:694-736 | overwriting a row keeps slots, free list and child lists in order and changes that row only |
| `ProjectionTable.InsertEntry` | src/indexstore/src/Projection.cpp:738-776 | a new row takes the slot freed last or a new one; live and free slots still partition the array |
| `ProjectionTable.DropEntry` | src/indexstore/src/Projection.cpp:844-879 | a removed row leaves its child list and frees its slot; all other rows stay |
| `ProjectionTable.RenumberedImage` | src/indexstore/src/Projection.cpp:599-624 | reordering the slots keeps every row and the invariant |
| `ProjectionEviction.LeastRecentlyUsedEntry` | src/indexstore/src/Projection.cpp:346-377 | a victim exists unless memory is empty; no row of an earlier kind or, within the kind, an older one exists |
| `ProjectionEviction.CollectSubtree` | src/indexstore/src/Projection.cpp:379-402 | on any graph the walk ends with the root and exactly what is reached below its directories, each once |
| `ProjectionEviction.SubtreeStaysOnVolume` | src/indexstore/src/Projection.cpp:397-401 | a subtree never leaves its volume |
| `EvictionOrder.VictimGoesFirst` | src/indexstore/src/Projection.cpp:346-377 | the victim found in the table is a row before which, by kind and last use, no other goes |
| `EvictionOrder.GoesFirstIff` | src/indexstore/src/Projection.cpp:346-377 | folders go before files and files before roots: a row may go first exactly if none of an earlier kind exists and none of its own kind was used earlier |
| `EvictionOrder.SubtreeIsBranch` | src/indexstore/src/Projection.cpp:379-402 | the subtree collected from the child lists is the least set of rows with the root and all that lies in its directories |
| `EvictionOrder.FirstEviction` | src/indexstore/src/Projection.cpp:528-545 | of every run of evictions the first victim and its branch have left |
| `Projection.Projection.Upsert` | src/indexstore/src/Projection.cpp:694-776 | the rows become the old ones with this row stored; it is the one used last and the others keep their order of use; representation, accelerator and other slots are kept |
| `Projection.Projection.UpsertPartial` | src/indexstore/src/Projection.cpp:778-842 | fields the change carries replace the old ones or the blanks of an unknown file; the row is the one used last |
| `Projection.Projection.Remove` | src/indexstore/src/Projection.cpp:844-879 | exactly this row goes |
| `Projection.Projection.RemoveBatch` | src/indexstore/src/Projection.cpp:893-924 | exactly these rows go; when the accelerator survives |
| `Projection.Projection.EvictSubtree` | src/indexstore/src/Projection.cpp:379-423 | exactly the subtree goes and its volume is marked, by either path |
| `Projection.Projection.EvictVolume` | src/indexstore/src/Projection.cpp:425-444 | exactly the volume's rows go; marked if there were any |
| `Projection.Projection.CompactStorage` | src/indexstore/src/Projection.cpp:446-483 | every surviving row is unchanged, all slots are live, the representation is whole again |
| `Projection.Projection.EnforceMemoryLimit` | src/indexstore/src/Projection.cpp:485-526 | ends; evicts exactly if over the watermark with rows to evict; exactly the rows of a run of evictions leave, up to eight of the least recently used row's branch and then of its whole volume, and their volumes are marked; on return the estimate is under the watermark, or no rows are left, or the last eviction freed nothing |
| `Projection.Projection.EnforceMemoryLimitTo` | src/indexstore/src/Projection.cpp:528-545 | the same down to a target, branch by branch: under it, or empty |
| `Projection.Projection.EnforceMemoryLimitOnceTo` | src/indexstore/src/Projection.cpp:547-559 | one pass runs exactly if needed and possible; no row goes earlier than the victim, and it takes all below the victim and nothing else |
| `Projection.Projection.CompactEntriesForIterationOrder` | src/indexstore/src/Projection.cpp:599-624 | no row and no time of last use changes, and the slots become dense unless there are holes |
| `Projection.Projection.EntryCursor` | src/indexstore/src/Projection.cpp:933-968 | in dense order or not, every row is visited exactly once |
| `Projection.Projection.RebuildFilenameIndex` | src/indexstore/src/Projection.cpp:668-688 | the rebuilt accelerator is exact for the live rows |
| `Projection.Projection.FilenameCandidates` | src/indexstore/src/Projection.cpp:970-1056 | candidates are ascending, distinct, within the cap, and are exactly the rows set aside or with every three-letter part of the needle but for case; so they contain every row the host's comparison matches |
| `Projection.Projection.RebuildVolumeFromStore` | src/indexstore/src/Projection.cpp:1165-1265 | resident exactly if not marked; then nothing of the stream is missing; other volumes lose rows only if marked; with room and a read that succeeds, memory is exactly the other rows and the stream |
| `Projection.Projection.SetMaximumMemoryBytes` | src/indexstore/src/Projection.cpp:130-140 | the new limit holds on return or memory is empty; exactly the rows of a run of evictions leave |
| `FilenameIndex.ExactIsUnique` | src/indexstore/src/Projection.cpp:668-688 | an exact accelerator is determined by the rows: incremental upkeep gives what a rebuild would |
| `FilenameIndex.MatchIsCandidate` | src/indexstore/src/Projection.cpp:1014-1032 | every row that contains the needle under the host's equality is a candidate |
| `FilenameIndex.CandidateIff` | src/indexstore/src/Projection.cpp:970-1056 | of an exact accelerator the candidates are exactly the live rows that are set aside or whose name has, but for case, every three-letter part of the needle |
| `FilenameIndex.Index.Add` | src/indexstore/src/Projection.cpp:632-649 | adding a row keeps the accelerator exact, or drops it if memory runs out |
| `FilenameIndex.Index.Remove` | src/indexstore/src/Projection.cpp:651-666 | removing a row keeps the accelerator exact, or drops it |
| `FilenameIndex.Index.Rebuild` | src/indexstore/src/Projection.cpp:668-688 | a rebuild in any order is exact |
| `FilenameIndex.Index.Candidates` | src/indexstore/src/Projection.cpp:970-1056 | exactly when a list is returned, and that it holds exactly the rows set aside and those with every part of the needle |
| `NamePool.Pool.Intern` | src/indexstore/src/NamePool.cpp:37-57 | equal names get equal identifiers for every hash; texts and identifiers never change |
| `NamePool.Pool.Get` | src/indexstore/src/NamePool.cpp:59-65 | an identifier reads as the name it was given for, an unknown one as empty |
| `FolderAggregate.GetFolderAggregate` | src/indexstore/src/Projection.cpp:1065-1113 | wherever the walk ends, exactly the rows that lie below the start, told from the rows' parents, are counted, each once; sums are the exact sums or the largest number; complete exactly if no sum overflowed and every allocated size is known |
| `FolderAggregate.BelowIff` | src/indexstore/src/Projection.cpp:1084-1107 | what the child lists lead to from a start is what lies below it by the rows' own parents, through directories |
| `FolderAggregate.WalkEndsIff` | src/indexstore/src/Projection.cpp:1065-1113 | on every table the walk from a known start ends if and only if the start is not a row with the directory bit that lies below itself |
| `FolderAggregate.KnotsEndIffFile` | src/indexstore/src/Projection.cpp:1065-1113 | two entries below each other: the walk ends exactly if the start is a file |
| `FolderAggregate.LoopNeverEnds` | src/indexstore/src/Projection.cpp:1084-1107 | through a directory cycle the stack is never empty |
| `FolderPath.BothWaysAgree` | src/engine/src/IndexPipeline.cpp:59-151 | on any parent graph both ways fail or both name the same folder, if no name is empty |
| `FolderPath.FoldersAgreeIff` | src/engine/src/IndexPipeline.cpp:59-151 | exactly when the two folder strings are equal |
| `FolderPath.EmptyNamesDisagree` | src/engine/src/IndexPipeline.cpp:59-151 | a file for which the two ways give different folders |
| `SearchRoutes.FoldersAgree` | src/engine/src/IndexPipeline.cpp:59-151 | on every valid pipeline and volume wholly in memory without empty names, both ways fail or both give the same folder |
| `FolderPath.ReconstructPath` | src/indexstore/src/Projection.cpp:1119-1163 | the root is reached exactly if the chain of parents ends there within the bound, and the path written is that chain's |
| `FolderPath.StripVolumeRootName` | src/engine/src/IndexPipeline.cpp:59-84 | the second walk always finds the root, and its name is taken off, compared as the host compares names |
| `FolderPath.MaterializeCandidateFolder` | src/engine/src/IndexPipeline.cpp:86-110 | the folder by way of memory |
| `FolderPath.MaterializeCandidateFolderDurable` | src/engine/src/IndexPipeline.cpp:112-151 | the folder by way of the store, cycles included |
| `FolderPath.ChainIff` | src/engine/src/IndexPipeline.cpp:112-151 | on any parent graph the chain is found exactly if it is a way up to a row that is its own parent, within the bound |
| `FolderPath.FolderSpellsPath` | src/engine/src/IndexPipeline.cpp:112-151 | the folder, taken apart at the separators, is the volume's prefix and the names on the way up, outermost first and without the root's; there is one exactly if the way up is short enough |
| `FolderPath.NoWayUpNoFolder` | src/engine/src/IndexPipeline.cpp:112-151 | where there is a folder there is a way up |
| `DurableStore.Store.ApplyBatch` | src/indexstore/src/Store.cpp:1385-1513 | all changes or none; a reader then sees the merged rows; the candidate index stays what the rows make it |
| `DurableStore.Store.GetOrCreateVolume` | src/indexstore/src/Store.cpp:1102-1135 | an unknown volume becomes known and available, a known one stays as it is |
| `DurableStore.Store.SetVolumeAvailable` | src/indexstore/src/Store.cpp:1217-1246 | a known volume gets the availability; a change is reported exactly if it differs |
| `DurableStore.Store.ForgetVolume` | src/indexstore/src/Store.cpp:1304-1358 | only an unavailable volume, with all its rows and index entries |
| `DurableStore.NameRoundTrip` | src/indexstore/src/Store.cpp:1434-1476 | reading back a masked upsert gives the merged row, for insert and update alike |
| `DurableStore.UpsertInStep` | src/indexstore/src/Store.cpp:529-582 | upserting an index entry keeps index and rows in step |
| `DurableStore.RemoveInStep` | src/indexstore/src/Store.cpp:584-599 | removing one does too |
| `DurableStore.ForgetInStep` | src/indexstore/src/Store.cpp:604-631 | and so does removing a volume |
| `CandidateScan.ForEachEntryWithAsciiNameUntil` | src/indexstore/src/Store.cpp:1883-2166 | each row at most once, every canonical match unless stopped or failed, by either route or an abandoned run followed by the other; nothing that is not set aside and does not contain the needle but for case |
| `CandidateScan.CandidatesCover` | src/indexstore/src/Store.cpp:1905-1920 | every canonical match is in the candidate set |
| `CandidateScan.FilterCovers` | src/indexstore/src/Store.cpp:2139-2166 | every canonical match passes the LIKE or the GLOB filter |
| `CandidateScan.LikeIsContains` | src/indexstore/src/Store.cpp:1843-1853 | the escaped pattern matches exactly the texts that somewhere spell the needle, byte by byte equal or the two cases of one letter |
| `CandidateScan.LikePatternForLiteralNeedle` | src/indexstore/src/Store.cpp:1843-1853 | the loop builds that pattern |
| `TextCodec.RoundTrip` | src/indexstore/src/Store.cpp:140-249 | decoding what was encoded gives back every sequence of 16-bit units |
| `TextCodec.WellFormedIffPaired` | src/indexstore/src/Store.cpp:140-184 | the bytes are UTF-8 by section 4 of RFC 3629 exactly if the units are UTF-16 without lone surrogates (section 2.1 of RFC 2781) |
| `TextCodec.EncodesByStandard` | src/indexstore/src/Store.cpp:140-184 | each code point is written in the shortest form and stands for itself by the table in section 3 of RFC 3629 |
| `TextCodec.PairsByStandard` | src/indexstore/src/Store.cpp:140-184 | a pair of surrogates is read as the number section 2.1 of RFC 2781 gives it |
| `TextCodec.DecodesByRule` | src/indexstore/src/Store.cpp:186-249 | of bytes that need not be well formed: what is skipped, what ends the text, and which units the rest stands for |
| `TextCodec.Utf16ToUtf8` | src/indexstore/src/Store.cpp:140-184 | fast path and loop both give the encoding |
| `TextCodec.Utf8ToUtf16` | src/indexstore/src/Store.cpp:186-249 | fast path and loop both give the decoding, malformed input included |
| `TextCodec.FoldCommutes` | src/indexstore/src/Store.cpp:514-524 | folding the bytes is folding the units |
| `TextCodec.FoldsLetters` | src/indexstore/src/Store.cpp:514-524 | both cases of each of the 26 letters fold to the small one, everything else to itself |
| `TextCodec.FoldsAlike` | src/indexstore/src/Projection.cpp:28-35 | two units fold alike exactly if they are equal or the two cases of one letter |
| `TextCodec.ByteSearchIsUnitSearch` | src/indexstore/src/Store.cpp:514-524 | an ASCII needle occurs in the bytes exactly if it occurs in the units |
| `FoldClassification.Classifier.UnitMayFoldToAscii` | src/indexstore/src/FoldClassification.h:36-61 | a unit the host equates with ASCII is always reported, a surrogate is too and an ASCII unit never; a failed probe errs that way, and a verdict never changes |
| `FoldClassification.NameRequiresCandidateSideSet` | src/indexstore/src/FoldClassification.h:63-69 | a name that is not set aside has no unit the host equates with ASCII |
| `FoldClassification.VerdictsCover` | src/indexstore/src/FoldClassification.h:36-61 | however the cache grows and whenever the host fails, all verdicts ever given are those of one predicate that leaves out no unit the host equates with ASCII |
| `FoldClassification.SideSetAsSettled` | src/indexstore/src/FoldClassification.h:63-69 | a name is set aside exactly if that predicate holds of one of its units |
| `MftFixup.ApplyFixupAndValidate` | src/indexsvc/src/MftParser.cpp:47-103 | on any bytes and sector size no access leaves the record; each verdict, byte by byte, and the restored record |
| `MftFixup.SectorsHoldTails` | src/indexsvc/src/MftParser.cpp:62-72 | the array-size check rules out sectors of one or two bytes |
| `MftFixup.Verdicts` | src/indexsvc/src/MftParser.cpp:47-103 | which bytes make a record not one, not in use, accepted or malformed, and that only a protected one is changed |
| `MftFixup.FixupUndoesProtection` | src/indexsvc/src/MftParser.cpp:47-103 | a protected record is accepted and comes back as it was outside its update array |
| `MftFixup.FixupIdempotent` | src/indexsvc/src/MftParser.cpp:47-103 | an accepted record none of whose sectors ends inside its update array or a header field is accepted again unchanged |
| `MftAttributes.ParseMftAttributes` | src/indexsvc/src/MftParser.cpp:105-219 | the walk ends, stays inside the record, and yields the last standard information and the best name of the attributes, or nothing; what each value is: `MftRoundTrip.ParsesBack` |
| `MftAttributes.BestName` | src/indexsvc/src/MftParser.cpp:165-198 | the first usable name outside the DOS namespace, else the first usable name |
| `MftAttributes.WalkReadsBack` | src/indexsvc/src/MftParser.cpp:130-203 | a record laid out from a list of attributes walks back to that list |
| `MftRoundTrip.ParsesBack` | src/indexsvc/src/MftParser.cpp:105-219 | a record laid out from any number of times and names in any order parses back to the times written last and the preferred name, value by value, with the directory bit of the header |
| `MftRoundTrip.RecordGivesBack` | src/indexsvc/src/MftParser.cpp:154-198 | times, attributes, parent, sizes and name come back as they were written |
| `MftRoundTrip.RejectedIff` | src/indexsvc/src/MftParser.cpp:130-203 | a record is rejected exactly if following the lengths from the first attribute runs into a malformed one |
| `IdleManager.MaintenanceDropsIffUndisturbed` | src/engine/src/IdleManager.cpp:79-96 | after maintenance the drop goes ahead exactly if no activity came since the idle decision, even if the counter wrapped |
| `IdleManager.WakingStartsMaintenanceIff` | src/engine/src/IdleManager.cpp:69-96 | in every reached state where the monitor waits and the engine runs, waking starts maintenance with the flag set exactly if the engine is idle and nothing is dropped; otherwise it changes nothing |
| `IdleManager.UndisturbedIdleDrops` | src/engine/src/IdleManager.cpp:69-116 | from every such state an idle pass nobody disturbs ends with the connection dropped and nothing owed |
| `IdleManager.DropIsNeverForgotten` | src/engine/src/IdleManager.cpp:46-116 | whenever the last action is a drop, the flag is set or a reconnect is pending or outstanding |
| `IdleManager.QuietMeansReconnected` | src/engine/src/IdleManager.cpp:46-116 | once all threads are done, activity after the drop has reconnected |
| `IdleManager.IdleManager.NotifyActivity` | src/engine/src/IdleManager.cpp:46-67 | one activity step of the interleaving: when the caller is to reconnect, when the monitor is, and the counter's wrap |
| `IdleManager.IdleManager.MonitorPass` | src/engine/src/IdleManager.cpp:69-116 | one pass of the loop, with any activity between its sections, is a run of the interleaving that wakes; undisturbed and idle it ends with the connection dropped and the flag set, and otherwise undisturbed it changes nothing |

## Left out

- Named pipes, frame transport, threads, handles and timers: only FIFO channels, critical sections and a clock parameter remain.
- OnScanComplete: the method joins the handler's critical sections; what runs between them is covered by the `SessionFinalization` lemmas, not by the method.
- TriggerReconciliation: claiming the attempt and beginning the pass are one step.
- WaitingIsReachable: the reset that follows a re-arm is the loss of the connection, a step that may come late.
- StartOrResumeVolume: whether the volume is paused and whether its scan is complete are read before its critical section, so both are arbitrary parameters.
- OnVolumeList: assumes that the sessions that remain after the list are on distinct durable volumes, as the step relation does; two sessions on one durable volume are not covered.
- BarrierProtocol: one session of one volume on one connection; a session re-added on the same connection is not covered.
- The ownership theorems allow a clean completion while paused to end the intent, because the code installs no retry then (src/engine/src/VolumeSessionManager.cpp:985-996).
- `deferredReconciliation` does not survive a disconnect in the code, and nothing is claimed about it.
- Gap-free coverage across resumed initial scans: a successful batch moves the cursor after a failed one, so none is claimed.
- SearchIndexed: ranking, top-N admission, query parsing and rule filtering are one matching predicate; scoped searches, which do not compare the dependency epoch, are not covered.
- SearchIndexed: a folder that cannot be reconstructed counts as a failed read.
- EntryCursor: lists the rows at one moment; a cursor that meets a changed table is covered by `HotPassIsCaptured` through the captured epochs and the disturbance of its storage.
- RebuildAll: what searches under way can tell is not stated; the code announces only the volumes it reports.
- Upsert: the two derived name flags of a row and allocation failures other than the accelerator's are left out.
- EnforceMemoryLimit: the memory estimate is an arbitrary number after every change of the storage, since it depends on the allocator.
- Intern: offsets and lengths are unbounded; the code keeps them in 32 bits and so is exact while the arena is shorter than 2^32 units.
- UnitMayFoldToAscii: one call is one step; two threads that probe the same unit at once, with the host failing for one of them, are not covered.
- FolderSpellsPath: a name or prefix that contains the separator itself is not covered; file names cannot.
- ApplyBatch: SQLite is an atomic set of tables with commit or rollback; identifiers are not split into halves.
- ForEachEntryWithAsciiNameUntil: full-text MATCH is substring containment, LIKE compares whole names (a name with an embedded NUL is not covered), and the readiness of the candidate index is a parameter.
- The host's case-insensitive comparison is any relation that ignores exactly ASCII case on ASCII.
- `StopAndJoin` and the worker threads of the service appear only as the order join, marker, start in the barrier protocol.
- Directory watching, degraded enumeration, snapshot export, client authentication, installer, settings, schema migration, checkpoints and diagnostics would only add easy members.
