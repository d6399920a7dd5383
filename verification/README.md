# A verified model of datacrystal's engine

datacrystal is an embedded object-graph database. This project models the parts of its engine that keep state
under failure, and proves what they promise over every run:

- **Commits** (`Wire`, `Replication`, `Commit`, `CommitRuns`, `CommitVerdict`, `ValueRuns`, `CommitRaces`,
  `TypeRuns`, `ShapeRuns`, `ConsumerRuns`, `Cancellation`, `Store`). The three-phase commit machine: P1 captures, P2
  applies or fails, P3 finalizes or the rollback re-buffers, while the program goes on storing, writing, deleting
  and loading. `Commit` says what each operation does to the store's state, `Store` does it field by field and is
  proved equal to it, `CommitRuns` interleaves everything. Deltas reach a consumer that must agree. `CommitVerdict`
  says when a commit goes ahead and what it takes, `ValueRuns` that what is written is what gets stored.
  `CommitRaces` says exactly which races leave something behind, and what that does; `ConsumerRuns` follows a
  consumer attached at any moment, and `Cancellation` the awaited commits whose caller is cancelled.
- **Followers and the delta log** (`Frames`, `Follower`, `FollowerRuns`, `DeltaLog`, `DeltaLogRuns`, `LoggedRuns`).
  A replica bootstraps a prefix of the stream and catches up with the rest; a log records the stream across crashes.
- **Indexes** (`Keys`, `IndexSpec`, `IndexCommits`, `IndexMemory`, `Indexes`, `IndexBuild`, `IndexManager`,
  `IndexCache`, `ReverseIndex`). `Exact` is the simple specification, every structure recomputed from the committed
  rows; incremental maintenance, bulk builds, the cache and the deferred memory are all measured against it.
- **Queries** (`Conditions`, `Planner`, `ResultOrder`, `Readable`). Conditions split into candidates and a residual,
  ordered and windowed reads, and the readable set as a bitmap.
- **Authority** (`Permissions`, `Authority`, `WriteGate`). The write gate over runs of commits by registered
  principals: what it can never let happen, and what it always lets through.
- **Object graphs** (`Values`, `References`, `Discovery`, `GraphLoad`, `LoadMeaning`, `RoundTrip`). Registering and
  loading cyclic graphs with a work queue, and the round trip of a value through its stored form.
- **The columnar mirror** (`ArrowFold`, `ArrowMirror`, `ArrowBackend`, `MirrorRuns`, `MirrorSessions`, `Tags`,
  `TagMeaning`). Segments, compaction, manifest and crashes, the mirror of a live coordinator, and the lattice of
  column tags with the values each takes.

## What turned out false, and exactly when

Each is stated exactly by the first member named with it and shown on a concrete input by the second; the code is
modelled as it is.

- Buffered updates and deletions do not always name durable records. A write to a clean second instance of a record
  whose deletion is in flight, or another delete of that record, leaves such a name when the batch lands
  (`CommitRaces.RaceLandsIff`; `CommitRaces.TwinWriteWedges`, `CommitRaces.SecondDeleteWedges`); a delete of an entity
  whose insert is in flight leaves one when the batch fails (`CommitRaces.RaceFailsIff`,
  `CommitRaces.FailedInsertWedges`). An undurable update, or with a consumer attached an undurable deletion, then
  rejects every commit until the buffers are discarded, the store is reopened or, for the deletion, the consumer is
  detached (`CommitRaces.WedgedForever`, `CommitRaces.DetachFreesDeletion`).
- An attach is accepted over a commit in flight whose capture, finding nobody attached, built no delta. That consumer
  misses the commit and is detached for the gap by the next one (`ConsumerRuns.AttachedFaithfulIff`,
  `ConsumerRuns.LateAttachMisses`).
- Cancelling an awaited commit runs its rollback, but a batch the worker has taken up may still be applied, or is
  already. Its TID is then handed out again, and its delta is never delivered (`Cancellation.CancelSafeIff`,
  `Cancellation.OrphanReusesTid`, `Cancellation.LateCancelReusesTid`).
- A class without a maintained field emits no index entries, so its built extent misses new records
  (`IndexCommits.IndexlessExtentIff`, `IndexCommits.IndexlessMissesNew`) and so does its cached blob
  (`IndexManagers.IndexManager.Apply`), and a commit of such classes keeps a cached reverse blob that it has made stale
  (`ReverseIndexes.KeptBlobIff`, `ReverseIndexes.StaleBlobIsReachable`).
- The unique check refuses a commit that swaps keys between two surviving records, although its result would share no
  key (`IndexCommits.UniqueCheckIff`, `IndexCommits.KeySwapRefused`).
- A pure-Unique field asked for None answers empty while rows with None match (`Planner.PureUniqueIff`,
  `Planner.PureUniqueMissesNone`).
- With a read floor below the ladder the readable bitmap and the row predicate disagree (`Readable.AdmitsIff`,
  `Readable.FloorBelowLadderIsReal`).
- `compact()` promises to drop tombstones for good; a type with a single segment keeps those it has
  (`ArrowMirrors.ArrowMirror.CompactAll`, `ArrowMirrors.CompactKeepsTombstone`).
- The follower's catch-up applies deltas that the bootstrap refuses: it checks no prior and misses no key it does not
  read, and an op of an unknown kind is a delete to it (`Follower.PathsAgreeIff`, `Follower.UnknownKindParts`).

Two hypotheses that other results rest on cannot fail, and are proved to hold: a loaded handle names its own target
(`Values.HandlesStayTrue`, for `Values.HarvestsAgree`), and a record keeps its type name (`TypeRuns.TypeNamesStay`, for
`MirrorOfBackend.MirrorFollowsBackend`).

## Model

| member | source | states |
|---|---|---|
| Wire.MemoryBackend.Apply | src/datacrystal/_storage/memory.py:123-157 | one batch lands whole: the records last-wins, then the deletes, the new type rows and the meta, exactly as `ApplyBatch` says |
| Wire.PutAllLookup | src/datacrystal/_storage/memory.py:123-157 | after a batch every listed OID holds the batch's record and every other OID what it held |
| Wire.ReferenceApplier.Apply | src/datacrystal/contract/applier.py:114-146 | the fold step with its refusals: format, gap and skip leave no trace, a bad op stops with the ops before it folded in |
| Wire.ReferenceApplier.ApplyOp | src/datacrystal/contract/applier.py:148-173 | one op is refused exactly when its class is unknown, its prior differs from what is held, its payload is missing, or it deletes nothing |
| Wire.FoldOpsStops | src/datacrystal/contract/applier.py:114-173 | ops after a refused one never count |
| Replication.DistinctOpsAccepted | src/datacrystal/contract/applier.py:148-173 | ops over distinct objects are all judged against the state before the delta, whatever their order |
| Replication.CommitDeltaAccepted | src/datacrystal/_pipeline.py:34-70 | the delta built for a commit that fits the backend is accepted by a mirroring applier, which then mirrors the backend after that commit |
| Replication.BuildDeltaCarries | src/datacrystal/_pipeline.py:34-70 | the delta carries the batch: its records and deletes can be read back from its ops |
| MirrorRuns.DeltaTells | src/datacrystal/_pipeline.py:34-70 | in every run the delta in flight says, operation by operation, which record is stored over which held payload and which held record is deleted, under its mark, version, TID, types and root |
| CommitRuns.NoLostWrite | src/datacrystal/_store.py:1020-1065 | in every run, whatever is stored, written, deleted by instance or by key, loaded, collected or discarded around a commit in flight, each live entity that is not deleted is buffered or holds the captured or the durable value |
| CommitRuns.RollbackRebuffers | src/datacrystal/_store.py:1369-1385 | after a failed P2 everything captured is buffered again, never-durable entities among the inserts only, the TID is reused and no value is touched |
| CommitVerdict.CommitsIff | src/datacrystal/_store.py:1020-1065 | P1 goes ahead exactly when no check objects, something is buffered, nothing buffered is deleted, every waiting value encodes and, with a consumer attached, every prior it must be told is durable; otherwise only class ids may have been handed out |
| CommitVerdict.CaptureIsExact | src/datacrystal/_store.py:1221-1263 | the batch has one record per waiting entity, inserts before updates and each in buffer order, the buffered deletions, and the counters and root as they stand; the buffers are empty and just the captured turn clean |
| CommitVerdict.RowsAreUsed | src/datacrystal/_store.py:2602-2619 | a batch carries no types row of a class its own records do not use |
| CommitVerdict.RollbackOrder | src/datacrystal/_store.py:1369-1385 | a failed commit puts what it captured behind what was buffered meanwhile, in the captured order |
| ValueRuns.StoreLands | src/datacrystal/_store.py:2335-2352 | a new entity takes the next OID, holds its value and waits behind the inserts before it; nothing else moves |
| ValueRuns.WriteLands | src/datacrystal/_state.py:18-40 | a write to an entity that is not deleted gives it the value, buffers it when it was clean, and touches no other entity or buffer |
| ValueRuns.DeleteLands | src/datacrystal/_store.py:839-872 | a deletion takes the entity out of the buffers and, unless it was never committed, into the buffered deletions; the root holder is refused and nothing else moves |
| ValueRuns.KeyedDeleteLands | src/datacrystal/_store.py:822-837 | deleting by key does nothing when the deletion is buffered already; otherwise it deletes the record found, in memory or not, and no other |
| ValueRuns.HoldsLastGiven | src/datacrystal/_state.py:18-40 | in every run each entity in memory holds the value of the last step that gave it one: store, write or load |
| ValueRuns.CaptureTakes | src/datacrystal/_store.py:1221-1263 | a capture takes every buffered entity that is not deleted, with the bytes it holds |
| ValueRuns.CommitStoresLastGiven | src/datacrystal/_store.py:1387-1439 | a commit that lands leaves, of every entity it captured, exactly the bytes last given to it before the capture, whatever races it |
| ValueRuns.CommitDeletes | src/datacrystal/_store.py:1387-1439 | a commit that lands leaves no record of anything whose deletion it captured, and every instance of it says so |
| CommitRuns.TidsAreGapless | src/datacrystal/_store.py:1041-1050 | in every run of the commit machine, with rejected P1s and failed P2s, the applied TIDs are 1, 2, ... and the next one follows the last whenever no commit is in flight; runs with cancelled waits are the subject of TidsGaplessIff |
| CommitRuns.OneTypesRowPerRecord | src/datacrystal/_store.py:2602-2619 | every durable record's class id has exactly one durable type row, also when the first commit carrying it failed |
| CommitRuns.FaithfulDeltaStream | src/datacrystal/_store.py:1436-1462 | in every run a consumer at the store's watermark mirrors the backend, and one that is on time accepts the delta delivered to it; without a late attach every attached consumer is on time, and it stays attached until it is detached or a restart loses a delivery |
| CommitRuns.StepKeeps | src/datacrystal/_async.py:171-190 | every step of the machine, racing or not, attaching and detaching included, keeps the invariant the theorems rest on; a cancelled wait is an event of the machine around it (HappenTracks) |
| CommitRuns.RunKeeps | src/datacrystal/_async.py:171-190 | so does every run |
| CommitRaces.QuietRunsNameDurable | src/datacrystal/_store.py:1177-1219 | a run without one of the three racing steps only ever buffers updates and deletions of durable records, so P1 finds every prior and tombstone |
| CommitRaces.RaceLandsIff | src/datacrystal/_store.py:822-872 | before and after the batch is applied: when it lands, a write or a delete leaves an undurable name exactly when it hits a record whose deletion is in flight (a write only on a clean instance) |
| CommitRaces.RaceFailsIff | src/datacrystal/_store.py:1369-1385 | when it fails instead, exactly a delete of an entity whose insert is in flight does |
| CommitRaces.WedgedRejects | src/datacrystal/_store.py:1020-1041 | P1 is then rejected with every buffer kept: discovery refuses the deleted instance of an undurable update, and an undurable deletion has no prior to show a consumer |
| CommitRaces.WedgedForever | src/datacrystal/_store.py:487-500 | from then on no commit gets through until the buffers are discarded, the store is reopened or, where only a deletion is undurable, the consumer is detached; detaching does not help an undurable update |
| CommitRaces.FreedName | src/datacrystal/_store.py:1687-1697 | each of these ways out is one: after it the name rejects nothing any more, and the backend is untouched |
| CommitRaces.UnwatchedDeletionLands | src/datacrystal/_store.py:1190-1193 | without a consumer the commit with an undurable deletion lands and leaves no undurable name |
| CommitRaces.DetachFreesDeletion | src/datacrystal/_store.py:1687-1697 | so once the consumer is detached the next commit carries the undurable deletion and lands, and a consumer rebuilt from the store as it then is can be attached |
| CommitRaces.TwinWriteWedges | src/datacrystal/_store.py:1387-1405 | a concrete run: a record deleted unloaded, loaded again and written while its deletion is in flight |
| CommitRaces.SecondDeleteWedges | src/datacrystal/_store.py:822-837 | a concrete run: the same record deleted by key twice, the second time while the first deletion is in flight |
| CommitRaces.FailedInsertWedges | src/datacrystal/_store.py:1369-1385 | a concrete run: a new entity deleted while its insert is in flight, which then fails |
| CommitRaces.DeletesAreFinal | src/datacrystal/_store.py:1392-1401 | in no continuation of any run does an OID that the backend has counted past and no longer holds name a record again |
| ConsumerRuns.AttachedFaithfulIff | src/datacrystal/_store.py:1659-1685 | from any reachable state and over any continuation an attached consumer stays up to date, and so mirrors the store, exactly while no commit without a delta lands under it; only the commit it was attached over can be one |
| ConsumerRuns.LateAttachIff | src/datacrystal/_store.py:1046-1057 | attached over a commit in flight, a consumer has heard that commit once it landed exactly when the capture had built a delta; otherwise it is one commit behind and still attached |
| ConsumerRuns.BehindIsDetached | src/datacrystal/_store.py:1436-1462 | a consumer that is behind is detached by the first commit captured and landed under it |
| ConsumerRuns.LateAttachMisses | src/datacrystal/_store.py:1659-1685 | a concrete run: nobody attached at the capture, a consumer at the watermark attached before it lands, one commit missed |
| ConsumerRuns.LateAttachDetaches | src/datacrystal/_store.py:1436-1462 | the same run continued: the next commit detaches it |
| Cancellation.HappenTracks | src/datacrystal/_async.py:171-190 | every event (a step of the commit machine, a wait cancelled before or after the worker took its batch up or applied it, an orphaned batch landing or failing) keeps what its phase promises |
| Cancellation.OrphansEnd | src/datacrystal/_async.py:171-190 | an orphaned batch may land or fail at any later moment and is gone then or on reopening; landing, it moves the backend and nothing else, and until then no other batch lands or fails |
| Cancellation.TidsGaplessIff | src/datacrystal/_async.py:171-190 | in every run with cancelled waits the applied TIDs and the next one are 1, 2, ... exactly while the run is sound, and then the whole invariant holds; once a batch became durable behind the store's back the next TID is the one applied last, until the store starts over, and applying it first repeats a TID for good |
| Cancellation.CancelSafeIff | src/datacrystal/_async.py:171-190 | over every continuation that does not start over: the TIDs stay gapless exactly when no orphan landed and no applied batch was cancelled |
| Cancellation.CancelledWritesAreKept | src/datacrystal/_store.py:1369-1385 | no lost write in a sound run, cancelled waits included |
| Cancellation.UncancelledRuns | src/datacrystal/_async.py:171-190 | runs without a cancellation are the runs of the commit machine, and sound |
| Cancellation.OrphanUnheard | src/datacrystal/_store.py:1436-1439 | the delta of an orphan is never delivered: its landing leaves the consumer where it was, which from then on does not mirror the backend |
| Cancellation.AheadIsSilent | src/datacrystal/_store.py:1387-1439 | nothing is finalized while the backend is ahead, and an attached consumer does not mirror it |
| Cancellation.RetryDetaches | src/datacrystal/_store.py:1177-1219 | the retry of an update claims as prior what the orphan stored, so a consumer holding anything else is detached |
| Cancellation.OrphanReusesTid | src/datacrystal/_async.py:171-190 | a concrete run: cancelled before the batch is applied, landed late, retried; the applied TIDs are 1, 1 |
| Cancellation.LateCancelReusesTid | src/datacrystal/_async.py:171-190 | a concrete run: cancelled after the batch is applied, retried; the applied TIDs are 1, 1 |
| TypeRuns.TypeNamesStay | src/datacrystal/_entity.py:431 | in every run a record is stored only under the type name it was first stored under |
| ShapeRuns.ClassIdMeans | src/datacrystal/_store.py:2602-2619 | a shape that is its type's latest keeps its class id, any other takes the next one and becomes the latest; nothing else moves |
| ShapeRuns.OneClassPerType | src/datacrystal/_store.py:2602-2619 | while a program declares each type with one field list, every type has one class id and one durable types row, in every run |
| ShapeRuns.ReopenedTypes | src/datacrystal/_store.py:383-437 | reopening knows the fields of every durable class id, and for each type the class id written last |
| ShapeRuns.ReopenedStore | src/datacrystal/_store.py:383-437 | reopening takes up the persisted counters and root with nothing in memory and nothing buffered |
| StoreObject.Store.StoreEntity | src/datacrystal/_store.py:2335-2352 | a new entity takes the next OID and joins the inserts; a stored or barred one changes nothing |
| StoreObject.Store.WriteField | src/datacrystal/_store.py:2296-2307 | the write as the specification has it, which lands by WriteLands |
| StoreObject.Store.LoadState | src/datacrystal/_store.py:383-437 | ids, watermark, root and class lineage as the backend persisted them, nothing buffered |
| StoreObject.Store.Discard | src/datacrystal/_store.py:487-500 | drops every buffer and returns to the committed state, the consumer still attached |
| StoreObject.Store.Attach | src/datacrystal/_store.py:1659-1685 | a consumer joins exactly when its watermark is the store's and it is not attached, and is refused for being behind, ahead or attached |
| StoreObject.Store.Detach | src/datacrystal/_store.py:1687-1700 | an attached consumer leaves; detaching another one is refused |
| StoreObject.Store.DeleteEntity | src/datacrystal/_store.py:839-853 | by instance: deleting twice is deleting once, the root holder is refused |
| StoreObject.Store.DeleteKeyed | src/datacrystal/_store.py:822-837 | by key: a record found is deleted unless its deletion is buffered, also when its instance is deleted already |
| StoreObject.Store.DeleteRecord | src/datacrystal/_store.py:855-872 | a buffered insert is cancelled without a trace, anything else joins the deletions and leaves the dirty buffer |
| StoreObject.Store.DiscoverDeleted | src/datacrystal/_store.py:3132-3148 | finds exactly whether something buffered is deleted, which refuses the commit |
| StoreObject.Store.CidForShape | src/datacrystal/_store.py:2602-2619 | the class id of a shape, a fresh one for a changed shape, and its row queued until a commit makes it durable |
| StoreObject.Store.EncodePending | src/datacrystal/_store.py:1129-1150 | records in capture order with the type rows they need; stops at the first value that cannot be encoded |
| StoreObject.Store.ReadDeltaPriors | src/datacrystal/_store.py:1177-1219 | priors and tombstones are the durable payloads, and the commit is refused when one is missing |
| StoreObject.Store.CollectPending | src/datacrystal/_store.py:1031-1038 | inserts then dirty ones, each once, without the deleted |
| StoreObject.Store.FlipCaptured | src/datacrystal/_store.py:1253-1263 | every captured entity turns clean, its prior state remembered in order |
| StoreObject.Store.P1Capture | src/datacrystal/_store.py:1020-1065 | nothing to do, rejected with the buffers intact, or captured with the next TID: the state equals the specification `P1` in each case |
| StoreObject.Store.P2Rollback | src/datacrystal/_store.py:1369-1385 | the state after a failed P2 equals the specification `Rollback` |
| StoreObject.Store.P3Finalize | src/datacrystal/_store.py:1387-1434 | the state after P3 equals the specification `P3`, deleted instances write-barred |
| StoreObject.Store.CommitNow | src/datacrystal/_store.py:964-983 | a synchronous commit is P1, then P2 and P3 or the rollback |
| Follower.DeltaToBatch | src/datacrystal/_follower.py:89-124 | the batch and the raised marks; every op that is not an upsert counts as a delete |
| Follower.ApplyCatchup | src/datacrystal/_follower.py:145-176 | the loop over fetched deltas equals the fold: skip, gap or apply, stopping at the first refusal |
| Follower.BootstrapBackend | src/datacrystal/_follower.py:127-142 | each delta passes the applier before the backend, so a refusal never half-applies |
| Follower.BootstrapIsCatchUp | src/datacrystal/_follower.py:127-176 | a bootstrap that refuses nothing leaves what a catch-up would leave |
| Follower.FoldsWhenAcceptable | src/datacrystal/contract/applier.py:148-173 | a delta folds exactly when each op is acceptable on its own (known kind, known class, prior equal to what the last earlier op on the object left), and then each object holds what the last op on it left |
| Follower.ApplierMeans | src/datacrystal/contract/applier.py:114-146 | the applier's verdict told from the delta: an older one is skipped, one further ahead is a gap, and the next one is taken exactly when it lacks no key and every op is acceptable |
| Follower.CatchMeans | src/datacrystal/_follower.py:127-176 | the catch-up's verdict told from the mark and the TID alone; only the next delta moves the backend |
| Follower.PathsAgreeIff | src/datacrystal/_follower.py:127-176 | on the next well-headed delta bootstrap and catch-up agree on backend and verdict exactly when the delta lacks no required key and every op is acceptable |
| Follower.UnknownKindParts | src/datacrystal/_follower.py:89-124 | one op of an unknown kind: the bootstrap refuses and leaves the backend, the catch-up deletes the record |
| Follower.BootstrapThenCatchUp | src/datacrystal/_follower.py:127-176 | any prefix bootstrapped, then any overlapping suffix caught up, is the whole stream bootstrapped |
| Follower.OverlapIsSkipped | src/datacrystal/_follower.py:145-176 | deltas already applied change nothing |
| Follower.GapStopsAtPrefix | src/datacrystal/_follower.py:145-176 | a gap stops with exactly the deltas before it applied |
| Follower.CatchUpKeepsMarks | src/datacrystal/_follower.py:89-124 | the marks never regress and stay above every stored id |
| Follower.MarksAreLeast | src/datacrystal/_follower.py:127-176 | each persisted mark moves exactly as far as it must: to just past the greatest id named, or stays |
| Follower.IterFrames | src/datacrystal/_follower.py:79-86 | the loop over a body yields its frames, or fails on a truncated one |
| Follower.FramesRoundTrip | src/datacrystal/_follower.py:79-86 | what was framed parses back, byte for byte |
| Follower.ParseMeans | src/datacrystal/_follower.py:79-86 | frame by frame: a whole one, a payload cut short that is the last, or the error of a header cut short |
| Frames.BigEndianRoundTrip | src/datacrystal/_follower.py:79-86 | the length prefix reads back |
| Frames.MostSignificantFirst | src/datacrystal/_follower.py:79-86 | the first byte of a length weighs most |
| FollowerRuns.FollowerEqualsCoordinator | src/datacrystal/_follower.py:127-176 | in every run of the commit machine whose stream missed no commit, a follower built from any split of the stream has the coordinator's records, class ids and TIDs included, types, root and watermark |
| FollowerRuns.FirstConsumerHearsAll | src/datacrystal/_store.py:1436-1462 | as long as the first consumer is attached, and no other took its place, the stream missed no commit |
| DeltaLogs.DeltaLog.Apply | src/datacrystal/deltalog.py:152-191 | the verdict, which JudgeMeans tells from the delta, and what it does to memory and disk: buffered, flushed at the limit, or untouched |
| DeltaLogs.DeltaLog.Flush | src/datacrystal/deltalog.py:255-282 | segment bytes first, manifest after; a cut leaves the torn disk |
| DeltaLogs.DeltaLog.EnsureCurrentSegment | src/datacrystal/deltalog.py:305-315 | rolls to the next segment when there is none or it is full |
| DeltaLogs.DeltaLog.IterSegment | src/datacrystal/deltalog.py:317-333 | the frames within the committed length, a truncated tail dropped |
| DeltaLogs.DeltaLog.ReplayAfter | src/datacrystal/deltalog.py:221-237 | durable frames past the cursor, then buffered ones |
| DeltaLogs.DeltaLog.CutSegments | src/datacrystal/deltalog.py:407-424 | named segments are cut back to their committed length |
| DeltaLogs.Open | src/datacrystal/deltalog.py:367-424 | memory and files as reopening leaves them |
| DeltaLogRuns.LogReplaysWhatItRecorded | src/datacrystal/deltalog.py:221-237 | in every run of applies, flushes, rolls, crashes and reopenings, replay gives exactly the recorded deltas past the cursor, in order, and the n-th recorded one has TID genesis + n |
| DeltaLogRuns.CrashLosesOnlyTheBuffer | src/datacrystal/deltalog.py:407-424 | killed at any byte of an append, and once more anywhere inside the reopening, the reopened log replays exactly what was durable and its files are byte-identical to the committed ones |
| DeltaLogRuns.ReplayIsRecorded | src/datacrystal/deltalog.py:221-237 | the invariant behind it |
| DeltaLogRuns.SegmentFramesReadBack | src/datacrystal/deltalog.py:317-333 | a file of whole frames reads back from any frame boundary |
| DeltaLogRuns.FlushKeeps | src/datacrystal/deltalog.py:255-282 | a flush moves the buffer into the segments without losing, repeating or reordering a delta |
| LoggedRuns.JudgeMeans | src/datacrystal/deltalog.py:152-191 | of well-headed deltas an older one is skipped, one further ahead is a gap, and the next one is recorded exactly when every operation stores or deletes; all others are format errors |
| LoggedRuns.NextIsRecorded | src/datacrystal/deltalog.py:152-191 | a well-formed next delta is recorded, at the end |
| LoggedRuns.EmittedIsWellFormed | src/datacrystal/deltalog.py:152-191 | every delta a run of the commit machine hands over is well formed, so recorded when its TID is next |
| LoggedRuns.LogOfCoordinator | src/datacrystal/deltalog.py:221-237 | a stream that missed no commit, logged from zero with flushes and repeats anywhere, replays past any cursor as the stream past it |
| LoggedRuns.FlushOpensSegmentIff | src/datacrystal/deltalog.py:305-315 | a flush opens a segment exactly when there is none or the last has reached the size limit |
| LoggedRuns.TornMeans | src/datacrystal/deltalog.py:255-282 | a flush that dies only lengthens the current segment by the first bytes of the frames |
| LoggedRuns.RunHoldsBack | src/datacrystal/deltalog.py:152-191 | in every run, crashes included, fewer deltas wait in memory than the log flushes at |
| Keys.InsortKeepsOrder | src/datacrystal/_indexes.py:300-310 | a new key enters the run at its place and nothing else changes |
| Keys.SortKeys | src/datacrystal/_indexes.py:54-73 | sorting keeps exactly the keys, strictly ascending |
| Keys.TextLessIff | src/datacrystal/_indexes.py:768-791 | text keys are in dictionary order: a proper prefix first, else by the first differing character |
| Keys.LessIff | src/datacrystal/_indexes.py:768-791 | the order of keys: numbers by value, text in dictionary order |
| Keys.SortedRunIsUnique | src/datacrystal/_indexes.py:54-73 | a run is determined by its keys |
| Keys.BisectLeftSplits | src/datacrystal/_indexes.py:768-791 | the bisection point separates the smaller keys |
| Keys.BisectRightSplits | src/datacrystal/_indexes.py:768-791 | and, past an equal key, the greater ones |
| IndexSpec.ExactIsDetermined | src/datacrystal/_indexes.py:439-477 | two exact indexes over the same rows agree on extent, postings, unique maps and runs |
| IndexSpec.InsertKeepsPostings | src/datacrystal/_indexes.py:254-298 | an insert keeps extent and every posting exact |
| IndexSpec.InsertKeepsRuns | src/datacrystal/_indexes.py:282-310 | and every sorted run |
| IndexSpec.RemoveKeepsPostings | src/datacrystal/_indexes.py:312-321 | a removal keeps extent and postings exact |
| IndexSpec.RemoveKeepsRuns | src/datacrystal/_indexes.py:312-321 | and runs; emptied keys stay |
| IndexMemory.RememberScalars | src/datacrystal/_indexes.py:191-215 | one scalar column, inverted into each row's key |
| IndexMemory.RememberLists | src/datacrystal/_indexes.py:191-215 | one multi-valued column, inverted into each row's elements |
| IndexMemory.RememberHolders | src/datacrystal/_indexes.py:191-215 | a pure-Unique field, inverted from its holder map |
| IndexMemory.Rebuild | src/datacrystal/_indexes.py:191-215 | the memory rebuilt from postings and unique maps alone files every row as the rows themselves would |
| Indexes.ClassIndexes.Unindex | src/datacrystal/_indexes.py:233-252 | removes exactly the last-indexed filings |
| Indexes.ClassIndexes.FileRow | src/datacrystal/_indexes.py:275-310 | files exactly the new row, entering new keys into the runs |
| Indexes.ClassIndexes.Insert | src/datacrystal/_indexes.py:254-273 | the view after an insert, in terms of the rows and not of the memory; the index stays valid |
| Indexes.ClassIndexes.Remove | src/datacrystal/_indexes.py:312-321 | the view after a removal, likewise |
| Indexes.ClassIndexes.FinalizeBuild | src/datacrystal/_indexes.py:181-189 | every run sorted from its column |
| Indexes.ClassIndexes.Load | src/datacrystal/_indexes.py:349-384 | a dumped index restored valid, its memory deferred |
| IndexCommits.UniqueCheckIff | src/datacrystal/_indexes.py:556-589 | the check passes exactly when the rows after the commit share no unique key and no entry claims a key whose holder is only being re-keyed by the same commit |
| IndexCommits.KeySwapRefused | src/datacrystal/_indexes.py:556-589 | two records swapping keys: no key is shared before or after, and the check refuses |
| IndexCommits.CommitKeepsExact | src/datacrystal/_indexes.py:638-660 | a checked commit keeps the index exact, also one that deletes a key's holder and claims the key anew |
| IndexCommits.IncrementalEqualsRebuild | src/datacrystal/_indexes.py:638-660 | after any sequence of commits, refused ones among them, a class with a maintained field has the index a rebuild would give |
| IndexCommits.IndexlessExtentIff | src/datacrystal/_store.py:1090-1094 | for a class without maintained fields a built extent stays right exactly when the commit only touches records it already had |
| IndexCommits.IndexlessMissesNew | src/datacrystal/_store.py:1090-1094 | the first record of such a class after its extent was built: the extent stays empty |
| IndexCommits.UniqueMidPut | src/datacrystal/_indexes.py:254-298 | half-way through a commit the unique map never names a wrong holder |
| IndexBuild.FillFor | src/datacrystal/_indexes.py:405-436 | names a missing default, or a shared default on a Unique field |
| IndexBuild.Build | src/datacrystal/_indexes.py:439-477 | succeeds exactly when no shape lacks a default and no record would share a unique one, and then indexes exactly the lineage's rows |
| IndexBuild.LineageMeans | src/datacrystal/_indexes.py:439-477 | a record is indexed as its own values in the maintained fields its shape had, the class defaults in those it lacked, and nothing else |
| IndexCache.CachedTwin | src/datacrystal/_indexes.py:331-384 | an index dumped, loaded and folded forward by any inserts and removals equals the never-cached one in every structure |
| IndexManagers.IndexManager.Ensure | src/datacrystal/_indexes.py:534-545 | built already, from a blob, or from the records: the caller gets an index exact over what it was told, which is exact over the committed rows exactly when no record was missed; a build from the records misses none |
| IndexManagers.Unclaimed | src/datacrystal/_indexes.py:556-589 | the loop over claims decides exactly the unique check |
| IndexManagers.IndexManager.CheckUnique | src/datacrystal/_indexes.py:556-589 | P1's verdict: free exactly when no two committed records would share a key and no claimed key was another of the commit's records'; it fails exactly when the index is neither built nor cached and cannot be built |
| IndexManagers.IndexManager.Apply | src/datacrystal/_indexes.py:638-660 | a durable commit is folded, or drops the stale blob; a class with maintained fields misses nothing, and an index or blob of any other class that stays misses exactly the records new since, less the deleted |
| IndexManagers.IndexManager.Commit | src/datacrystal/_indexes.py:556-660 | goes through exactly when it is durable and that check lets it; a refused or failed commit changes nothing, a durable one moves the committed rows |
| IndexManagers.IndexManager.DumpForCache | src/datacrystal/_indexes.py:547-554 | every dumped blob is exact over what its index was told, and the next session opens with it |
| IndexManagers.FoldInto | src/datacrystal/_indexes.py:638-660 | entries first, then deletes, leave an exact index |
| Conditions.FlatteningKeepsMeaning | src/datacrystal/_conditions.py:35-41 | `&` and `|` mean conjunction and disjunction although they flatten their operands |
| Conditions.OrderedMeans | src/datacrystal/_conditions.py:139-168 | what each comparison holds of, told from the values: numbers by value, text in dictionary order, never a list and never None |
| Conditions.TextTestsMean | src/datacrystal/_conditions.py:139-168 | prefix and substring tests, told from positions of characters |
| Conditions.EqualityTestsMean | src/datacrystal/_conditions.py:139-168 | equality, inequality and membership, on scalars and on lists |
| Conditions.NegationLaws | src/datacrystal/_conditions.py:184-217 | negation turns conjunctions into disjunctions and back |
| Conditions.AllOrAny | src/datacrystal/_conditions.py:184-217 | a conjunction holds when all its parts do, a disjunction when one does |
| Planner.SliceIsFilter | src/datacrystal/_indexes.py:768-791 | the bisected slice is the filter by the comparison |
| Planner.RangeSliceExact | src/datacrystal/_indexes.py:768-791 | a range predicate on an indexed field gives exactly the matching rows, none with a missing value; RangeSliceMeans says which those are |
| Planner.RangeSliceMeans | src/datacrystal/_indexes.py:768-791 | those rows, told from their values: by number, or in dictionary order |
| Planner.EqPlanExact | src/datacrystal/_indexes.py:839-880 | on an indexed field the candidates are exactly the matching rows, whichever path answers |
| Planner.LeafPlan | src/datacrystal/_indexes.py:910-919 | a leaf becomes exactly its matching OIDs or stays a residual |
| Planner.PureUniqueIff | src/datacrystal/_indexes.py:883-907 | a pure-Unique field's map answers right exactly unless None is asked for and some row has None |
| Planner.PureUniqueMissesNone | src/datacrystal/_indexes.py:883-907 | one row without a key: the plan for None is empty with no residual, and the row matches |
| Planner.PlanKeepsMeaning | src/datacrystal/_indexes.py:954-968 | for every condition tree the candidates whose rows satisfy the residual are exactly the rows that satisfy the condition |
| Planner.ConjunctsKeepMeaning | src/datacrystal/_indexes.py:922-938 | conjuncts contribute candidates and residuals independently |
| Planner.DisjunctsKeepMeaning | src/datacrystal/_indexes.py:941-951 | disjuncts unite only when all are fully indexed |
| Planner.PlanUses | src/datacrystal/_indexes.py:954-968 | the planner uses an index wherever it may: a plan has candidates exactly when the condition's shape and the indexed fields narrow it, and a residual exactly when they do not settle it |
| ResultOrder.OrderIsUnique | src/datacrystal/_indexes.py:971-1021 | the promised order (key, None last, ascending OID in both directions) determines the sequence |
| ResultOrder.IndexOrderExact | src/datacrystal/_indexes.py:971-992 | the index path lists exactly the matched OIDs in that order |
| ResultOrder.IndexOrderMeans | src/datacrystal/_conditions.py:261-275 | the promised order, told from the values: by number or in dictionary order, descending when asked, None last and ties by OID |
| ResultOrder.OrderViaIndex | src/datacrystal/_indexes.py:971-992 | the loop over keys computes it |
| ResultOrder.WindowedIndexOrder | src/datacrystal/_indexes.py:995-1021 | the early exit returns exactly that sequence's window |
| ResultOrder.WindowIter | src/datacrystal/_conditions.py:251-258 | the lazy window equals the slice |
| ResultOrder.OrderByValues | src/datacrystal/_conditions.py:261-274 | the scan path lists exactly the matched OIDs in that order |
| ResultOrder.StableSortInOrder | src/datacrystal/_conditions.py:261-274 | the stable sort keeps ascending OIDs within equal keys |
| ResultOrder.IndexedOrderIsStableSort | src/datacrystal/_indexes.py:971-992 | both paths return the same sequence |
| Permissions.AuthorityClears | src/datacrystal/_permissions.py:207-219 | authority clears a floor exactly when a group's level does, or the owner's best on an unshared record |
| Readable.AdmitsIff | src/datacrystal/_permissions.py:231-240 | the row predicate agrees with what the bitmap admits exactly unless the read floor is below the ladder and no held group decides |
| Readable.FloorBelowLadderIsReal | src/datacrystal/_permissions.py:231-240 | a stranger and an unshared record with a floor below the ladder: the row predicate admits, the bitmap does not |
| Readable.ReadableBitmap | src/datacrystal/_indexes.py:794-819 | the loop over the principal's own memberships admits exactly those rows and stays in the extent; root has no bitmap |
| Authority.CheckWriteGate | src/datacrystal/_store.py:1305-1360 | the loop lets a commit through exactly when the gate allows every write; GateIff says what that is in levels |
| WriteGate.ClearsIff | src/datacrystal/_store.py:3286-3354 | a floor is cleared exactly by a level at least as high, in some group of the record or, unshared, as its owner |
| WriteGate.PassesIff | src/datacrystal/_store.py:3286-3354 | a rewrite passes exactly when the prior write floor is reached, the owner kept, every added group is one the principal stands in, every changed floor cleared and every changed grant at most its level; so for births and deletions |
| WriteGate.GateIff | src/datacrystal/_store.py:1305-1360 | a commit is let through exactly when each of its writes passes, told from levels alone |
| WriteGate.CommitDoesWhatPasses | src/datacrystal/_store.py:1305-1360 | and when it is durable the registry holds every staged record and none of the removed ones |
| WriteGate.ScopesNest | src/datacrystal/_store.py:544-610 | a scope that is entered acts as a registered actor of that uid, with the memberships of its row, and leaving it acts as before |
| Authority.GrantsAreHeld | src/datacrystal/_store.py:3330-3344 | a granted level was held by somebody at the start |
| Authority.AuthorityIsConserved | src/datacrystal/_store.py:3286-3344 | over every run in which root commits nothing, whoever is registered, no registered, scoped or ambient level in a group exceeds what somebody held there at the start |
| Authority.NobodyBecomesRoot | src/datacrystal/_store.py:3330-3344 | if nobody holds the world at the executive level at the start, root commits nothing in the whole run, nor does anyone become root |
| Authority.OwnersNeverChange | src/datacrystal/_store.py:3286-3305 | while root commits nothing a persisted record keeps its owner, or is gone for good |
| Authority.RecordStep | src/datacrystal/_store.py:3286-3354 | one commit changes or deletes a persisted record only past its write floor |
| Authority.CuratedRecordsStay | src/datacrystal/_store.py:3286-3354 | while root commits nothing a shared record whose write floor nobody could clear at the start is never rewritten, relabelled or deleted |
| Authority.RelabelsAreCapped | src/datacrystal/_store.py:3308-3327 | a commit shares a record only where the committer stands, and changes a floor only to one somebody at the start could have cleared in its groups, as long as root has committed nothing |
| Authority.BirthsAreOwned | src/datacrystal/_store.py:1340-1360 | no commit but root's creates a protected record anonymously or with another owner than it was born with |
| Values.HarvestsAgree | src/datacrystal/_records.py:130-160 | the references of a live value are the references of its stored form |
| Values.OneHandleIff | src/datacrystal/_records.py:130-137 | for a loaded handle that knows its OID the two harvests agree exactly when the target has that OID |
| References.LiveReferences | src/datacrystal/_records.py:140-170 | the live harvest finds exactly the references of the parts of a value, at any depth |
| References.StoredReferences | src/datacrystal/_records.py:140-170 | so does the decoded one |
| References.AgreementMeans | src/datacrystal/_lazy.py:50-80 | the handles of a value agree exactly when each loaded one that knows an OID knows its target's |
| Values.HandlesStayTrue | src/datacrystal/_lazy.py:50-80 | a handle made in one of the three ways never names another OID than its target's, whatever is loaded, demoted, stamped, committed or discarded; a discard takes stamps away again and rewinds the counter |
| Values.DiscardedIsUntracked | src/datacrystal/_store.py:487-500 | a program's own handle to a discarded new entity has no stored form until the entity is stored again, and then refers to its new OID |
| Values.HarvestLive | src/datacrystal/_store.py:2471-2502 | the stack loop collects exactly the references, and terminates |
| Values.HarvestStored | src/datacrystal/_indexes.py:480-496 | so does its decoded twin |
| ReverseIndexes.ReverseIndex.Ensure | src/datacrystal/_indexes.py:666-695 | from memory, cache or one scan: the postings are the committed edges reversed |
| ReverseIndexes.Invert | src/datacrystal/_indexes.py:707-717 | inverting the postings gives each referrer's targets |
| ReverseIndexes.Scan | src/datacrystal/_indexes.py:684-695 | one scan builds postings and memory |
| ReverseIndexes.ReverseIndex.FoldUpsert | src/datacrystal/_indexes.py:719-742 | one referrer moved from its old targets to its new ones |
| ReverseIndexes.ReverseIndex.FoldDelete | src/datacrystal/_indexes.py:744-765 | a deleted record vanishes as a referrer and stays as a target |
| ReverseIndexes.ReverseIndex.Fold | src/datacrystal/_indexes.py:719-765 | after a commit the index stays true to the surviving edges, also right after a cache load, exactly unless it keeps a cached blob across a commit that changed some record's targets |
| ReverseIndexes.ReversalIsDetermined | src/datacrystal/_indexes.py:666-695 | so folded postings equal a rebuild |
| ReverseIndexes.KeptBlobIff | src/datacrystal/_indexes.py:638-642 | a blob kept across a commit stays right exactly when no record changed its targets |
| ReverseIndexes.StaleBlobIsReachable | src/datacrystal/_store.py:1090-1094 | a commit of index-less classes keeps a blob it makes stale |
| ReverseIndexes.FutureReferrers | src/datacrystal/_store.py:1476-1490 | the corrected referrers of a deleted OID are those after the fold |
| ReverseIndexes.EdgesAfterMeans | src/datacrystal/_indexes.py:719-765 | what a commit does to the references, told record by record |
| ReverseIndexes.ReverseIndex.CheckDanglingDeletes | src/datacrystal/_store.py:1464-1490 | flags exactly the deleted OIDs that will dangle, each with exactly its surviving referrers |
| Discovery.EncodableIff | src/datacrystal/_records.py:140-170 | a value has a stored form exactly when every entity in it has an OID and nothing in it is unpersistable; what that form is, ValueRoundTrip says |
| Discovery.Registrar.WalkValue | src/datacrystal/_store.py:2424-2446 | queues exactly the wanted entities a value reaches, refusing exactly a guarded one in an eager position |
| Discovery.Registrar.QueueFieldEntities | src/datacrystal/_store.py:2354-2371 | queues exactly the wanted entities the fields reach, and refuses exactly when an eager field holds a guarded one |
| Discovery.Registrar.AdoptUnregistered | src/datacrystal/_store.py:2335-2352 | a fresh OID, stamped and buffered |
| Discovery.Registrar.RegisterGraph | src/datacrystal/_store.py:2309-2333 | terminates on any finite graph, cyclic or shared; refuses exactly when something in the graph from the root does, and names why; otherwise everything a walked buffered entity holds has an OID, fresh OIDs new and distinct |
| Discovery.Registrar.DiscoverNewGraphs | src/datacrystal/_store.py:2418-2422 | refuses exactly when something reachable from a buffered entity does; otherwise every reference held by a buffered entity has an OID; only what is reachable gets one |
| Discovery.ClosedIsEncodable | src/datacrystal/_store.py:2504-2510 | so encoding never meets an unregistered entity |
| GraphLoad.Loader.Link | src/datacrystal/_store.py:2811-2839 | the registry's object, an unloaded handle for a guarded target, or a fresh shell registered and queued; fails exactly on a dangling OID |
| GraphLoad.Loader.Resolve | src/datacrystal/_store.py:2892-2935 | the hydrated tree, every eager reference being the registry's object |
| GraphLoad.Loader.Fill | src/datacrystal/_store.py:2853-2890 | fills one shell field by field, or fails for a field without a source, a wrong width, a default or glue that raises, or a dangling eager reference |
| GraphLoad.Loader.MaterializeGraph | src/datacrystal/_store.py:2798-2851 | terminates; on success registers exactly the eager closure, each object complete; fails exactly when the root is missing or something in the closure cannot be filled, and then the registry is as before |
| LoadMeaning.LoadFailsIff | src/datacrystal/_store.py:2798-2851 | a load fails exactly when its root is not stored or an object of its closure has the wrong width, a field without a source or value, or an eager reference to nothing |
| LoadMeaning.ClosureIsLeast | src/datacrystal/_store.py:2811-2839 | the closure is the least set with the root that eager references to unregistered, unguarded records do not leave |
| LoadMeaning.CompleteMeans | src/datacrystal/_store.py:2853-2890 | a loaded object has every field of its class, each hydrated from its own source |
| RoundTrip.ValueRoundTrip | src/datacrystal/_store.py:2892-2935 | every encodable value, stored and loaded again, is the same tree: equal leaves, keys, lengths and order, and a reference to the same object, in memory, as a handle or kept out as the field and the target say |
| RoundTrip.RecordRoundTrip | src/datacrystal/_store.py:2853-2890 | so is every stored field, at whatever place the class has it now |
| GraphLoad.AllReached | src/datacrystal/_store.py:2798-2851 | with an empty queue the registered are the whole closure |
| ArrowFold.FoldNewest | src/datacrystal/arrow.py:746-767 | the seen-set loop is newest-wins |
| ArrowFold.StageRefines | src/datacrystal/arrow.py:394-429 | staging an operation moves the folded view as the plain map moves |
| ArrowMirrors.ArrowMirror.Apply | src/datacrystal/arrow.py:394-459 | the verdict; a refused or repeated delta leaves no trace, an accepted one moves the plain rows, stays staged below the flush threshold and is flushed with all others at it |
| ArrowMirrors.ArrowMirror.DecodeOps | src/datacrystal/arrow.py:431-459 | decodes all or refuses, before anything changes |
| ArrowMirrors.ArrowMirror.Table | src/datacrystal/arrow.py:536-564 | exactly the plain live rows, unflushed ones included |
| ArrowMirrors.ArrowMirror.WriteSegment | src/datacrystal/arrow.py:701-717 | reads and what would recover are unchanged by the new file |
| ArrowMirrors.ArrowMirror.CompactType | src/datacrystal/arrow.py:769-790 | one segment without tombstones, reads unchanged |
| ArrowMirrors.ArrowMirror.Flush | src/datacrystal/arrow.py:595-622 | everything becomes durable; each directory state on the way recovers to the old or the new content; a pending type with room gains one segment holding exactly its pending rows and tombstones, a full one is folded into one segment without tombstones |
| ArrowMirrors.ArrowMirror.Compact | src/datacrystal/arrow.py:566-579 | at most one segment per type, under the same crash guarantee; a type first flushed by it keeps the tombstones that were pending |
| ArrowMirrors.ArrowMirror.CompactAll | src/datacrystal/arrow.py:566-579 | a type ends without tombstones exactly when it had several segments or none of its own had any |
| ArrowMirrors.CompactKeepsTombstone | src/datacrystal/arrow.py:566-579 | a mirror of an empty directory takes the deltas of a record stored and then deleted, and is compacted: the tombstone stays |
| ArrowMirrors.ArrowMirror.SweepOrphans | src/datacrystal/arrow.py:862-877 | removes only files the manifest does not name |
| ArrowMirrors.ArrowMirror.constructor | src/datacrystal/arrow.py:825-877 | reopening shows exactly what the manifest makes durable |
| ArrowMirrors.RunSession | src/datacrystal/arrow.py:327-429 | for every session of deliveries, flushes, compactions and crashes anywhere, also inside the sweep of a reopening, a read gives the plain live rows at the watermark; the watermark moves with each next well-formed delta, falls in a crash only, never below what an earlier operation made durable and by no more deltas than it flushes at |
| MirrorOfBackend.DeltaLookup | src/datacrystal/arrow.py:394-459 | an object's row after a delta is decided by the one op that touches it, in that op's own type and nowhere else |
| MirrorOfBackend.MirrorFollowsBackend | src/datacrystal/arrow.py:394-459 | a mirror that agrees with the backend agrees again after the next commit's delta exactly when the commit stores no mirrored record under another type name |
| MirrorRuns.MirrorEqualsCoordinator | src/datacrystal/arrow.py:394-459 | in every run of the commit machine whose stream missed no commit, the rows a mirror shows after the stream are exactly the coordinator's records, by type name |
| MirrorSessions.VerdictMeans | src/datacrystal/arrow.py:394-459 | of well-marked deltas an older one is skipped, one further ahead is a gap, and the next one is taken exactly when every key is there and every operation readable |
| MirrorSessions.StreamIsTaken | src/datacrystal/arrow.py:394-459 | a mirror takes every delta of a stream that missed no commit, each when it is next |
| MirrorSessions.MirrorShowsRecords | src/datacrystal/arrow.py:394-459 | at the end of such a stream a read of any type shows exactly the coordinator's records of that type, payload and shape, and nothing of a type that is not mirrored |
| MirrorSessions.SessionShowsRecords | src/datacrystal/arrow.py:394-459 | so it does once the rest of the stream is delivered in order, however the session went before |
| Tags.UnifyCommutes | src/datacrystal/arrow.py:176-190 | the join is commutative |
| Tags.UnifyAssociates | src/datacrystal/arrow.py:176-190 | and associative on reachable tags |
| Tags.UnifyIdempotent | src/datacrystal/arrow.py:176-190 | and idempotent, null is its identity, the fallback absorbs |
| Tags.UnifyReachable | src/datacrystal/arrow.py:166-190 | reachable tags are closed under it |
| Tags.UnifyIsLeast | src/datacrystal/arrow.py:166-190 | it is the least tag above both |
| Tags.FoldConcat | src/datacrystal/arrow.py:536-564 | a column's tag does not depend on the batching of its values |
| Tags.FoldPermutes | src/datacrystal/arrow.py:116-120 | nor on their order |
| TagMeaning.TakesIff | src/datacrystal/arrow.py:123-190 | a column of a tag takes a value exactly when the value's own tag is below it; which values each tag takes is told from the values |
| TagMeaning.BelowMeans | src/datacrystal/arrow.py:91-190 | a reachable tag is below another exactly when the other takes every value it takes |
| TagMeaning.JoinTakes | src/datacrystal/arrow.py:91-190 | a joined tag takes what either takes, and no reachable tag that does takes less |
| TagMeaning.ColumnTagIsLeast | src/datacrystal/arrow.py:91-190 | a column's tag takes all of its values and is below every reachable tag that does |
| Tags.TagOfReachable | src/datacrystal/arrow.py:123-139 | every value's tag is reachable |
| Tags.DecimalFitsAbove | src/datacrystal/arrow.py:146-173 | a finite decimal with a decimal tag fits every decimal tag above it |
| Tags.ColumnDecimalsFit | src/datacrystal/arrow.py:146-190 | in a column with a decimal tag every decimal cell fits its precision and scale |

## Left out

- Field assignment and container wrappers: the store holds one live slot per OID, a clean instance may be collected at
  any moment, and an in-place change of a container is a write.
- Payload bytes: encoding is a partial function of a value; msgpack, ISO text, checksums and sha256 are not modelled.
- Blobs, streamed sources, lazy-handle timeouts, debug fingerprints, warnings, wall clock and thread checks. The actor
  and the time of a commit are parameters.
- Cancellation.TidsGaplessIff: over the in-memory backend; SQLite refuses a second row for a class id, so a retry that
  carries a type row again fails there until the store starts over. What a repeated TID does to later states is left out.
- Root recovery on opening; the root object is an OID that travels with the meta.
- P1's checks appear in the commit machine as a verdict, but for the refusal of deleted instances; the unique check,
  the write gate, the dangling-delete check and discovery are modelled in their own modules. The mixed-datetime and
  NaN checks on sorted fields are left out, keys being totally ordered.
- CommitRuns.FaithfulDeltaStream: one consumer at a time, the reference applier; what is attached at a watermark was
  rebuilt from a snapshot at it. Several consumers at once, and other consumers' own failures, are left out.
- StoreObject.Store.P1Capture: takes the verdict of the checks before the TID as a parameter.
- IndexManagers.IndexManager.Apply: a commit's entries are grouped by class, since classes share no index.
- Planner.PlanKeepsMeaning: for conditions that do not, outside a negation, ask a pure-Unique field for None where a
  row has it; PureUniqueIff is the exact condition per predicate. A list literal against a scalar index, which raises,
  counts as matching nothing.
- ResultOrder.OrderByValues: the built-in sort is a stable insertion sort.
- Authority.AuthorityIsConserved: for principals from the committed registry or the ambient one; a caller that acts as
  a principal of its own making is trusted by design. Label inheritance at birth is a parameter of each write.
- Authority.OwnersNeverChange: persisted records; birth labels of a retried insert are lost, as in the code.
- Discovery.Registrar.RegisterGraph: one live instance per OID, and values that match their hints. Stamping birth
  labels along the walk is left out.
- GraphLoad.Loader.MaterializeGraph: a default factory or a glue function is a function of the record's values; class
  construction itself is left out.
- Follower.ApplyCatchup: every upsert carries a payload, since what a backend makes of a record without one depends on
  the backend; fetching, retries and submissions are left out.
- DeltaLogs.DeltaLog.Flush: an append that fails without ending the process, followed by another flush, is left out;
  so are the manifest's own format checks.
- ArrowMirrors.ArrowMirror.Table: rows are named shapes and payloads; conversion of cells to column types, re-reading
  promoted columns, defaults of dropped fields, reserved names and bootstrap batching are left out. A crash is a
  process crash.
- SQLite, write-ahead logging, fsync policy, the lease lock, full-text search, the web application and the HTTP
  transport.
