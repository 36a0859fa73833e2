# ZetaScale logging container, NVRAM service and replacement maps

ZetaScale keeps *logging containers* (`api/lc.c`): key-value containers whose records are appended to
per-stream buffers, mirrored to NVRAM (`api/nvr_svc.c`), and written to flash as numbered streaming objects
(SOs) when a buffer is full.  Old SOs are deleted once everything in them lies below its placement group's
(PG's) trim position, and opening a container rebuilds all state from NVRAM and flash.  This project models
that machinery, the batch-commit protocol of one-stream containers, the two in-memory maps with replacement
(`api/fdf_tlmap.c`, `api/cmap.c`), the container quota counter (`api/fdf.c`) and the hash (`api/cmap_hash.c`),
and proves what they promise.

## How it is laid out

| file | what it holds |
|---|---|
| `Keys.dfy` | key decoding and key equality |
| `LogSpec.dfy` | records, the reference store (`Replay`, `Lookup`), and when a shortened log still answers alike |
| `Flash.dfy` | SOs on flash, the log of a stream, and what it means for flash to represent a history |
| `Container.dfy`, `ContainerProofs.dfy` | the container's state, its steps as functions, the invariant and why each step keeps it |
| `Recovery.dfy` | what a crash leaves, and why recovery, restarted at any point, rebuilds the same thing |
| `Lineage.dfy` | SO names over time: why a deleted one never comes back |
| `LogContainer.dfy` | the container as a class whose methods follow lc.c, each proved equal to a step function |
| `Runs.dfy` | any sequence of calls, crashes and recoveries against the reference store |
| `Sweep.dfy` | how far a reclamation goes, told from the records alone |
| `RoundRobin.dfy` | which streams new PGs get |
| `Limits.dfy` | where the promises stop: exact conditions for reclamation and rollback, SO names |
| `Rollback.dfy` | what is left when transactions that issued TRIMs are rolled back |
| `FastWriters.dfy` | overlapping fast writers: order in the buffer against order in NVRAM |
| `Batch.dfy` | lc_mput and write_records against one lc_write per object |
| `Enumeration.dfy` | pgstreamenumerate against reading |
| `BatchCommit.dfy` | lc_sync_buf, streamwrite_one_spc and lc_write_one_spc as a transition system |
| `Trx.dfy` | trxtrack running beside trxoldest |
| `Nvram.dfy` | the block format and one buffer, with the mutex that a refused write keeps |
| `NvramSync.dfy`, `NvramDevice.dfy` | concurrent syncs as a transition system: offsets; blocks, checksums and partitions |
| `Codec.dfy` | the bytes of records and SOs, and records sent through the NVRAM buffer |
| `Lists.dfy`, `LruMap.dfy`, `ClockMap.dfy` | linked lists in memory; the exact-LRU map; the clock map |
| `Quota.dfy` | inc_cntr_map as a transition system |
| `Words.dfy`, `MixHash.dfy` | little-endian words and 64-bit arithmetic; mix64 and cmap_hash |

Imperative code is modelled by classes and methods with loops: the container (`Lc`), an NVRAM buffer
(`Buffer`) and the two maps (`TlMap`, `CMap`).  Protocols between threads are transition systems in which any
number of threads take steps in any order.  A container records every disk there has been between two device
steps in `trace`, so that "a crash at any point" is a statement about every element of it.

## Main results

* `Runs.Run`: over any sequence of writes, batches, deletes, trims, reads and listings, with buffer flushes, PGs
  sharing streams, reclamation, crashes after any device step of any call, rollback of any transactions and
  recoveries that themselves crash any number of times, every completed read and listing answers what a
  last-writer-wins map with trim positions answers, the history holds exactly the records that landed less
  what was rolled back, an SO name deleted from flash is never on flash again, and the PGs that come in between two
  openings are spread evenly over the streams.
* `ContainerProofs.ReclaimKeepsReads`, `Limits.ReclaimSafeIff`, `Limits.RevertSafeIff`, `Limits.ReclaimableIs`,
  `Rollback.RolledReads`: reclamation changes no read and no trim position; exactly which keys and which rollbacks
  this holds for, and that the container decides by the test these results speak of.
* `Sweep.ReclaimedSwept`, `LogContainer.Lc.StreamReclaim`: a reclamation deletes exactly the SOs at the old end of its
  stream up to the first whose records are not all of finished transactions and below their trim positions.
* `Recovery.RecoveryRestarts`, `LogContainer.Lc.Open`: recovery after any number of interrupted attempts ends with
  the same flash, and the reopened container satisfies the full invariant for the surviving history.
* `BatchCommit.SuccessIsDurable`, `BatchCommit.AllSucceed`, `BatchCommit.FailureIff`, `BatchCommit.FalseSuccessIff`,
  `BatchCommit.WokenFalselyIff`, `BatchCommit.WaiterCanWake`: a writer that is told success has its record in synced
  NVRAM or on flash, then and ever after, unless it was woken from fullcv; exactly when a writer is told failure, and
  that none is where nothing fails; exactly which schedules make a woken writer report success falsely.
  `BatchCommit.CallCanReturn`: from every reachable state every writer can still get its answer; nobody is stuck.
* `FastWriters.OrderIrrelevantIff`, `FastWriters.ApartAgree`: exactly when overlapping fast writers leave the buffer
  and NVRAM reading alike.
* `Trx.ScanSafeIff`, `Trx.LosesIff`, `Trx.TrackedSpared`: the scan for the oldest transaction is safe against
  concurrent tracking exactly when each field is loaded once, and then no SO of a tracked transaction is deleted;
  with two loads, exactly which schedules lose the minimum.  `Trx.FoundIsGenuine`, `Trx.StillIsMinimum`: what it
  returns was some thread's transaction while it ran, and is the exact minimum when nobody moves.
* `Nvram.RunBuffer`, `Nvram.AllDoneIff`, `Codec.ThroughNvram`: over any run of one buffer what was synced since a
  reset comes back after a restart, byte for byte; a call returns if and only if no refusal since the last restart
  holds the mutex, and is done as the space arithmetic says; exactly which runs meet no refusal.
* `NvramSync.SyncGuarantee`, `NvramDevice.CallerDurable`, `NvramDevice.LastCopyKept`, `NvramDevice.SyncCanReturn`,
  `NvramDevice.AlwaysSoundIff`: every sync can return; once it has, the device holds its caller's bytes, whatever
  others appended and synced meanwhile; with two partitions no sync touches what the one before it wrote; and exactly
  which schedules leave a device that a restart accepts.
* `Enumeration.EnumerationAgrees`, `Enumeration.ListingsEqual`, `Batch.Mput`: enumeration lists exactly what reads
  find, in order, and the same list before and after reclamation or recovery; a batch leaves the state of one call
  per object.
* `LruMap.RunMap`, `LruMap.VictimIsOldest`, `ClockMap.RunClock`, `ClockMap.ChoiceIs`, `ClockMap.SweepStopsIff`: over any
  run both maps answer as a plain map does, reference counts included, and hand over every entry they evict; the
  list of the first is the recency order and its victim the least recently used unpinned entry; entries, bits and
  hand of the second are those of a clock that gives a second chance, and its sweep stops within two rounds exactly
  when some entry is unpinned.
* `Quota.NeverOverGranted`, `Quota.Quiescent`, `Quota.AnsweredIff`; `MixHash.MixBijective`, `MixHash.OneBlockDiffers`,
  `MixHash.TailsDiffer`, `MixHash.CmapHash`.

## Where the code falls short of its promise

* A WRITE or DELETE whose counter is the all-ones word is not protected by any trim position, yet its SO can be
  reclaimed (`Limits.UnknownCounterLost`, `Limits.ReclaimSafeIff`).
* A trim position moves before its transaction commits, so an SO reclaimed on the strength of a TRIM that is later
  rolled back is gone; `Limits.RevertSafeIff` says exactly for which keys this shows: those that the TRIM hid and that
  what is left neither trims nor deletes.
* `compar` orders counters as words; two keys whose counters differ by a multiple of 2^64 tie
  (`Enumeration.OverflowedKeysTie`).
* `min` in trxoldest is a macro that loads the field twice, and the comment that there is no race is true only if
  the compiler loads it once (`Trx.ReloadLosesMinimum`, with the exact schedules in `Trx.LosesIff`).
* A writer woken by a flash write that failed reads `syncstatus` later, when another call's partial sync may have
  set it back to success (`BatchCommit.FalseSuccess`; `BatchCommit.WokenFalselyIff` is the exact condition).
* lc_write appends to NVRAM after it has released the buffer, so two writers of one key at once may leave the buffer
  with one value and NVRAM, after a crash, with the other (`FastWriters.OrderIrrelevantIff`).
* A write that does not fit returns with the buffer's mutex held: the next write or reset of that buffer never
  returns, until a restart (`Nvram.OneTooLong`).  `Nvram.AllDoneIff` is the exact condition for a run to meet no
  refusal; a caller that stays within the advertised capacity meets none (`Nvram.CapacityAffordable`), and
  lc.c sizes its stream buffers to do so.
* A sync computes a block's checksum and then writes the block from memory that others append to.  An append between
  the two leaves a block that fails its checksum, and the next restart refuses the whole device
  (`NvramDevice.TornBlock`; `NvramDevice.AlwaysSoundIff` is the exact condition).
* A reservation that fits can be refused while another, refused one has not yet taken its addition back
  (`Quota.SpuriousRefusal`, with the exact condition in `Quota.RefusedIff`).

## Model

| member | source | states |
|---|---|---|
| Keys.KeyDecode | api/lc.c:2905-2950 | accepts exactly keys under 4000 bytes that start with digits and a separator; returns the PG name up to the next separator and the counter modulo 2^64 |
| Keys.PgEnd | api/lc.c:2917-2943 | finds the end of the PG name: the first separator after it, or the end of the key |
| Keys.KeyEqual | api/lc.c:2959-2977 | true exactly when the keys are the same once leading zeros are dropped, on both sides |
| Keys.CanonKeeps | api/lc.c:2959-2977 | dropping leading zeros keeps well-formedness, PG, suffix and the full counter |
| Keys.EqualKeysAgree | api/lc.c:2959-2977 | keys that keyequal equates have the same PG, suffix and counter, so they are one object |
| Keys.CounterAndSuffixDetermine | api/lc.c:2959-2977 | conversely, equal unwrapped counters and suffixes make keys equal |
| LogSpec.ReplayTrims | api/lc.c:3036-3063 | the trim position of a PG after any log is the largest counter among its TRIM records, unknown if none |
| LogSpec.LookupIs | api/lc.c:2407-2484 | a read finds the data of the last WRITE of the key up to leading zeros, if and only if no DELETE of it follows and no TRIM of its PG reaches its counter |
| LogSpec.LookupOfPg | api/lc.c:2407-2484 | reading a key from a whole log and from the records of its PG alone give the same answer |
| LogSpec.KeptTrim | api/lc.c:2311-2318 | when only records strictly below the remaining trim position were dropped from the front, the trim position is unchanged |
| LogSpec.KeptLookup | api/lc.c:2407-2484 | and every key with a known counter reads the same from the shortened log |
| LogSpec.KeptDropHead | api/lc.c:2334-2348 | dropping a further head below the trim position keeps that relation |
| LogSpec.KeptSnoc | api/lc.c:2108-2118 | appending any record keeps that relation |
| Flash.ExtendLast | api/lc.c:2108-2118 | writing to the newest SO of a stream, or opening the next, appends to the stream log |
| Flash.DropFirst | api/lc.c:2205-2222 | deleting the oldest SO removes exactly its records from the front of the stream log |
| Flash.ReadHome | api/lc.c:2407-2484 | when flash represents a history, reading a key from its PG's stream equals reading the replayed history |
| Flash.RepresentsAppend | api/lc.c:2108-2118 | appending a record to its PG's stream represents the history with it appended |
| Flash.RepresentsDrop | api/lc.c:2205-2222 | deleting an SO whose records are all below trim represents the same history |
| Flash.RepresentsTomb | api/lc.c:2249-2283 | erasing the records of reverted transactions represents the history without them |
| Flash.RepresentsNewHome | api/lc.c:2722-2747 | a PG without records may be given any stream |
| Flash.RepresentsForget | api/lc.c:1207-1271 | PGs without records may be forgotten |
| ContainerProofs.StreamLogIs | api/lc.c:2407-2484 | a stream log is its SOs from seqoldest to seqnext in order, then the open buffer |
| ContainerProofs.FlushKeepsAll | api/lc.c:2088-2104 | writing the buffer as an SO and resetting NVRAM, each alone and both, leave the durable records the same |
| ContainerProofs.FlushedInv | api/lc.c:2088-2106 | a flush keeps the container invariant for the same history |
| ContainerProofs.ReclaimableDroppable | api/lc.c:2334-2348 | an SO the check calls reclaimable holds, for every PG, only records strictly below its trim position or with unknown counters |
| ContainerProofs.ReclaimedOneInv | api/lc.c:2205-2222 | deleting one reclaimable SO keeps the invariant for the same history |
| ContainerProofs.ReclaimedInv | api/lc.c:2194-2225 | so does reclaiming any number |
| ContainerProofs.ReclaimKeepsReads | api/lc.c:2194-2225 | reclaiming any number of SOs changes no read of a key with a known counter and no trim position |
| ContainerProofs.ReclaimedSparesActive | api/lc.c:2334-2339 | no SO with a live record of a transaction at or above the oldest active one is deleted |
| Sweep.ReclaimableIffOutdated | api/lc.c:2334-2348 | the status kept in memory passes if and only if every live record of the oldest SO is of an older transaction and each PG with records there has a known counter among them and all known ones below its trim position |
| Sweep.ReclaimedSwept | api/lc.c:2205-2222 | reclaiming deletes exactly the SOs of the stream up to the first not outdated, each judged by its own scan, or the newest; all else on the disk, the buffers and the trim positions stay |
| ContainerProofs.AppendedTrims | api/lc.c:1322-1323 | trim positions in memory stay the largest TRIM counter in the PG's stream |
| ContainerProofs.AppendedInv | api/lc.c:2108-2118 | appending a record keeps the invariant for the history with it appended |
| ContainerProofs.WithPgInv | api/lc.c:2664-2694 | a PG seen for the first time gets the stream under the hand and keeps the invariant |
| RoundRobin.WithPgDealt | api/lc.c:2664-2694 | a new PG gets the stream after the one given last, the first after the last of the list; known PGs stay where they are |
| RoundRobin.DealtThen | api/lc.c:2664-2694 | so over any sequence of lookups the new PGs get the streams in turn |
| RoundRobin.DealsEven | api/lc.c:2655-2662 | any two streams then got numbers of new PGs that differ by at most one, and no two share a stream if there are no more of them than streams |
| ContainerProofs.RoomMadeInv | api/lc.c:2088-2106 | flushing and reclaiming to make room keeps the invariant for the same history, and the record then fits |
| Recovery.InvSurvives | api/lc.c:2088-2118 | the disk of a container in order holds its whole history |
| Recovery.RecoveryStepKeeps | api/lc.c:2249-2283 | each device step of recovery leaves the durable records, reverted ones erased, the same |
| Recovery.RecoveryRestarts | api/lc.c:467-540 | any number of recovery attempts, each cut short anywhere, leave the durable records, reverted ones erased, the same |
| Recovery.ScannedTrim | api/lc.c:1235-1258 | after all SOs were scanned in any order, a PG's trim position is that of its stream log |
| Recovery.PgsScannedStep | api/lc.c:2249-2283 | scanning one more SO, whichever, extends the PG table correctly |
| Recovery.ScannedNumbered | api/lc.c:1235-1258 | seqoldest and seqnext found by the scan are the ends of the contiguous run of SOs on flash, in any order of enumeration |
| Recovery.RebuiltRepresents | api/lc.c:1207-1271 | the rebuilt container represents the surviving history |
| Recovery.StatusTaken | api/lc.c:2375-2398 | recovering the status of one stream leaves the others' statuses correct |
| Lineage.ReclaimedLater | api/lc.c:2205-2222 | reclaiming leaves the next SO of the stream, so the highest number in use never falls |
| Lineage.AppendedLater | api/lc.c:2108-2118 | an NVRAM write opens the SO above all others of its stream, or extends it |
| Lineage.RecoveryLater | api/lc.c:2249-2283 | no device step of recovery adds, removes or renumbers an SO |
| Lineage.LaterTransitive | api/lc.c:1235-1250 | over any number of steps the highest number of a stream never falls, new SOs are numbered above all others, and an SO leaves flash only by deletion |
| Lineage.DeletedForGood | api/lc.c:2983-2989 | so an SO name that was deleted is never on flash again |
| LogContainer.Lc.SoStatus | api/lc.c:2292-2325 | the status of a stream becomes the newest transaction, the PGs and their newest counters of exactly the given SO |
| LogContainer.Lc.SoStatusReclaimable | api/lc.c:2334-2348 | equals the reclaimability condition |
| LogContainer.Lc.SoStatusClear | api/lc.c:2354-2367 | clears exactly the PGs listed for the stream |
| LogContainer.Lc.ReclaimOne | api/lc.c:2205-2222 | deletes the oldest SO, takes the status of the next, keeps the invariant and the history |
| LogContainer.Lc.StreamReclaim | api/lc.c:2194-2225 | at every tenth SO, and only then, deletes exactly the outdated SOs at the old end of the stream, up to the first that is not outdated by the scan made for it or is the newest; the history survives every device step |
| LogContainer.Lc.MakeRoom | api/lc.c:2088-2106 | flushes the buffer, and at every tenth SO sweeps the stream in the same sense |
| LogContainer.Lc.Append | api/lc.c:2108-2118 | one device step after which the record is in the durable history |
| LogContainer.Lc.Flush | api/lc.c:2088-2104 | SO write, NVRAM reset and memory update in this order; the history survives every step |
| LogContainer.Lc.StreamWrite | api/lc.c:2075-2120 | flushes and opens the next SO exactly if the record does not fit, then appends; before its last device step a crash finds the old history, after it the new |
| LogContainer.Lc.PgLookup | api/lc.c:2664-2694 | finds the PG, or gives it the next stream of the list after the one given last |
| LogContainer.Lc.WriteRecord | api/lc.c:1281-1331 | refuses exactly unacceptable keys and sizes, otherwise extends the history by one record of the kind asked for |
| LogContainer.Lc.TryAppend | api/lc.c:614-636 | the fast path, when it applies, leaves the state the slow path would |
| LogContainer.Lc.LcWrite | api/lc.c:585-642 | fast or slow path, the state and the durable history are those of one streamwrite |
| LogContainer.Lc.LcDelete | api/lc.c:746-751 | adds a DELETE record to the state as any write does; refuses exactly unacceptable keys and then changes nothing |
| LogContainer.Lc.LcTrim | api/lc.c:761-765 | adds a TRIM record and moves the PG's trim position to the newer counter; refuses exactly unacceptable keys and then changes nothing |
| LogContainer.Lc.ScanSo | api/lc.c:2420-2470 | scanning one SO after others finds the last matching record of the whole |
| LogContainer.Lc.PgStreamScan | api/lc.c:2407-2484 | returns what the stream log answers for the key |
| LogContainer.Lc.LcRead | api/lc.c:773-804 | refuses exactly malformed or long keys; answers the replayed history for every key with a known counter, and the stream of the PG for any; nothing durable changes |
| LogContainer.Lc.NvFlush | api/lc.c:2793-2823 | writes every live NVRAM buffer as its SO and resets it; every step is a recovery step |
| LogContainer.Lc.SoScan | api/lc.c:2249-2283 | erases the records of reverted transactions, notes the rest in the PG table, and says whether anything changed |
| LogContainer.Lc.Recover | api/lc.c:1207-1271 | after all SOs: reverted records erased on flash, streams and PGs as found, every device step a recovery step |
| LogContainer.Lc.SoStatusRecover | api/lc.c:2375-2398 | afterwards the cached status of every stream describes exactly its oldest SO |
| LogContainer.Lc.AddStreams | api/lc.c:498-518 | adds empty streams with unused numbers in front, until there are as many as wanted and no more |
| LogContainer.Lc.Rebuild | api/lc.c:467-540 | nvflush, recover and the missing streams: a rebuilt container on the same durable records |
| LogContainer.Lc.Open | api/lc.c:467-540 | from any recoverable disk, the full invariant for the surviving history, through recovery steps only; as many streams as have SOs or as are wanted, whichever is more, those without SOs numbered from 0 |
| Runs.Perform | api/lc.c:585-1058 | one call extends the history as the reference says, answers reads and listings from it, and a crash at any of its steps finds the history before, for a batch with a prefix of it |
| Runs.Reopen | api/lc.c:467-540 | recovery that crashes at the given points before it gets through ends in order, with the history less the reverted records if those issued no TRIM, else with what a rollback leaves; the disks on the way are in order |
| Runs.CrashIn | api/lc.c:585-1058 | a call of one record cut short has landed if and only if its device steps all completed, a batch cut short has landed up to some prefix, and nothing else changes |
| Runs.Run | api/lc.c:467-1058 | every completed read and listing of every run answers from the replayed history, across flushes, reclamation, crashes, any rollback and repeated recoveries; no SO name is used twice; the disk at the start of every event stands for the history there; new PGs between two openings are spread evenly over the streams |
| Runs.HistoriesAre | api/lc.c:467-1058 | when no transaction that issued a TRIM is rolled back, the history is the records that landed without those of the reverted transactions |
| Limits.SoKeyInjective | api/lc.c:2983-2989 | different streams or sequence numbers have different SO names |
| Limits.ReclaimableIs | api/lc.c:2334-2348 | the cached status passes sostatusreclaimable exactly when the oldest SO itself passes it against the rest of the stream |
| Limits.ReclaimSafe | api/lc.c:2292-2348 | deleting a reclaimable SO leaves the read of a key with a known counter unchanged |
| Limits.UnknownCounterLost | api/lc.c:2311-2318 | for every key whose counter is the all-ones word there is a reclaimable SO, made of acceptable records, whose deletion loses it |
| Limits.ReclaimSafeIff | api/lc.c:2292-2348 | reclamation is safe for a key if and only if its counter is not the all-ones word |
| Limits.RevertSafe | api/lc.c:1322-1323 | rolling back after reclamation reads like rolling back without it for every key that what is left settles |
| Limits.RevertSafeIff | api/lc.c:1322-1323 | for transactions active at the reclamation, a key is safe whatever the SO held if and only if it was not below the trim position, or what is left trims it or ends with its deletion |
| Rollback.RolledReads | api/lc.c:2249-2283 | after any rollback a settled key reads as in the history without the reverted transactions |
| Rollback.LeftRepresents | api/lc.c:2249-2283 | what recovery leaves on flash represents a rollback of the history, TRIMs or not |
| FastWriters.ExecInv | api/lc.c:614-636 | in any schedule each writer is in the buffer once it copied and in NVRAM once it appended, each once |
| FastWriters.ApartAgree | api/lc.c:614-636 | reads from the buffer and after recovery agree on every key whose writers do not overlap or write the same data |
| FastWriters.CrossedDisagree | api/lc.c:614-636 | for any two writers of different data under one key there is a schedule after which they disagree |
| FastWriters.OrderIrrelevantIff | api/lc.c:614-636 | every schedule leaves both reading alike if and only if no two writers write different data under one key that is not trimmed |
| Batch.CommittedIsPutAll | api/lc.c:1410-1561 | copying a run of records to one buffer and sending them to NVRAM in one write equals putting them one by one |
| Batch.Commit | api/lc.c:1487-1506 | one NVRAM write of the copied records; all of them are then durable |
| Batch.WriteRecords | api/lc.c:1410-1561 | the state, history and SO boundaries of one put per record; a crash leaves a prefix of the batch |
| Batch.Mput | api/lc.c:958-1058 | succeeds exactly if every object is acceptable, writes all or those of every full temporary buffer before the first refused one, and leaves the state of that many lc_write calls in order |
| Batch.PutCountCovers | api/lc.c:985-1056 | all objects if none is refused; else those before the last place, up to the first refused one, at which the temporary buffer was full, so that what is dropped fits that buffer |
| Batch.PutEach | api/lc.c:585-642 | one lc_write per object leaves the same state as lc_mput |
| Enumeration.ComparIs | api/lc.c:2995-3028 | compar is negative, positive or zero exactly as (suffix, counter) is before, after or equal |
| Enumeration.BeforeTransitive | api/lc.c:2995-3028 | the order is transitive, so sorting with it is meaningful |
| Enumeration.DistinctKeysOrdered | api/lc.c:2995-3028 | different keys whose counters fit a word never compare equal |
| Enumeration.OverflowedKeysTie | api/lc.c:2995-3028 | for every key there is a different one, at most 20 bytes longer, that compares equal to it |
| Enumeration.ChainPutOk | api/lc.c:2547-2569 | putting a WRITE in its chain keeps the chain equal to what reads of its bucket find |
| Enumeration.ChainRemoveOk | api/lc.c:2570-2593 | so does removing a DELETE's key |
| Enumeration.NoteRecord | api/lc.c:2541-2597 | each record keeps table and object count right: nobject is the total chain length |
| Enumeration.Gather | api/lc.c:2529-2535 | the table flattened lists every visible object once |
| Enumeration.SortObjects | api/lc.c:2536-2537 | a sorted permutation with keys still distinct |
| Enumeration.StrictlyIncreasing | api/lc.c:2995-3028 | sorted keys strictly increase when counters fit a word |
| Enumeration.PgStreamEnumerate | api/lc.c:2496-2600 | returns exactly the objects of the PG that reads find, sorted |
| Enumeration.EnumerationAgrees | api/lc.c:2496-2600 | an object is listed, with its data, if and only if a read of its key finds it, and that is what the history says |
| Enumeration.LcEnumerate | api/lc.c:812-922 | refuses exactly malformed or long keys; otherwise lists the objects of the PG once each, in order, as the history has them |
| Enumeration.ListingsAgree | api/lc.c:2496-2600 | two listings of a PG from one history, whatever was reclaimed or recovered between them, hold the same objects under known counters |
| Enumeration.ListingsEqual | api/lc.c:2496-2600 | and are the same list when no counter overflows its word |
| BatchCommit.StepInv | api/lc.c:644-738 | every step of any writer or flusher keeps the protocol invariant |
| BatchCommit.CountsInv | api/lc.c:677-723 | iocount, synccount and buffull are always the number of threads between their increments and decrements |
| BatchCommit.DurableStays | api/lc.c:644-738 | a record in synced NVRAM or on flash stays in one of them through every later flush and NVRAM generation |
| BatchCommit.SuccessIsDurable | api/lc.c:1063-1196 | a call that answers success without having waited on fullcv has its record in synced NVRAM or on flash then and ever after |
| BatchCommit.AllDurable | api/lc.c:1063-1196 | with no failed flash write every success is durable |
| BatchCommit.FailureIff | api/lc.c:1063-1196 | a call answers failure if and only if its write failed, its own sync failed, or it was woken when the last step to set syncstatus had set it to failure |
| BatchCommit.AllSucceed | api/lc.c:1063-1196 | where no device fails and no write is refused, every call that answers answers success and is durable |
| BatchCommit.FieldsAre | api/lc.c:1063-1196 | syncoff, buffer and flash after any run, from its steps alone: the last completed sync since the last publication, the records since the last NVRAM reset, those at a successful flash write |
| BatchCommit.SyncServesAll | api/lc.c:1098-1111 | a call at or below the last completed sync answers success at its next step and syncs nothing; a call beyond it cannot answer yet |
| BatchCommit.WakeAnswers | api/lc.c:1116-1157 | a woken call answers success if and only if the last step by any thread that set syncstatus was a sync that got anywhere or a successful flash write |
| BatchCommit.OnFlashIff | api/lc.c:2134-2152 | a record is on flash if and only if a flash write succeeded after it was appended; until then NVRAM is synced up to its end if and only if some step since the append synced that far |
| BatchCommit.SuccessAppended | api/lc.c:677-723 | every call that answers success has appended its record before |
| BatchCommit.FalseSuccessIff | api/lc.c:1116-1196 | a success answer is false if and only if the call was woken from fullcv and since its append no flash write succeeded and no step synced NVRAM up to its record |
| BatchCommit.WokenFalselyIff | api/lc.c:1116-1157 | the schedules in which a woken call answers success falsely, exactly, in terms of the steps alone |
| BatchCommit.FalseSuccess | api/lc.c:1116-1184 | a run in which a flash write fails, a later partial sync resets the status, and the woken writer reports success though its record is on neither medium |
| BatchCommit.SameGeneration | api/lc.c:1089-1108 | a thread compares syncoff with an offset of the present buffer generation only, and no flash write is under way then |
| BatchCommit.AssertionsHold | api/lc.c:2134-2152 | the assertions in the code hold: counters, synccount 0 through the whole flash write, nobody inside the sync when one enters |
| BatchCommit.WaiterHasFlusher | api/lc.c:1116-1157 | a thread waiting on fullcv always has exactly one thread flushing, and only the broadcast by that thread ends the wait |
| BatchCommit.CallCanReturn | api/lc.c:1063-1196 | from every reachable state every call can still answer, with no device failing from then on and no sync starting while writes are under way: there is no deadlock |
| BatchCommit.WaiterCanWake | api/lc.c:1116-1157 | from every reachable state a waiter on fullcv can still be woken by steps in which no device fails |
| BatchCommit.SyncOnlyWithRoom | api/lc.c:1145-1158 | no sync starts while a writer waits to flush the full buffer |
| Trx.OldestIsOldest | api/lc.c:1743-1791 | with each field loaded once, the scan returns no more than any transaction that stays current or previous of a tracked thread, whatever the threads do meanwhile |
| Trx.ReloadLosesMinimum | api/lc.c:1784-1786 | an interleaving in which the second load of min loses an active transaction |
| Trx.ScanSafeIff | api/lc.c:1775-1791 | the scan is safe if and only if each field is loaded once |
| Trx.LosesIff | api/lc.c:1784-1786 | a scan that loads twice returns more than a transaction that stayed tracked if and only if a store between the two loads of some min raised the field beyond it when the minimum was not, and nothing later brought the minimum back |
| Trx.FoundIsGenuine | api/lc.c:1775-1791 | the scan returns no transaction, or one that some thread had as current or previous while it ran, or 0 if some thread ended one while it ran |
| Trx.NothingFound | api/lc.c:1775-1791 | it returns no transaction if no thread has one throughout |
| Trx.StillIsMinimum | api/lc.c:1775-1791 | it returns exactly the smallest current or previous transaction if no thread moves, in one load or two |
| Trx.ScanAdvances | api/lc.c:1781-1788 | it can always go on, and ends after at most six loads for each thread, whatever the threads do |
| Trx.TrackedUntil | api/lc.c:1743-1756 | a transaction stays current or previous at every store until its thread ends it or begins a second other one, and is dropped then |
| Trx.TrackedSpared | api/lc.c:2334-2339 | reclamation acting on such a scan for each round deletes no SO that holds a record of a transaction that stayed tracked |
| Nvram.OffIsBytesAndHeaders | api/nvr_svc.c:689-742 | nso_off is the bytes appended plus one header per block, however they were split |
| Nvram.OffFormula | api/nvr_svc.c:689-742 | n bytes take n + M*ceil(n/(B-M)), unless an empty append opened a block in vain |
| Nvram.SpaceAvailable | api/nvr_svc.c:744-770 | computes the final offset of the append and compares it with the limit |
| Nvram.SpaceCheckExact | api/nvr_svc.c:744-770 | the offset the check predicts is the one nvr_buf reaches |
| Nvram.CapacityFits | api/nvr_svc.c:256-259 | bytes within the advertised capacity always fit, headers included |
| Nvram.ReadBuffer | api/nvr_svc.c:412-453 | from blocks that hold chunks, stale ones behind them, returns exactly the chunks' bytes |
| Nvram.Buffer.Append | api/nvr_svc.c:689-742 | accepts exactly what fits and then holds the bytes, block by block |
| Nvram.Buffer.Fill | api/nvr_svc.c:718-741 | fills the blocks of memory with the bytes, setting used lengths |
| Nvram.Buffer.WriteBlocks | api/nvr_svc.c:879-896 | stamps blocks with increasing LSNs and writes them to the partitions in turn |
| Nvram.Buffer.SyncStep | api/nvr_svc.c:842-926 | one device write; a split stops at the last block boundary and moves strictly forward |
| Nvram.Buffer.Sync | api/nvr_svc.c:775-942 | without interference, the unaligned form makes everything durable and the aligned form progresses to a boundary |
| Nvram.Buffer.WriteSynced | api/nvr_svc.c:646-684 | on a free buffer accepted bytes are appended and durable, and a refused write changes no bytes but keeps the mutex; on a held buffer the call does not return |
| Nvram.Buffer.Reset | api/nvr_svc.c:304-326 | on a free buffer rewriting block 0 alone empties it on the device too, if a block fits at all; on a held buffer the call does not return |
| Nvram.Buffer.Rebuild | api/nvr_svc.c:503-601 | merging the partitions picks the newest version of each block, and those hold what was synced |
| Nvram.Buffer.LargestLsn | api/nvr_svc.c:543-587 | the next LSN is beyond every block on the device |
| Nvram.Buffer.Restart | api/nvr_svc.c:503-601 | from the device alone, held or not, returns exactly the bytes synced since the last reset and starts empty and free |
| Nvram.RunBuffer | api/nvr_svc.c:304-942 | in any sequence of synced writes, resets, restarts and foreign syncs: every restart returns the bytes since the reset before it; a write or reset never returns if and only if a call since the last restart was refused; otherwise it is done if and only if bytes and headers fit |
| Nvram.OneTooLong | api/nvr_svc.c:660-672 | for every write that does not fit an empty buffer: it is refused, and neither a write nor a reset after it returns, but a restart does |
| Nvram.AllDoneIff | api/nvr_svc.c:646-684 | no call of a run is refused or stuck if and only if every operation passes its space check behind the bytes offered since the last reset |
| Nvram.CapacityAffordable | api/nvr_svc.c:256-259 | a run whose bytes since the last reset stay within the advertised capacity, and below it for an empty write, is such a run |
| NvramSync.StepInv | api/nvr_svc.c:775-942 | every step of any thread keeps the sync invariant |
| NvramSync.SyncoffMonotone | api/nvr_svc.c:921-926 | nso_syncoff never decreases |
| NvramSync.SyncGuarantee | api/nvr_svc.c:787-941 | at most one thread is inside; a returned unaligned sync leaves nso_syncoff at or beyond the caller's original offset |
| NvramSync.AlignedProgress | api/nvr_svc.c:866-877 | an aligned sync reaches the offset or moves strictly forward to a block boundary |
| NvramSync.SplitsOnce | api/nvr_svc.c:866-877 | a caller splits at most once |
| NvramSync.SplitsIff | api/nvr_svc.c:860-877 | a sync stops short exactly if the data ends inside a block and a block boundary lies beyond what is synced |
| NvramSync.ResultIsSyncoff | api/nvr_svc.c:921-941 | what a sync returns is the sync offset at that moment |
| NvramSync.SyncCanReturn | api/nvr_svc.c:775-942 | from every reachable state every sync under way can still return |
| NvramSync.AppendCanBeSynced | api/nvr_svc.c:775-942 | from every reachable state more can be appended and everything appended be synced |
| NvramDevice.StepInv | api/nvr_svc.c:689-942 | every append, call, sync step and foreign sync keeps memory, device and sync offset in step |
| NvramDevice.PutHolds | api/nvr_svc.c:879-896 | blocks written from memory that has moved on leave the device holding all bytes up to the last block written, with LSNs in order |
| NvramDevice.CallerDurable | api/nvr_svc.c:787-941 | once an unaligned sync returned, the device holds the bytes appended up to its caller's offset, then and ever after |
| NvramDevice.SyncCanReturn | api/nvr_svc.c:775-942 | from every reachable world every sync under way can still return, through stamping, device write and publication |
| NvramDevice.LastCopyKept | api/nvr_svc.c:883-896 | with two partitions a sync never touches what the sync before it wrote |
| NvramDevice.Rebuild | api/nvr_svc.c:484-601 | accepts the device if and only if no checksum fails, and then reads back exactly what it holds |
| NvramDevice.PutSoundIff | api/nvr_svc.c:883-896 | a write leaves the device acceptable if and only if it ends with a whole block or nothing was appended since its checksum |
| NvramDevice.AlwaysSoundIff | api/nvr_svc.c:883-896 | a restart would accept the device at every moment of a run if and only if every write of the run is of that kind |
| NvramDevice.TornBlock | api/nvr_svc.c:883-896 | a run in which a sync returns to its caller and the device it leaves is refused |
| Codec.RecordRoundTrip | api/lc.c:2879-2893 | a record is read back from its bytes wherever they lie |
| Codec.ParseLog | api/lc.c:2255-2282 | the scan loop recovers the records of an SO from its bytes |
| Codec.ParseSo | api/lc.c:2793-2823 | header and records of a whole SO |
| Codec.ThroughNvram | api/lc.c:2108-2118 | records written one by one to the NVRAM buffer come back after a restart as the same SO, none refused within the capacity |
| LruMap.TlMap.InsertLru | api/fdf_tlmap.c:756-767 | the entry becomes the head of a well-linked list |
| LruMap.TlMap.RemoveLru | api/fdf_tlmap.c:769-783 | the entry leaves a well-linked list |
| LruMap.TlMap.UpdateLru | api/fdf_tlmap.c:785-791 | the entry moves to the head |
| LruMap.TlMap.FindPme | api/fdf_tlmap.c:831-855 | finds the entry of the key if and only if the map has one |
| LruMap.TlMap.Refill | api/fdf_tlmap.c:81-95 | a hundred new entries on the free list, the map unchanged |
| LruMap.TlMap.Insert | api/fdf_tlmap.c:268-284 | a new entry in front of its chain and of the list, the others unchanged |
| LruMap.TlMap.Drop | api/fdf_tlmap.c:810-829 | an entry leaves its chain and the list and goes to the free list |
| LruMap.TlMap.ReplaceLru | api/fdf_tlmap.c:793-829 | the entry nearest the tail that is unpinned and not the new one goes |
| LruMap.TlMap.Create | api/fdf_tlmap.c:244-296 | refuses an existing key; otherwise adds it, evicting the victim when over the limit, and hands the victim over |
| LruMap.TlMap.Set | api/fdf_tlmap.c:336-401 | replaces contents and moves to the front, or adds as create does; returns the old contents and the victim |
| LruMap.TlMap.Get | api/fdf_tlmap.c:404-457 | returns the contents and moves a hit to the front under a limit |
| LruMap.TlMap.Update | api/fdf_tlmap.c:299-333 | changes an existing entry only |
| LruMap.TlMap.AddRef | api/fdf_tlmap.c:461-521 | changes one reference count |
| LruMap.TlMap.Delete | api/fdf_tlmap.c:643-680 | removes the key if present |
| LruMap.TlMap.Clear | api/fdf_tlmap.c:197-220 | walking only the list empties every bucket and returns every entry to the free list |
| LruMap.AfterRecent | api/fdf_tlmap.c:785-791 | with a limit every operation keeps the list in order of last use |
| LruMap.VictimIsOldest | api/fdf_tlmap.c:800-806 | the victim was used longer ago than every other unpinned entry but the new one |
| LruMap.AfterMap | api/fdf_tlmap.c:244-457 | each operation is the plain map operation, but for the key an eviction takes |
| LruMap.RunMap | api/fdf_tlmap.c:244-680 | any feasible run: memory follows the list functions and the plain map, reference counts included, every call answers as the plain map does and hands over its victim; with a limit the list is the recency order and the limit holds, without one no use moves an entry |
| ClockMap.ChoiceIs | api/cmap.c:795-812 | the sweep ends before the end of the second round at the first entry from the hand that is neither pinned nor referenced, or else the first unpinned |
| ClockMap.SweepStopsIff | api/cmap.c:803-808 | the sweep ends if and only if some entry is unpinned, and then within two rounds |
| ClockMap.CMap.Sweep | api/cmap.c:795-812 | the loop passes exactly the entries that the clock passes and clears exactly their bits |
| ClockMap.CMap.ReplaceLru | api/cmap.c:795-836 | the entry that has had its second chance goes; the other entries, the bits after the sweep and the hand on its successor stay |
| ClockMap.CMap.Add | api/cmap.c:275-300 | a new entry, pinned and unreferenced, in front; the clock's choice goes when the map was full; bits and hand follow |
| ClockMap.CMap.Create | api/cmap.c:261-313 | refuses an existing key and changes nothing, otherwise adds |
| ClockMap.CMap.Set | api/cmap.c:351-415 | replaces contents and sets the reference bit, or adds; returns the old contents |
| ClockMap.CMap.Get | api/cmap.c:418-467 | returns the contents, pins the entry and sets its bit; order and hand stay |
| ClockMap.CMap.Update | api/cmap.c:316-348 | changes an existing entry and sets its bit |
| ClockMap.CMap.AddRef | api/cmap.c:488-537 | changes one reference count, no bit and not the hand |
| ClockMap.CMap.Delete | api/cmap.c:639-674 | removes the key if present with its bit; the hand stays on its entry or moves off the one that goes |
| ClockMap.TickMap | api/cmap.c:261-674 | each operation is the plain map operation, but for the unpinned key that an eviction takes by the second chance rule, and keeps a limit |
| ClockMap.TickMoves | api/cmap.c:786-823 | order, reference bits and hand after each operation: exactly a hit is marked, an entry that goes takes only itself, the hand stays on its entry or the next, a sweep clears the bits it passes |
| ClockMap.RunClock | api/cmap.c:261-674 | any feasible run: entries, bits and hand follow the clock, every call answers as the plain map does, reference counts included, and hands over its victim, the limit holds |
| Lists.TableInsert | api/cmap.c:98-118 | taking a free entry into a bucket keeps chains, free list and membership right |
| Lists.TableDrop | api/cmap.c:815-836 | freeing an entry keeps them right |
| Quota.NeverOverGranted | api/fdf.c:1324-1358 | in every interleaving of checked reservations and releases, granted bytes never exceed the limit |
| Quota.RunWithinLimit | api/fdf.c:1324-1358 | in general they exceed it by no more than was added without the check |
| Quota.SizeIsGrantedAndPending | api/fdf.c:1324-1358 | current_size is what is granted plus what is waiting to be taken back |
| Quota.Quiescent | api/fdf.c:1324-1358 | with no call under way, size and object count are exactly those of the granted calls |
| Quota.RefusedIff | api/fdf.c:1334-1345 | a checked reservation is refused if and only if it does not fit beside granted and pending bytes |
| Quota.AnsweredIff | api/fdf.c:1324-1358 | a call that is through answers 0 if and only if there is a limit, the size with its bytes added was over it, and it did not ask for the check or asked for more space |
| Quota.SpuriousRefusal | api/fdf.c:1334-1345 | a run in which a reservation that fits is refused |
| MixHash.MixBijective | api/cmap_hash.c:56-70 | mix64 is a bijection on triples of words, with an explicit inverse on both sides |
| MixHash.MixIs | api/cmap_hash.c:56-70 | the twelve lines are one rule, turned over the three words, with a table of shifts |
| MixHash.Mix64 | api/cmap_hash.c:56-70 | the twelve lines compute it |
| Words.ShrIs | api/cmap_hash.c:56-70 | a shift right divides by a power of two |
| Words.ShlIs | api/cmap_hash.c:56-70 | a shift left multiplies by one, modulo the word |
| Words.XorBitsIs | api/cmap_hash.c:56-70 | exclusive or is bit by bit |
| MixHash.AssembleWord | api/cmap_hash.c:126-136 | adding eight shifted bytes is a little-endian load |
| MixHash.AddDown | api/cmap_hash.c:150-179 | the fall-through switch adds the remaining bytes as one word |
| MixHash.HashStateIs | api/cmap_hash.c:111-183 | the final state byte by byte: where it starts, the word and place that every byte of the key goes to, and the length in c |
| MixHash.CmapHash | api/cmap_hash.c:111-183 | aligned or not, the hash is the c of that state |
| MixHash.OneBlockDiffers | api/cmap_hash.c:111-183 | keys of one length that differ within one 24-byte block, or after the last whole one, end in different states |
| MixHash.TailsDiffer | api/cmap_hash.c:150-183 | different keys that agree up to a multiple of 24 bytes and then have under 24 more, of equal or different lengths, end in different states |
| MixHash.ShortKeysDiffer | api/cmap_hash.c:150-183 | in particular any two different keys under 24 bytes |

## Left out

- Device and operating-system failures other than a failed flash write or NVRAM sync in `BatchCommit.dfy`; allocation failures.
- Crashes inside one NVRAM write: each complete NVRAM write, NVRAM reset, SO write and SO delete is one step.
- What a crash leaves in a one-stream container, and multi-record writers there (write_records_one_spc).
- Spurious wakeups on fullcv, whose wait is not in a loop; fairness in lc_sync_buf.
- Concurrent callers of the multi-stream container: each call of `Lc` runs alone, as under the container lock, but for the order in which overlapping fast writers reach buffer and NVRAM, which `FastWriters.dfy` treats.
- Locks, statistics, logging, properties and the lookup of containers; the PG hash table and the stream list are a map and a sequence.
- The trx revocation files of recovery (trxreversions, trxrevdistribute): the set of reverted transactions is a parameter.
- Iteration over all PGs in lc_enum_next, and enumeration in the two maps.
- Checksum collisions (a checksum tells any two blocks apart), formatting and allocation of NVRAM buffers: one buffer per stream. Outside `NvramDevice.dfy` a completely written block is valid.
- A refused NVRAM write in `BatchCommit.dfy` fails its call only; that it keeps the buffer's mutex is in `Nvram.dfy`, so there are runs more, not fewer.
- NVRAM syncs that fail on the device, after which the service is disabled; resets while syncs are under way.
- Threads entering or leaving the list during a trxoldest scan: the list lock excludes them; loads and stores are sequentially consistent.
- Limits.ReclaimSafe: speaks of keys with a known counter; the other keys are the exception that Limits.ReclaimSafeIff states.
- Runs.CrashIn: of a batch cut short it says that some prefix landed, not which; of reads under the all-ones counter nothing is said.
- Keys and contents of the two maps are a number and a byte sequence; an entry's address is an index and each field of all entries one sequence, so aliasing is kept but memory layout is not.
- Callbacks of the maps: the evicted entry is returned instead. CMapClear, which leaves the hand behind, and destruction.
- 64-bit wrap-around of the quota counters.
