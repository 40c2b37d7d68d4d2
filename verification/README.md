# A verified model of cynamodb's storage core

cynamodb is a DynamoDB-compatible server written in C++. This project models, in Dafny, the part of it that has
to be right for stored data to be right, and proves what that part promises:

- the log-structured storage engine: memtables, log segments, flush, compaction, manifest, crash and recovery,
  as a state machine over the lock-held regions, and its public operations as a class;
- the readers over its levels, pagination, and the in-memory engine that has to answer alike;
- three concurrency kernels: group commit, the ring queue, and the striped-lock transaction manager;
- the skiplist, with its nodes and pointers;
- the byte formats: keys, records, log records, SSTables, the manifest, and canonical numbers;
- secondary-index maintenance, and update expressions from their text to the item they produce.

`dafny verify dfyconfig.toml` checks all of it.

## Main results

| question | answer |
|---|---|
| What survives a crash? | `LsmTheorems.CrashSafety`, `LsmRestarts.EngineComesBack`, `LsmLosses.RecoveryLoses` |
| What does `get` return, in any interleaving? | `LsmTheorems.Refinement`, `LsmTheorems.StepIsVisibleOnlyAsItsWrite` |
| Does the order of files survive a restart? | `LsmTheorems.PrecedenceSurvivesRestart`, `LsmOpening.ManifestReopens` |
| When may compaction drop tombstones? | `LsmCompaction.PurgeSoundIff`, `LsmCompaction.MergePreservesStore` |
| What do scans and pages list? | `Listings.ScanListsIffStartFits`, `EnginesAgree.EveryPage`, `EnginesAgree.AnswerAlike` |
| Is every queued value delivered once? | `RingQueue.PromiseIffTwoCells` |
| Are transactions atomic, and do they end? | `Transactions.Serialisable`, `Transactions.StoreHoldsLastWrites`, `Transactions.NoDeadlock` |
| When is a committed record durable? | `GroupCommit.ReturnIsDurable`, `WalBytes.CutReplay` |
| Do keys sort as their values? | `KeyCodec.KeysOrder`, `KeyCodec.NumberKeys`, `KeyCodec.HashPrefixIff` |
| Do the formats lose anything? | `RecordCodec.RoundTripIff`, `SSTables.FileRoundTrip`, `ManifestFiles.RoundTripIff` |
| Do indexes agree with their table? | `TransactWrites.AgreementOfAll`, `Indexes.WriteImagesIff`, `Indexes.AgreementContinuesIff` |
| Is TransactWriteItems all or nothing? | `TransactWrites.TransactWriteItems`, `TransactWrites.PhasesHaveEffect` |
| What does an update expression do? | `UpdateExpressions.ApplyUpdate`, `UpdateMeaning.AddMeans`, `UpdateMeaning.DeleteMeans`, `UpdateTokens.SpelledIsRead` |

## How the model is built

- Code that changes state in place is a class or a method with loops, proved against a specification function:
  `LsmEngine`, `MergedReader`, `MemoryEngine`, `Skiplist`, `SSTableWriter`, `Manifest`, `Reader`, `WriteAheadLog`,
  `LockFreeQueue`, `IndexedTable`, `Applier`, and the methods around them.
- Code that runs concurrently is a state machine with a datatype of atomic steps, a function `Do`, a predicate
  `Enabled` and runs as sequences of steps; theorems about runs quantify over all of them.
- In the engine's state machine a step is a region that the source runs under its lock, or one effect on the disk.
  Log segments have a synced length, and a crash cuts every segment anywhere at or behind it.
- The engine's invariant has three parts: a sound catalogue (`Formed`) and positions that fit together (`Booked`), in
  every run; and at each key for itself, layers that hold what the history says (`HeldAt`).
- Integers are unbounded, and widths are written out where they matter: 32-bit lengths, 64-bit offsets and indexes.

## Promises that need a condition

Each of these is an if-and-only-if over all inputs; the lemma named second is a case on the failing side.

- The engine holds at a key what its history says when each memtable takes the records of that key
  (`LsmTheorems.StepHoldsIff`). Recovery replays the whole log into one memtable, which ignores new keys past
  2,000,000, and then deletes the log; so an engine comes back with its history at every key that is not forgotten
  (`LsmRestarts.EngineComesBack`, `LsmLosses.RecoveryLoses`), and fewer distinct keys in each replayed log suffice
  (`LsmRestarts.ReplaysDecide`). It comes back at all when its manifest is within 256 MiB.
- The memtable also ignores keys over 1 MiB, with the table's name, and put does not say so
  (`LsmTheorems.StepIsVisibleOnlyAsItsWrite`, `EnginesAgree.LongKeyDiffers`).
- A reader lists exactly the range asked for when the start key fits the prefix (`MergedReaders.StartFitsIsExact`,
  `MergedReaders.MisfitLoses` for every key that does not); start keys taken from a previous page always do.
- The ring queue needs two cells (`RingQueue.PromiseIffTwoCells`, `RingQueue.SingleCellLoses`).
- The two engines filter alike unless a binary condition is compared (`Paging.ConditionsAgreeIff`,
  `Paging.BinaryConditionDiffers`): the LSM engine's equality has no case for that type.
- Tombstones may be dropped when they hide nothing below (`LsmCompaction.PurgeSoundIff`,
  `LsmCompaction.PurgeNeedsTheBottom`); the engine drops them only when nothing is below.
- A write keeps an index the image of the table when it does not clash with another item's entry
  (`Indexes.WriteImagesIff`). A write that moves an item's key may pass unnoticed for a while, but some later requests
  on that key lose its entry unless the item is in no index (`Indexes.AgreementContinuesIff`, `Indexes.MovedKeyRun`).
- Number keys sort as the doubles and are one key when the doubles are equal, but for the two zeros, which get two keys
  (`KeyCodec.NumberKeys`, `KeyCodec.DoublesOrder`); the comment in key_codec.cpp promises numeric order.
- Values survive the record codec when their lengths fit in 32 bits (`RecordCodec.RoundTripIff`,
  `RecordCodec.LongStringIsLost`).
- `save` can write a manifest that `load` refuses for its size (`ManifestFiles.RoundTripIff`,
  `ManifestFiles.SavedButRefused`).
- `normalize_number` stops reading an exponent once it is past 100000, so very long exponents change the number
  (`Numbers.ValueKeptIff`, `Numbers.LongExponentChanges`) and very large ones are not final (`Numbers.IdempotentIff`,
  `Numbers.LargeExponentMoves`). Its comment promises canonical text for all numbers; the model follows the code.

## Model

| member | source | states |
|---|---|---|
| LsmTheorems.StepHoldsIff | src/engine/lsm/lsm_engine.cpp:305-888 | every enabled step (write, sync, commit call and return, each stage of flush, compaction and recovery, a failed publish, a crash that cuts each log anywhere behind its synced part) leaves memtables, log segments and files holding at a key what the history says there, if and only if the memtable takes what the step puts into it at that key |
| LsmTheorems.StepKeepsIff | src/engine/lsm/lsm_engine.cpp:305-888 | and so for all keys together: the invariant is kept if and only if the memtable takes all that the step puts into it |
| LsmTheorems.ReachableSound | src/engine/lsm/lsm_engine.cpp:305-888 | in every run, even one that loses records: the catalogue is sound, its files exist, the background threads hold what they are about to publish; segments, history, synced lengths, acknowledged and waiting writers fit together |
| LsmTheorems.ReachableHeld | src/engine/lsm/lsm_engine.cpp:305-888 | after any interleaving of steps from an empty directory, with any number of crashes, what is held at a key is what the history says there, as long as the memtables take the records of that key |
| LsmTheorems.ReachableHolds | src/engine/lsm/lsm_engine.cpp:305-888 | the whole invariant holds after any such interleaving, as long as every memtable takes what it is given |
| LsmTheorems.HeldRefines | src/engine/lsm/lsm_engine.cpp:466-486 | where a running engine holds what the history says, the newest-to-oldest lookup equals the plain map of the locked writes |
| LsmTheorems.Refinement | src/engine/lsm/lsm_engine.cpp:466-486 | in every interleaving get answers as one plain map updated by the locked writes in order, at each key whose records the memtables took: the item of the last put of the key, nothing after a delete or before any write |
| LsmTheorems.StepIsVisibleOnlyAsItsWrite | src/engine/lsm/lsm_engine.cpp:437-888 | in every reachable interleaving, whatever was lost before, and for every key: get before and after any step differs only by the write that the step makes, and not at all by a write that the memtable does not take; rotation, flush, compaction and file deletion are invisible |
| LsmTheorems.CrashLosesOnlyUnacknowledged | src/engine/lsm/lsm_engine.cpp:346-403 | after any run a crash is possible at any cut, leaves a prefix of the history, and that prefix contains every write whose commit returned |
| LsmTheorems.QuietRun | src/engine/lsm/lsm_engine.cpp:346-403 | steps without client writes, further crashes among them, only ever shorten the history, and never below the acknowledged writes |
| LsmTheorems.CrashSafety | src/engine/lsm/lsm_engine.cpp:305-403 | crash after any run, recover through any number of crashes in any stage of recovery: the history left is a prefix that contains every write whose commit had returned; and at each key whose records the memtables took, whatever became of other keys, what is served is what the last write of that history to the key left |
| LsmTheorems.PrecedenceSurvivesRestart | src/engine/lsm/lsm_engine.cpp:305-325 | in every reachable state sequence numbers strictly descend along the deque and lie below next_sequence, the saved and the live manifest sort to the same order, every file exists, and opening them in that order gives the live deque |
| LsmTheorems.RestartFindsItsFiles | src/engine/lsm/lsm_engine.cpp:305-325 | no reachable crash state has a manifest that names a missing file, so loading never has to give up |
| LsmProgress.RecoveryFinishes | src/engine/lsm/lsm_engine.cpp:305-403 | from any reachable state, whatever stage of recovery it is in and whatever it lost, some steps without writes or crashes lead to a serving engine; they have room if and only if one memtable can hold the log that is still to be replayed, and start with what it took |
| LsmRestarts.EngineComesBack | src/engine/lsm/lsm_engine.cpp:278-403 | after any run some continuation without writes or crashes serves again; the code can take it if and only if a manifest still to be read is within 256 MiB; at each key for which the run had room it answers a get from exactly the history the run had left if and only if the key is not forgotten: logged, not taken by the recovered memtable, and answered differently by the files |
| LsmRestarts.StaysDown | src/engine/lsm/lsm_engine.cpp:278-285 | with a manifest that load refuses, no number of restarts brings the engine back |
| LsmRestarts.ReplaysDecide | src/engine/lsm/lsm_engine.cpp:437-464 | every write and replay of a run has room if keys are valid and each replayed log has fewer than 2,000,000 distinct keys, because rotation empties a live memtable long before it is full |
| LsmLosses.RecoveryLoses | src/engine/lsm/lsm_engine.cpp:346-403 | a run of 2,000,001 puts, every one committed and none flushed, a crash that cuts nothing, and a recovery after which get does not find one of them |
| LsmInvariants.RefillIff | src/engine/lsm/lsm_engine.cpp:363-381 | the memtable that recovery fills is what the segments say if and only if they have at most 2,000,000 distinct keys, none empty or over 1 MiB |
| Memtables.FillIff | include/cynamodb/engine/lsm/skiplist.hpp:81-115 | records put into a memtable one by one leave the last record of each key if and only if one memtable can hold them all |
| Memtables.FillIsPart | include/cynamodb/engine/lsm/skiplist.hpp:81-115 | what a memtable does keep it keeps as the log has it |
| LsmProgress.NextCheckpointStep | src/engine/lsm/lsm_engine.cpp:383-402 | each checkpoint step is enabled, keeps the invariant, and brings the checkpoint closer to its end or hands over to the deletion of old segments |
| LsmOpening.OpensByRunning | src/engine/lsm/lsm_engine.cpp:305-403 | an undisturbed recovery, orphan files removed and old segments deleted, is a run that ends in one stated engine, and that engine has the invariant if and only if no key is forgotten |
| LsmOpening.ServesUnlessForgotten | src/engine/lsm/lsm_engine.cpp:346-403 | an engine that has just recovered answers a get as the surviving history does if and only if the key is not forgotten |
| LsmOpening.NothingForgotten | src/engine/lsm/lsm_engine.cpp:346-403 | a log that one memtable can hold leaves no key to forget |
| LsmOpening.ManifestReopens | src/engine/lsm/lsm_engine.cpp:305-325 | in every reachable state the catalogue read back from the manifest's bytes is the saved one, and opening its files in order gives the live deque |
| LsmRecovery.CrashContents | src/engine/lsm/lsm_engine.cpp:346-403 | at each key for itself, the files and the replay of whatever the crash left of each segment stand for a prefix of the history |
| LsmRecovery.CrashBooks | src/engine/lsm/lsm_engine.cpp:346-403 | a crash in any phase, recovery included, is possible at any cut and leaves at least the acknowledged part of the history |
| LsmRecovery.CrashHolds | src/engine/lsm/lsm_engine.cpp:346-403 | and a directory that recovers, at each key that was held, to the surviving history |
| LsmRecovery.ReplayHoldsIff | src/engine/lsm/lsm_engine.cpp:346-387 | opening a fresh generation with the replayed memtable as the checkpoint to write keeps what is held at a key if and only if the memtable took the key |
| LsmRecovery.CheckpointDoneHolds | src/engine/lsm/lsm_engine.cpp:383-402 | once the checkpoint is complete and synced, replaying any old segment underneath it would change nothing |
| LsmRecovery.DeleteSegmentHolds | src/engine/lsm/lsm_engine.cpp:399-402 | deleting the old segments one by one, in any order, loses nothing even if it is interrupted |
| LsmSteps.WriteHolds | src/engine/lsm/lsm_engine.cpp:437-464 | a locked put or remove, with the sync and rotation it may end in, keeps what is held at every key, its own included if the memtable takes it |
| LsmSteps.IgnoredBreaks | src/engine/lsm/lsm_engine.cpp:437-464 | and does not keep its own key otherwise: the log has the record and no memtable has it |
| LsmSteps.WriteIsSeen | src/engine/lsm/lsm_engine.cpp:437-464 | get sees of a write the write itself, if the memtable takes it, and nothing else, whether it rotates or not |
| LsmSteps.RotateHolds | src/engine/lsm/lsm_engine.cpp:453-464 | rotation moves the memtable to the immutable ones and opens a segment without changing what is held anywhere |
| LsmThreads.CommitReturnBooks | src/engine/lsm/wal.cpp:120-144 | a commit that returns acknowledges only records that are on the device |
| LsmThreads.FlushPublishShapes | src/engine/lsm/lsm_engine.cpp:679-698 | publishing a flushed file, with compactions running beside it, keeps the catalogue sound and the compaction's run in place |
| LsmThreads.FlushPublishHolds | src/engine/lsm/lsm_engine.cpp:679-698 | and moves the oldest frozen memtable under the others without changing what is held anywhere |
| LsmThreads.FlushUnlinkHolds | src/engine/lsm/lsm_engine.cpp:700-704 | deleting the flushed segment loses nothing, because its records are in the published file |
| LsmThreads.FlushPublishFailsShapes | src/engine/lsm/lsm_engine.cpp:683-691 | a flush whose manifest cannot be saved takes its file back out of the catalogue |
| LsmCompaction.SizeTierIff | src/engine/lsm/lsm_engine.cpp:270-274 | size tier t holds exactly the files of 4^t up to 4^(t+1) units of one mebibyte, a unit begun counting in full |
| LsmCompaction.SelectRunIsOldest | src/engine/lsm/lsm_engine.cpp:751-770 | compact takes the oldest run of four neighbouring files of one size tier, and takes none only if there is none |
| LsmCompaction.MergePreservesStore | src/engine/lsm/lsm_engine.cpp:806-831 | replacing a contiguous run by its merge leaves every lookup; dropping tombstones is sound when nothing lies below the run |
| LsmCompaction.PurgeSoundIff | src/engine/lsm/lsm_engine.cpp:771-822 | whatever files lie above and below a run, dropping the tombstones of its merge leaves every lookup if and only if no key that they hide from below, and that nothing above decides, is live below |
| LsmCompaction.PurgeNeedsTheBottom | src/engine/lsm/lsm_engine.cpp:771-822 | the smallest case where it fails: over one older file a purged tombstone brings a deleted item back |
| LsmCompaction.SpliceRun | src/engine/lsm/lsm_engine.cpp:862-876 | the publish loop puts the output exactly where its inputs stood |
| LsmCompaction.CompactSnapshotShapes | src/engine/lsm/lsm_engine.cpp:741-782 | taking a snapshot reserves a fresh number and records a run that stays where it is relative to newer files |
| LsmCompaction.CompactPublishShapes | src/engine/lsm/lsm_engine.cpp:835-877 | publishing a compaction keeps the catalogue sound even when flushes published newer files since its snapshot |
| LsmCompaction.CompactPublishFailsShapes | src/engine/lsm/lsm_engine.cpp:850-860 | a compaction whose manifest cannot be saved restores the catalogue as it was |
| LsmCompaction.CompactUnlinkShapes | src/engine/lsm/lsm_engine.cpp:879-886 | deleting the inputs one by one takes no file that the catalogue or the flush thread needs |
| LsmTheorems.ThreadsKeepData | src/engine/lsm/lsm_engine.cpp:639-888 | no step of a compaction, and none of a flush but its publication and the deletion of its segment, touches a log, a memtable or what the files hold together |
| Manifests.SortRebuilds | src/engine/lsm/lsm_engine.cpp:305-325 | sorting any arrangement of records with distinct sequence numbers gives the one strictly descending order |
| Manifests.PublishFlush | src/engine/lsm/lsm_engine.cpp:679-684 | adding a flushed file puts it in front of the order a restart rebuilds |
| Manifests.PublishCompaction | src/engine/lsm/lsm_engine.cpp:837-849 | removing a run and adding its output, which reuses the run's highest number, puts the output exactly in the run's place |
| Manifests.UndoCompaction | src/engine/lsm/lsm_engine.cpp:850-856 | undoing that after a failed save gives back the same order |
| Manifests.RemoveFileCounts | src/engine/lsm/manifest.cpp:48-55 | remove_file removes exactly the records of that level with that path |
| ManifestFiles.RoundTripIff | src/engine/lsm/manifest.cpp:64-199 | for every catalogue that save accepts, load of the saved bytes gives it back (each entry under the level it was listed at) if the file is within load's limit of 256 MiB, and refuses it otherwise |
| ManifestFiles.SavedButRefused | src/engine/lsm/manifest.cpp:64-150 | a catalogue that save writes and load refuses: save bounds each string but not the file |
| ManifestFiles.AcceptedArePrefixFree | src/engine/lsm/manifest.cpp:144-199 | no accepted file is a proper prefix of another, so a manifest cut short or padded is refused |
| ManifestFiles.ResaveLoads | src/engine/lsm/manifest.cpp:64-199 | whatever bytes load accepts, saving what it loaded gives a file no longer than them that loads to the same catalogue |
| ManifestFiles.NamesApart | src/engine/lsm/lsm_engine.cpp:660-660 | two files of one directory have the same name exactly when they are the same flushed or compacted file of the same number |
| ManifestFiles.NameIsShort | src/engine/lsm/lsm_engine.cpp:784-785 | the name of a 64-bit number adds at most 33 bytes to the directory |
| ManifestFiles.CatalogueDetermines | src/engine/lsm/manifest.cpp:64-108 | different catalogues are written as different manifests |
| ManifestFiles.CatalogueSurvives | src/engine/lsm/manifest.cpp:64-199 | the bytes saved for a catalogue of the engine, with the names its files have on disk, load to it and to no other |
| LsmOpening.NamesExist | src/engine/lsm/manifest.cpp:64-80 | every directory name short enough for the manifest gives names that CatalogueSurvives asks for |
| ManifestFiles.EditsAgree | src/engine/lsm/manifest.cpp:43-55 | add_file and remove_file on the stored records are the engine's catalogue operations |
| ManifestFiles.Manifest.AddFile | src/engine/lsm/manifest.cpp:43-46 | the level lists its files as before and the new one behind them, every other level lists what it did, and only this level can be new |
| ManifestFiles.Manifest.RemoveFile | src/engine/lsm/manifest.cpp:48-55 | the loop keeps exactly the other paths, in order, and the level stays listed |
| ManifestFiles.Manifest.CanSave | src/engine/lsm/manifest.cpp:64-80 | the validation loops accept exactly the savable catalogues |
| ManifestFiles.Manifest.Save | src/engine/lsm/manifest.cpp:64-108 | writes the manifest's bytes exactly when every level, path and key is within its bound, else nothing |
| ManifestFiles.Manifest.Load | src/engine/lsm/manifest.cpp:144-199 | accepts exactly the well-formed files; a missing file is no change, a refused one changes nothing |
| ManifestFiles.ReadLevels | src/engine/lsm/manifest.cpp:168-195 | the nested loading loops compute the format's meaning |
| Layers.LookupIsFind | src/engine/lsm/lsm_engine.cpp:466-486 | searching levels newest first, the first level that knows the key deciding, finds what the flattened levels hold |
| Layers.SpecIsApply | src/engine/lsm/lsm_engine.cpp:405-417 | writes applied one after another to a map are the log's last entry per key laid over it |
| Bytes.PrefixRange | src/engine/lsm/lsm_engine.cpp:206-214 | the keys with a prefix are exactly those from the prefix up to its successor; a prefix of 0xFF bytes has none |
| Bytes.FindPrefixSuccessor | src/engine/lsm/lsm_engine.cpp:206-214 | the loop from the last byte finds that successor |
| Bytes.NextString | src/engine/lsm/lsm_engine.cpp:112-152 | the keys above a start key are exactly those from the start key followed by a zero byte |
| KWayMerge.WinnerWins | src/engine/lsm/lsm_engine.cpp:155-204 | the source taken next stands on the foremost key, and on a tie is the newest one |
| KWayMerge.MergeIsStack | src/engine/lsm/lsm_engine.cpp:155-204 | the merge lists every key of its sources once, in scan order, with the entry of the newest source that has it, forward and backward |
| MergedReaders.ContributesScope | src/engine/lsm/lsm_engine.cpp:102-153 | with a start key that fits, a source is opened on exactly its keys with the prefix beyond the start key |
| MergedReaders.StartFitsIsExact | src/engine/lsm/lsm_engine.cpp:102-153 | sources offer exactly the keys in scope, whatever they hold, if and only if the start key fits: at or above the prefix going forward, not above the prefix's successor going backward |
| MergedReaders.MisfitLoses | src/engine/lsm/lsm_engine.cpp:217-233 | for every start key that does not fit there is a source that gives up before a key in scope |
| MergedReaders.PrefixedStartFits | src/engine/lsm/lsm_engine.cpp:102-153 | a start key with the prefix fits in both directions |
| MergedReaders.TopWins | src/engine/lsm/lsm_engine.cpp:155-204 | the heap's top is the source that the merge takes next |
| MergedReaders.TopKeyTaken | src/engine/lsm/lsm_engine.cpp:155-204 | after the inner loop exactly the sources standing on the top key are out of the heap |
| MergedReaders.LowestRank | src/engine/lsm/lsm_engine.cpp:155-204 | among the nodes of one key the newest source is chosen |
| MergedReaders.MergedReader.constructor | src/engine/lsm/lsm_engine.cpp:102-111 | an empty reader over a range and a direction |
| MergedReaders.MergedReader.AddSource | src/engine/lsm/lsm_engine.cpp:112-152 | a source joins with its cursor on the near side of the range |
| MergedReaders.MergedReader.Enqueue | src/engine/lsm/lsm_engine.cpp:221-233 | a source's key enters the heap unless the source is exhausted or has left the prefix |
| MergedReaders.MergedReader.TakeTopKey | src/engine/lsm/lsm_engine.cpp:155-204 | takes every node that stands on the top key and no other |
| MergedReaders.MergedReader.AdvanceAll | src/engine/lsm/lsm_engine.cpp:240-268 | each taken source moves past its key, the others stay |
| MergedReaders.MergedReader.Pop | src/engine/lsm/lsm_engine.cpp:155-204 | one turn of the loop is one row of the merge |
| MergedReaders.MergedReader.Next | src/engine/lsm/lsm_engine.cpp:155-204 | returns the next live row of the merge, skipping tombstones, or nothing exactly when none is left |
| MergedReaders.MergedScan | src/engine/lsm/lsm_engine.cpp:95-268 | read to its end, the reader returns the live rows of the merge |
| Listings.ListingUnique | src/engine/lsm/lsm_engine.cpp:571-637 | a store has one listing per range and direction |
| Listings.ScanLists | src/engine/lsm/lsm_engine.cpp:95-268 | the reader's rows are the listing of the flattened levels: every live key in range, once, in order, with its newest value |
| Listings.ScanListsIffStartFits | src/engine/lsm/lsm_engine.cpp:102-153 | that holds for every content exactly when the start key fits |
| Snapshots.RowsOfIs | include/cynamodb/engine/lsm/skiplist.hpp:74-80 | the sorted rows of a level are the level |
| EngineReads.ReadPage | src/engine/lsm/lsm_engine.cpp:571-637 | the paging loop over a reader returns the page of the matching rows the reader offers |
| EngineReads.FirstKeys | src/engine/lsm/lsm_engine.cpp:540-569 | the first keys a reader offers, at most a given number |
| EngineReads.MergeTables | src/engine/lsm/lsm_engine.cpp:799-831 | compaction's streaming loop writes, in key order, the flattened inputs, without tombstones if they are complete |
| EngineReads.LayersAnswer | src/engine/lsm/lsm_engine.cpp:571-637 | what the reader offers over levels is the listing of the plain map they stand for, whatever the layering |
| Paging.PageIsLongest | src/engine/lsm/lsm_engine.cpp:571-600 | a page is the longest prefix of the matching rows within the limit and the byte budget, never less than one row when there is one, and carries a last key exactly when rows remain |
| Paging.AnswerResumes | src/engine/lsm/lsm_engine.cpp:571-637 | reading on from any returned key gives exactly the rows behind it |
| Paging.PageResumes | include/cynamodb/engine/storage_engine.hpp:18-27 | a page with a last key is not empty, and together with what is read on from that key it is the whole answer; a page without one is the whole answer |
| Paging.PagesCover | include/cynamodb/engine/storage_engine.hpp:18-27 | following the last key until there is none ends, and the pages together are the full ordered answer, forward and backward, under any limit, filter and item sizes |
| Paging.FilterMeans | src/engine/lsm/lsm_engine.cpp:50-75 | the filter keeps, in their order, exactly the rows whose item has every attribute named in the conditions with exactly the value given there, where that is a string, a number, a boolean, null or, in the memory engine, bytes |
| Paging.AnswerPage | src/engine/lsm/lsm_engine.cpp:571-637 | a page described without filter, listing or loop: the longest stretch that fits of the rows with the prefix, past the start key, in key order, that meet the conditions |
| Paging.ConditionsAgreeIff | src/engine/lsm/lsm_engine.cpp:50-75 | the two engines filter alike on all items exactly when no condition is binary, or some condition is of a type that neither compares |
| Paging.BinaryConditionDiffers | src/engine/lsm/lsm_engine.cpp:50-63 | an item with exactly the bytes asked for, which one engine returns and the other does not |
| Tables.TablesApart | src/engine/lsm/lsm_engine.cpp:26-44 | a stored key carries a table's prefix exactly if it is that table's |
| Tables.KeysApart | src/engine/lsm/lsm_engine.cpp:26-37 | different tables and keys are stored under different keys |
| Tables.OpIsolated | src/engine/lsm/lsm_engine.cpp:488-569 | an operation changes its own table as if the table were a map of its own, and no other table |
| Tables.TableListed | src/engine/lsm/lsm_engine.cpp:601-637 | a prefix query over all tables lists the table's own listing |
| Tables.TablePage | src/engine/lsm/lsm_engine.cpp:601-637 | and its page, the last key cut back, is the page of the table |
| LsmEngines.SelectFiles | src/engine/lsm/lsm_engine.cpp:751-770 | the selection loop finds the run that SelectRunIsOldest describes |
| LsmEngines.ReplaceFiles | src/engine/lsm/lsm_engine.cpp:862-876 | the publish loop: the output takes the first input's place and the other inputs go |
| LsmEngines.MergeFiles | src/engine/lsm/lsm_engine.cpp:799-831 | the merge loop over the chosen files writes their flattened entries in key order |
| LsmEngines.ApplyRecords | src/engine/lsm/lsm_engine.cpp:370-380 | replaying records over a memtable puts them in one by one, and leaves, per key, the last record if and only if the memtable can hold them all |
| LsmEngines.ReplaySegments | src/engine/lsm/lsm_engine.cpp:346-386 | replaying the segments by ascending generation fills one memtable, with all they say if and only if it can hold that, and gives an unused next generation |
| LsmEngines.LayersAreContents | src/engine/lsm/lsm_engine.cpp:466-486 | the flattened levels of a live engine are the plain map of its history |
| LsmEngines.BatchKeys | src/engine/lsm/lsm_engine.cpp:540-569 | a batch of drop_table holds exactly the keys of the prefix between the old and the new cursor |
| LsmEngines.Checkpoint | src/engine/lsm/lsm_engine.cpp:388-397 | the checkpoint lists the recovered memtable, one record per entry |
| LsmEngines.LsmEngine.constructor | src/engine/lsm/lsm_engine.cpp:278-300 | opening a directory with the invariant, as every crash leaves it, is a run of the recovery steps without writes or crashes; the engine has the history that survived, and the invariant if and only if no key is forgotten |
| LsmEngines.LsmEngine.AppendToWal | src/engine/lsm/lsm_engine.cpp:405-417 | a record joins the active segment, and the memtable if that takes its key |
| LsmEngines.LsmEngine.RotateIfNeeded | src/engine/lsm/lsm_engine.cpp:453-464 | below the threshold nothing happens; at it the segment is synced, the memtable frozen and a segment opened |
| LsmEngines.LsmEngine.WriteLocked | src/engine/lsm/lsm_engine.cpp:437-451 | put_locked and remove_locked are the write step of the state machine |
| LsmEngines.LsmEngine.GetLocked | src/engine/lsm/lsm_engine.cpp:466-486 | the search over the levels answers as the plain map |
| LsmEngines.LsmEngine.Mutate | src/engine/lsm/lsm_engine.cpp:513-538 | one read, one decision and at most one write: the outcome and the new map are those of the mutator applied to the plain map; a write of a key over 1 MiB reports success and changes no get |
| LsmEngines.LsmEngine.Snapshots | src/engine/lsm/lsm_engine.cpp:571-600 | a scan's sources are the levels, newest first |
| LsmEngines.LsmEngine.ReadLocked | src/engine/lsm/lsm_engine.cpp:571-637 | a page of the rows the levels offer; with a start key that fits, the page of the plain map |
| LsmEngines.LsmEngine.DropTable | src/engine/lsm/lsm_engine.cpp:540-569 | the batches remove every key of the prefix, end, and leave all other keys |
| LsmEngines.LsmEngine.Put | src/engine/lsm/lsm_engine.cpp:488-497 | put is put on the plain map, and for a key over 1 MiB changes no get |
| LsmEngines.LsmEngine.Remove | src/engine/lsm/lsm_engine.cpp:499-506 | remove is remove on the plain map, and for a key over 1 MiB changes no get |
| LsmEngines.LsmEngine.Get | src/engine/lsm/lsm_engine.cpp:508-511 | get reads the table's own map |
| LsmEngines.LsmEngine.Drop | src/engine/lsm/lsm_engine.cpp:540-569 | drop_table empties the table on the plain map and keeps the invariant |
| LsmEngines.LsmEngine.Scan | src/engine/lsm/lsm_engine.cpp:571-600 | scan returns the longest stretch that fits of the table's rows past the start key, in key order |
| LsmEngines.LsmEngine.Query | src/engine/lsm/lsm_engine.cpp:601-637 | for every start key that fits, query returns the longest stretch that fits of the rows that have the prefix, lie past the start key and have every named attribute with exactly the given value (a string, number, boolean or null), in key order; for any other start key the page of what the levels offer |
| LsmEngines.LsmEngine.PublishFlush | src/engine/lsm/lsm_engine.cpp:679-698 | flush's last critical section is the state machine's step, keeps the invariant and leaves the plain map as it was |
| LsmEngines.LsmEngine.PublishCompaction | src/engine/lsm/lsm_engine.cpp:835-877 | compaction's last critical section is the state machine's step, keeps the invariant and leaves the plain map as it was |
| MemoryEngines.VisitedIsListed | src/engine/memory_engine.cpp:116-205 | the iterator range that scan and query walk is the table's listing when the start key fits |
| MemoryEngines.ReadMap | src/engine/memory_engine.cpp:116-205 | the read loop returns the page of the matching rows it visits |
| MemoryEngines.MemoryEngine.Put | src/engine/memory_engine.cpp:61-64 | put changes its table and no other |
| MemoryEngines.MemoryEngine.Remove | src/engine/memory_engine.cpp:66-72 | remove changes its table and no other |
| MemoryEngines.MemoryEngine.Get | src/engine/memory_engine.cpp:74-85 | get reads its table |
| MemoryEngines.MemoryEngine.Mutate | src/engine/memory_engine.cpp:87-109 | reads, decides and writes at most once; the outcome reports the previous item and whether anything was written |
| MemoryEngines.MemoryEngine.DropTable | src/engine/memory_engine.cpp:111-114 | drops its table and no other |
| MemoryEngines.MemoryEngine.Scan | src/engine/memory_engine.cpp:116-146 | scan returns the longest stretch that fits of the table's rows past the start key, in key order |
| MemoryEngines.MemoryEngine.Query | src/engine/memory_engine.cpp:148-205 | query returns the same as the LSM engine's, bytes being compared as well |
| EnginesAgree.CallMemory | src/engine/memory_engine.cpp:61-114 | put, remove, mutate and drop change the named table as one plain map and no other table |
| EnginesAgree.CallLsm | src/engine/lsm/lsm_engine.cpp:488-569 | any of the four calls, on a key within 1 MiB, makes the LSM engine stand for the plain map with that one operation applied |
| EnginesAgree.CallBoth | src/engine/memory_engine.cpp:61-114 | an LSM engine and a memory engine with the same tables have the same tables after the same put, remove, drop or mutate of a key within 1 MiB |
| EnginesAgree.LongKeyDiffers | src/engine/memory_engine.cpp:61-85 | a put of any longer key into two new engines is found afterwards in the memory engine only |
| EnginesAgree.QueryBoth | src/engine/memory_engine.cpp:148-205 | the same query on two such engines returns the same items and the same last key, for start keys that fit and conditions that both compare alike |
| EnginesAgree.ScanBoth | src/engine/memory_engine.cpp:116-146 | and so does the same scan, from any start key |
| EnginesAgree.GetBoth | src/engine/memory_engine.cpp:74-85 | and the same get |
| EnginesAgree.AnswerAlike | src/engine/memory_engine.cpp:61-205 | two new engines, driven by any sequence of such calls, answer any such query alike |
| EnginesAgree.EveryPage | src/engine/lsm/lsm_engine.cpp:601-637 | querying the LSM engine on from each last key until there is none ends and returns every matching item of the table, in order |
| RingQueue.StepKeeps | include/cynamodb/core/lock_free_queue.hpp:22-62 | every atomic step of every thread (a load that may see an older position, a compare-and-swap that may fail spuriously, a store) keeps the ring's invariant |
| RingQueue.ExactlyOnce | include/cynamodb/core/lock_free_queue.hpp:22-62 | with two cells or more, under every interleaving, outstanding tickets stay within the capacity, each delivery is the value of its own ticket, no ticket is delivered twice, and at rest every claimed ticket has been delivered |
| RingQueue.QuiescentContents | include/cynamodb/core/lock_free_queue.hpp:22-62 | at rest the cells hold exactly the values not yet claimed, and the other cells are free |
| RingQueue.SingleCellLoses | include/cynamodb/core/lock_free_queue.hpp:22-41 | with one cell two values are accepted and the first is overwritten |
| RingQueue.PromiseIffTwoCells | include/cynamodb/core/lock_free_queue.hpp:16-62 | the promise holds on every run exactly when the ring has at least two cells |
| RingQueue.LockFreeQueue.constructor | include/cynamodb/core/lock_free_queue.hpp:16-20 | every cell starts free for the ticket of its own index |
| RingQueue.LockFreeQueue.Enqueue | include/cynamodb/core/lock_free_queue.hpp:22-41 | running alone: appends unless the ring is full |
| RingQueue.LockFreeQueue.Dequeue | include/cynamodb/core/lock_free_queue.hpp:43-62 | running alone: removes the oldest value unless the ring is empty |
| Transactions.Validate | src/engine/transactions/manager.cpp:75-87 | the validation loop accepts exactly the item lists the manager promises to accept |
| Transactions.SameFullKeyIff | src/engine/transactions/manager.cpp:66-87 | two places have one full key exactly when they are one place, or a colon in a table name hides where the table ends; never when table names have no colon |
| Transactions.LockList | src/engine/transactions/manager.cpp:93-98 | the lock vector is strictly increasing and holds exactly the stripes of the items |
| Transactions.StepKeeps | src/engine/transactions/manager.cpp:100-121 | acquiring, writing and releasing keep mutual exclusion and the serial order |
| Transactions.SerialWrite | src/engine/transactions/manager.cpp:110-117 | a write made late has the effect it would have had in its transaction's own turn |
| Transactions.StoreHoldsLastWrites | src/engine/transactions/manager.cpp:110-117 | at every moment of every run each place of the store holds what the last write made there, in the serial order, left: the item put, nothing after a delete, and what it held at the start where no write was made |
| Transactions.ItemsAsBegun | src/engine/transactions/manager.cpp:93-121 | no step adds to, takes from or changes the items a transaction was begun with |
| Transactions.Serialisable | src/engine/transactions/manager.cpp:93-121 | any interleaving in which all transactions finish their writes is a serial run of all of them as they were begun, and each place holds what the last of them to write there left |
| Transactions.NoDeadlock | src/engine/transactions/manager.cpp:100-104 | while some transaction is unfinished, some transaction can move |
| Transactions.StepShrinks | src/engine/transactions/manager.cpp:100-121 | every move brings its transaction closer to its end and leaves the others alone |
| GroupCommit.StepKeeps | src/engine/lsm/wal.cpp:104-144 | every step of appenders and committers keeps the counters in order and the locks exclusive |
| GroupCommit.CountersChain | src/engine/lsm/wal.cpp:104-144 | in every reachable state synced <= durable <= flushed <= written, appended trails written by at most the record being counted, and nothing acknowledged is volatile |
| GroupCommit.ReturnIsDurable | src/engine/lsm/wal.cpp:120-144 | whenever commit returns, every record its caller knew of is on the device, also when another caller's sync covered it |
| WalBytes.RecRoundTrip | src/engine/lsm/wal.cpp:83-102 | a written record reads back, whatever the padding bytes |
| WalBytes.CutRecFails | src/engine/lsm/wal.cpp:166-199 | a record cut short is never returned |
| WalBytes.CutReplay | src/engine/lsm/wal.cpp:166-199 | replay of a log cut after any byte returns exactly the records that are wholly there |
| WalBytes.LogSurvivesCut | src/engine/lsm/wal.cpp:166-199 | so a segment cut anywhere replays a prefix of the writes appended to it |
| WalBytes.WriteRoundTrip | src/engine/lsm/lsm_engine.cpp:405-417 | a put or delete survives its encoding as a log record |
| WalBytes.WriteAheadLog.AppendOnly | src/engine/lsm/wal.cpp:104-109 | the file grows by exactly the record and the count by one |
| WalBytes.ReadAt | src/engine/lsm/wal.cpp:166-199 | one turn of the replay loop reads the record at a position, or stops |
| WalBytes.ReplayFile | src/engine/lsm/wal.cpp:166-199 | the replay loop returns the records of the file |
| SkiplistLinks.BeforeSplice | include/cynamodb/engine/lsm/skiplist.hpp:94-102 | the old pointers simply skip the new position |
| SkiplistLinks.SpliceLevel | include/cynamodb/engine/lsm/skiplist.hpp:99-102 | one turn of the linking loop links one more level |
| SkiplistLinks.AfterSplice | include/cynamodb/engine/lsm/skiplist.hpp:99-102 | after its last level every pointer leads to the next node of at least that height |
| Skiplists.Skiplist.constructor | include/cynamodb/engine/lsm/skiplist.hpp:33-36 | the empty list |
| Skiplists.Skiplist.Descend | include/cynamodb/engine/lsm/skiplist.hpp:85-91 | the descent stops at the last node below the key and remembers, per level, the last node before the key's place |
| Skiplists.Skiplist.Locate | include/cynamodb/engine/lsm/skiplist.hpp:85-93 | the node behind that place holds the key exactly if the list does |
| Skiplists.Skiplist.Get | include/cynamodb/engine/lsm/skiplist.hpp:42-54 | returns the live item of the key in the map the list stands for |
| Skiplists.Skiplist.IsTombstoned | include/cynamodb/engine/lsm/skiplist.hpp:55-66 | true exactly for a key whose entry is a tombstone |
| Skiplists.Skiplist.Insert | include/cynamodb/engine/lsm/skiplist.hpp:81-105 | for every drawn height: the list stays sorted and linked at every level, and the map it stands for is updated at the key, unless the key is invalid or the list is full |
| Skiplists.Skiplist.GetAllEntries | include/cynamodb/engine/lsm/skiplist.hpp:74-80 | the bottom level is the map in key order, tombstones included |
| Bytes.LessMeans | src/engine/key_codec.cpp:16-19 | one string is below another exactly when, at the first place where they part, it ends or has the smaller byte |
| KeyCodec.EscapedOrder | src/engine/key_codec.cpp:20-29 | escaped strings order as the strings, end by themselves, and leave the rest to what follows |
| KeyCodec.FlipOrders | src/engine/key_codec.cpp:35-46 | flipping the sign bit, or all bits of a negative, orders the patterns as the numbers they encode |
| KeyCodec.NumberOrder | src/engine/key_codec.cpp:35-46 | number components order as those patterns and all have eight bytes |
| KeyCodec.PartOrder | src/engine/key_codec.cpp:50-76 | component encodings are prefix-free and order as the components, types apart |
| KeyCodec.CompositeOrder | src/engine/key_codec.cpp:78-91 | composite keys order as (hash, range), and different components never share an encoding |
| KeyCodec.ValueOrder | src/engine/key_codec.cpp:50-76 | whatever follows them, the encodings of two attributes compare as the attributes do: strings and bytes as such, numbers by their double, missing attributes, bytes, numbers and strings in this order |
| KeyCodec.KeysOrder | src/engine/key_codec.cpp:78-91 | keys of several attributes compare by the first attribute in which the two items differ |
| KeyCodec.DoublesOrder | src/engine/key_codec.cpp:31-46 | patterns rank as the IEEE 754 doubles they stand for, except that negative zero ranks just below zero |
| KeyCodec.NumberKeys | src/engine/key_codec.cpp:31-76 | items whose key is a number attribute sort by the double of the number, and share a key exactly when the doubles are equal and not the two different zeros |
| KeyCodec.StringKeys | src/engine/key_codec.cpp:50-76 | items whose key is a string attribute sort by the string |
| KeyCodec.BinaryKeys | src/engine/key_codec.cpp:50-76 | items whose key is a binary attribute sort by the bytes |
| KeyCodec.TypesApart | src/engine/key_codec.cpp:50-76 | values of different key types never share an encoding, and neither extends the other |
| KeyCodec.HashPrefixIff | src/api/handlers.cpp:309-314 | an encoded hash value is a prefix of a stored item's key exactly when the item has that string, those bytes or a number with that double as its hash attribute |
| KeyCodec.SameKeyIff | src/engine/key_codec.cpp:78-91 | two items share a primary key exactly when each key attribute is the same string, the same bytes or a number with the same double in both |
| KeyCodec.AppendEscaped | src/engine/key_codec.cpp:20-29 | the loop appends the escaped bytes |
| KeyCodec.AppendNumber | src/engine/key_codec.cpp:35-46 | the loop appends the eight bytes from the top |
| KeyCodec.EncodeComponent | src/engine/key_codec.cpp:50-76 | appends the component's encoding |
| KeyCodec.EncodePrimaryKey | src/engine/key_codec.cpp:78-91 | concatenates the key components in schema order |
| RecordCodec.ValueRoundTrip | src/engine/lsm/record_codec.cpp:26-87 | every nested value decodes to itself and leaves what follows untouched |
| RecordCodec.ItemRoundTrip | src/engine/lsm/record_codec.cpp:216-260 | every attribute map decodes to itself, using exactly its own bytes |
| RecordCodec.CutRecordFails | src/engine/lsm/record_codec.cpp:237-260 | every strict prefix of an encoded item fails to decode |
| RecordCodec.CutValueFails | src/engine/lsm/record_codec.cpp:112-212 | every strict prefix of an encoded value fails to decode |
| RecordCodec.RoundTripIff | src/engine/lsm/record_codec.cpp:15-110 | a value survives the codec exactly when all its lengths and counts fit in 32 bits |
| RecordCodec.LongStringIsLost | src/engine/lsm/record_codec.cpp:15-24 | a string of 2^32 bytes is written with length zero and comes back empty |
| RecordCodec.ShortIsSmall | src/engine/lsm/record_codec.cpp:15-87 | an encoding shorter than 4 GiB proves that they did |
| RecordCodec.DecodedSmall | src/engine/lsm/record_codec.cpp:112-212 | nothing longer than 32 bits can count comes out of a decoder |
| RecordCodec.AppendValue | src/engine/lsm/record_codec.cpp:26-87 | the recursive writer appends the value's encoding |
| RecordCodec.EncodeAttributes | src/engine/lsm/record_codec.cpp:216-224 | the writer of an item |
| RecordCodec.Reader.NextValue | src/engine/lsm/record_codec.cpp:112-212 | the recursive reader with its cursor computes the decoding, in bounds |
| RecordCodec.Reader.NextFields | src/engine/lsm/record_codec.cpp:237-260 | the reader of an item |
| SSTables.LoadAccepts | src/engine/lsm/sstable.cpp:182-254 | load_index accepts every finished file and finds the index that was written |
| SSTables.IndexReads | src/engine/lsm/sstable.cpp:265-279 | index_entry gives the i-th key and the place of its record |
| SSTables.RecordRoundTrip | src/engine/lsm/sstable.cpp:318-363 | a record parses back to its entry, tombstones included |
| SSTables.EntryReads | src/engine/lsm/sstable.cpp:318-363 | read_entry gives the i-th entry |
| SSTables.FileRoundTrip | src/engine/lsm/sstable.cpp:107-133 | writing strictly increasing entries and opening the bytes gives a table that holds exactly those entries |
| SSTables.LowerBoundIndex | src/engine/lsm/sstable.cpp:281-295 | the binary search finds the first key not below the argument |
| SSTables.UpperBoundIndex | src/engine/lsm/sstable.cpp:297-311 | the binary search finds the first key above the argument |
| SSTables.BoundFinds | src/engine/lsm/sstable.cpp:313-316 | the lower bound stands on the key exactly when the entries have it |
| SSTables.Contains | src/engine/lsm/sstable.cpp:313-316 | true exactly for keys with an entry |
| SSTables.Get | src/engine/lsm/sstable.cpp:365-372 | the live item of the key, as in the map that was written |
| SSTables.Load | src/engine/lsm/sstable.cpp:182-254 | the header checks and index scan compute what a file means |
| SSTables.ScanAll | src/engine/lsm/sstable.cpp:226-244 | the index loop finds the position of every entry, or fails |
| SSTables.SSTableWriter.constructor | src/engine/lsm/sstable.cpp:51-57 | an empty file |
| SSTables.SSTableWriter.Append | src/engine/lsm/sstable.cpp:62-105 | accepts an entry exactly if it is writable and its key is above the last one, and then the file holds it |
| SSTables.SSTableWriter.Finish | src/engine/lsm/sstable.cpp:107-133 | data, index and footer of the appended entries |
| Indexes.ProjectShows | src/api/handlers.cpp:318-354 | what is stored for an item in the index, and nothing else, has exactly the item's attributes that the projection asks for: all, or the key attributes of table and index, or those and the named ones; an item is in the index exactly when it has every index key attribute |
| Indexes.IndexKeysApart | src/api/handlers.cpp:293-307 | items with different primary keys never share an index key |
| Indexes.ImageKeeps | src/api/handlers.cpp:318-373 | maintaining an index with what an item was and what it is keeps the index the image of the table when items in it are stored under their own keys |
| Indexes.MaintainAt | src/api/handlers.cpp:356-373 | each index is maintained by itself and nothing else is touched |
| Indexes.WriteImageIff | src/api/handlers.cpp:318-354 | maintaining one index keeps it the image if and only if the stored item does not take over a different entry of the item that its own key belongs to |
| Indexes.WriteImagesIff | src/api/handlers.cpp:356-373 | a write keeps an index the exact image of the table if and only if it does not overwrite the entry of the item that the new item's own key belongs to with a different one |
| Indexes.IndexContinuesIff | src/api/handlers.cpp:1053-1081 | an index stays the image of the table through every sequence of key-keeping requests after a write if and only if the item was stored under its own key or is not in that index |
| Indexes.AgreementContinuesIff | src/api/handlers.cpp:1053-1081 | and all indexes do if and only if the item was stored under its own key or is in no index |
| Indexes.PutAndDeleteBreaks | src/api/handlers.cpp:1053-1081 | whenever an indexed item stands under another key, putting it under its own key and deleting it there takes its entry away |
| Indexes.MovedKeyRun | src/api/handlers.cpp:1053-1081 | three requests on an empty table, one of them moving a key, leave an item with the index's attributes and an empty index |
| Indexes.IndexAgreement | src/api/handlers.cpp:870-1081 | from an empty table any sequence of Put, Update, Delete and batch writes that keep their key leaves every index the exact image of the table: under the index key followed by the table key, the attributes the projection asks for of each item that has every index key attribute, and nothing else |
| TransactWrites.PhasesAreSequential | src/api/handlers.cpp:1845-1899 | checking and deciding all actions of a transaction first and writing afterwards, over any tables, is the same as one action after another with a rollback at the first check that fails |
| TransactWrites.PhasesHaveEffect | src/api/handlers.cpp:1845-1899 | each item acted on becomes what its action decided on seeing it before the transaction, and every other item stays as it was |
| TransactWrites.CarryAllAgrees | src/api/handlers.cpp:1874-1899 | the second phase by itself: whatever was decided, decisions that keep their keys leave every index of every table in step |
| TransactWrites.Targets | src/api/handlers.cpp:1834-1843 | the loops accept exactly the actions whose tables exist and whose targets differ |
| TransactWrites.Decide | src/api/handlers.cpp:1845-1872 | the first phase passes exactly when every check does, and then returns every decision |
| TransactWrites.WriteAll | src/api/handlers.cpp:1874-1899 | the second phase writes the decisions in order |
| TransactWrites.TransactWriteItems | src/api/handlers.cpp:1720-1902 | goes ahead exactly when its actions are well-formed and every check passes on the current items; refused it changes nothing, accepted it makes each item acted on what its action decided and no other change, which is also its actions one after another; and requests that keep their keys keep every index of every table in step |
| TransactWrites.AgreementOfAll | src/api/handlers.cpp:870-1902 | from new tables on, any sequence of single writes and transactions over any tables, all keeping their keys, leaves every index of every table the exact image of its table |
| Indexes.MovedKeyCollides | src/api/handlers.cpp:1053-1081 | an update that gives an item another item's key attributes makes the two share an index entry |
| Indexes.MovedKeyLosesEntry | src/api/handlers.cpp:1053-1081 | and deleting the other one then takes this one's entry away |
| Indexes.UntouchedKeyAttributes | src/api/handlers.cpp:1053-1081 | an update that leaves the key attributes alone keeps its key |
| Indexes.IndexedTable.MaintainIndexes | src/api/handlers.cpp:356-373 | the loop over the indexes |
| Indexes.IndexedTable.HandleRequest | src/api/handlers.cpp:870-887 | a write handler stores or removes the item under the key of its request, or changes nothing, as it decides on seeing the item there; agreement survives every request that keeps its key |
| DocumentPaths.ReadStep | src/expressions/update_expression.cpp:208-230 | one step further along a path reads the named field of the map or the element of the list, counted from 0, that the path leads to, and nothing from any other value |
| DocumentPaths.WriteThenRead | src/expressions/update_expression.cpp:208-269 | after a successful write the path, and every path below it, reads from the value written |
| DocumentPaths.WriteElsewhere | src/expressions/update_expression.cpp:233-269 | a write leaves every diverging path as it was |
| DocumentPaths.WriteDefinedIff | src/expressions/update_expression.cpp:233-269 | a write succeeds exactly for a top-level name, or when the parent exists and is a map, or a list that the index is at most one past |
| DocumentPaths.WriteTwice | src/expressions/update_expression.cpp:233-269 | writing twice to one path is writing the second value |
| DocumentPaths.EraseThenRead | src/expressions/update_expression.cpp:271-303 | a removed name is gone |
| DocumentPaths.EraseElsewhere | src/expressions/update_expression.cpp:271-303 | removing a name leaves every diverging path as it was |
| DocumentPaths.EraseIndex | src/expressions/update_expression.cpp:271-303 | removing a list element moves the later ones down by one, whatever is read below them |
| DocumentPaths.EraseIndexElsewhere | src/expressions/update_expression.cpp:271-303 | and leaves every path that parts from the way to the list, or asks the list for a name, as it was |
| SharedValues.DeepClone | src/expressions/update_expression.cpp:116-138 | the copy stands for the same value and consists of new objects only |
| SharedValues.WriteShared | src/expressions/update_expression.cpp:233-269 | write_path changes no object that existed before; the new item stands for the written value, or the write is refused |
| SharedValues.EraseShared | src/expressions/update_expression.cpp:271-303 | erase_path changes no object that existed before |
| SharedValues.ReadShared | src/expressions/update_expression.cpp:208-231 | read_path gives an object of the item that stands for the value at the path, and nothing exactly when there is none |
| SharedValues.EditShared | src/expressions/update_expression.cpp:478-491 | a whole sequence of edits, each storing a given object, an object that another path leads to, or removing one, changes no object that existed before, and leaves the item that the edits mean |
| UpdateTokens.KeywordIff | src/expressions/update_expression.cpp:33-66 | SET, REMOVE, ADD and DELETE, in any mixture of cases, open their own sections, and no other word opens one |
| UpdateTokens.FunctionIff | src/expressions/update_expression.cpp:306-323 | the two function names are IF_NOT_EXISTS and LIST_APPEND in any mixture of cases |
| UpdateTokens.SpelledIsRead | src/expressions/update_expression.cpp:42-87 | any spelling of up to 8193 tokens, with any spacing that keeps words apart, any case of keywords and any leading zeros of an index, reads as those tokens |
| UpdateTokens.ReadIsSpelledThrough | src/expressions/update_expression.cpp:42-87 | any text read without complaint is such a spelling of its tokens |
| UpdateTokens.CanBeWritten | src/expressions/update_expression.cpp:42-87 | every list of tokens that have texts can be written down |
| UpdateTokens.NextToken | src/expressions/update_expression.cpp:51-83 | one turn of the loop reads the token that the text begins with, or rejects |
| UpdateTokens.Tokenize | src/expressions/update_expression.cpp:42-87 | the loop returns the text's tokens, closed by one End, and says whether it stopped short |
| UpdateExpressions.Applier.Advance | src/expressions/update_expression.cpp:155-156 | never moves past the last token |
| UpdateExpressions.Applier.ParsePath | src/expressions/update_expression.cpp:173-196 | on the tokens of a path it returns the path after name substitution, or fails exactly when a name has none |
| UpdateExpressions.Applier.ParseOperand | src/expressions/update_expression.cpp:306-353 | on the tokens of an operand it evaluates the operand |
| UpdateExpressions.Applier.IfNotExists | src/expressions/update_expression.cpp:306-353 | if_not_exists returns what stands at the path, or else the fallback |
| UpdateExpressions.Applier.ListAppend | src/expressions/update_expression.cpp:306-353 | list_append concatenates two lists and fails on anything else |
| UpdateExpressions.Applier.ParseAdditive | src/expressions/update_expression.cpp:355-373 | sums and differences are evaluated from the left |
| UpdateExpressions.Applier.DoSection | src/expressions/update_expression.cpp:375-476 | the actions of a SET, REMOVE, ADD or DELETE clause are applied in order |
| UpdateExpressions.Applier.RunAll | src/expressions/update_expression.cpp:478-491 | on the tokens of an expression the interpreter does what the expression means, fails exactly when it has no meaning, and succeeds on nothing but the tokens of an expression |
| UpdateMeaning.PathMeans | src/expressions/update_expression.cpp:163-196 | a path is its root and its steps in order, each name standing for itself or, where it starts with a hash sign, for the name given for it, and fails exactly when one is not given |
| UpdateMeaning.SetMeans | src/expressions/update_expression.cpp:375-389 | SET succeeds exactly when the path and the value resolve and the container at the end of the path takes the write; then the value reads at the path and nothing beside it has changed |
| UpdateMeaning.SumMeans | src/expressions/update_expression.cpp:355-373 | a sum works from the left: plus or minus is applied to the number text it has and the number text of the next operand, and anything but two numbers fails |
| UpdateMeaning.RemoveMeans | src/expressions/update_expression.cpp:391-400 | REMOVE fails only on a name that is not given; a removed name is absent, a removed list element gives its place to the next, and nothing beside them changes |
| UpdateMeaning.AddMeans | src/expressions/update_expression.cpp:402-440 | ADD of a number writes the sum of the number text there, or of none, and the operand's; ADD of a set writes the union; it fails exactly on a type that cannot be added, a failing sum or a missing container |
| UpdateMeaning.UnionIs | src/expressions/update_expression.cpp:413-428 | the union has exactly the elements of both, the old ones first and as they were, then each new one once in the operand's order |
| UpdateMeaning.DeleteMeans | src/expressions/update_expression.cpp:442-476 | DELETE on a set of the operand's type leaves exactly the elements that are not in the operand, and takes the attribute away exactly when none is left; on anything else it changes nothing |
| UpdateMeaning.DifferenceIs | src/expressions/update_expression.cpp:448-470 | an element is in the difference exactly when it was in the set and is not in the operand; those that stay keep their order and number |
| UpdateExpressions.MergeSet | src/expressions/update_expression.cpp:413-428 | the loop that pushes back missing elements makes that union |
| UpdateExpressions.WithoutSet | src/expressions/update_expression.cpp:448-470 | the loop that drops the operand's elements makes that difference |
| UpdateExpressions.AddedTo | src/expressions/update_expression.cpp:402-440 | what ADD writes, loops included |
| UpdateExpressions.UntouchedAttributes | src/expressions/update_expression.cpp:375-476 | attributes that no edit names come out as they went in |
| UpdateExpressions.ApplyUpdate | src/expressions/update_expression.cpp:496-506 | for any text: a failing expression leaves the item as it was, only attributes the expression mentions change, and a text that succeeds is that of a syntax tree whose meaning is the result; the text of a tree fails exactly when the tree has no meaning |
| Numbers.SpelledIsRead | src/json/serializer.cpp:50-75 | every numeral is read back from its text |
| Numbers.ReadIsSpelled | src/json/serializer.cpp:50-75 | whatever is read is a numeral, and the text is its spelling |
| Numbers.JunkIsLeft | src/json/serializer.cpp:47-75 | a text that spells no numeral is returned unchanged |
| Numbers.ValueKeptIff | src/json/serializer.cpp:47-104 | the number denoted survives if and only if it is zero or the exponent without its last digit is at most 100000 |
| Numbers.SameSpellingIff | src/json/serializer.cpp:47-104 | two such numbers get the same text exactly when they are equal |
| Numbers.IdempotentIff | src/json/serializer.cpp:47-104 | normalising twice is normalising once if and only if the numeral is zero, or its digits end and begin where they are written out plainly, or the place of its first significant digit, without its last decimal, is at most 100000 |
| Numbers.OrdinaryNumbers | src/json/serializer.cpp:47-104 | with mantissas of up to 100000 digits and exponents of up to 100000 the value survives and the form is final |
| Numbers.PlainIff | src/json/serializer.cpp:86-103 | the text comes out without an exponent exactly for zero, whole numbers that end in at most 40 zeros, and fractions not closer to zero than 1E-41 |
| Numbers.LongExponentChanges | src/json/serializer.cpp:64-74 | 1E1234567 comes out as another number |
| Numbers.LargeExponentMoves | src/json/serializer.cpp:97-102 | 12E1000009 comes out as a text that would change again |
| Numbers.CanonicalIsUnique | src/json/serializer.cpp:80-84 | a value has one form without leading or trailing zeros |
| Numbers.RenderDenotes | src/json/serializer.cpp:89-103 | each of the four output shapes denotes the value of its digits and exponent |
| Numbers.Scan | src/json/serializer.cpp:50-78 | the scanning loops find the sign, the digits and the exponent of a numeral, and nothing else |
| Numbers.NormalizeNumber | src/json/serializer.cpp:47-104 | the whole function, loops included, computes the specification |

## Left out

What the model assumes:

- I/O calls succeed where the source ignores their result; a removed file stays removed, a renamed manifest is in place at once, and log sync is switched on.
- In the engine's state machine log records and file entries come back as they were written, because keys and encoded items are below 2^32 bytes; `WalBytes.LogSurvivesCut` and `SSTables.FileRoundTrip` state this for the bytes.
- Positions, tickets, generations and sequence numbers do not wrap around at 2^64.
- The record checksum is any deterministic function of the bytes it covers, so damage other than a cut is not modelled.
- Hashes, text-to-double conversion and decimal arithmetic are functions supplied to the model; keys whose numbers share a double are one key.
- Table names contain no NUL byte where tables have to be kept apart.
- Item sizes used by pagination are a function supplied to the model.

Contracts that say less than one might look for:

- RingQueue.LockFreeQueue.Enqueue: describes a call that runs alone, because the interleaved behaviour is stated over the step machine (`RingQueue.ExactlyOnce`).
- RingQueue.LockFreeQueue.Dequeue: describes a call that runs alone, for the same reason.
- LsmEngines.LsmEngine.DropTable: describes a drop that runs alone, because the source releases its lock between batches, and a put behind the cursor then survives the drop.
- LsmEngines.LsmEngine.Drop: describes a drop that runs alone, for the same reason.
- Transactions.Serialisable: orders transactions among themselves only, because plain writers do not take the stripe locks.
- TransactWrites.TransactWriteItems: covers one transaction at a time, because the handler holds no lock between its phases; its cache of request tokens is not modelled.
- Indexes.IndexAgreement: covers sequential requests with TTL off, because the handlers maintain indexes outside the storage lock and lazy expiry removes base items without touching indexes.
- WalBytes.WriteAheadLog.AppendOnly: does not model a write that fails half-way, because I/O is assumed to succeed.
- SharedValues.EditShared: the objects that arithmetic and list_append build are given to it, because the interpreter that computes them works on values.
- UpdateExpressions.ApplyUpdate: does not state which error message a failing expression reports, because messages are not modelled.

What the repository does that is not modelled:

- HTTP sessions, JSON parsing and building, request validation, request signing, environment parsing and main.
- Hybrid logical clock, transaction ids, and the request token that execute_transact_write_items ignores.
- Streams, TTL expiry, capacity token buckets, backups and metrics.
- The work-stealing scheduler, bloom filter, block cache, arena, buffer pool and chaos engine.
- The condition and filter expression evaluator and PartiQL statements beyond the writes they issue.
- Background thread wake-ups, retry delays and shutdown.
- The skiplist's get_all listing without tombstones, and its destructor.
- Memory mapping, descriptor handling and temporary file names.
- CompactionManager, Compactor, MergingIterator, GsiManager, LsiManager and RecoveryManager, which the engine does not use.
