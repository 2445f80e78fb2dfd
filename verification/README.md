# LevelDB and nanopb, modelled and proved in Dafny

Two libraries vendored by the SDK hold its hard logic: the LevelDB storage engine and the nanopb
protocol buffer codec. This project models both and proves what they promise.

`dafny verify dfyconfig.toml` checks everything.

## What is modelled

**The store.** `History.dfy` is the specification: a set of facts (user key, sequence number,
operation) and what a read at a sequence number sees in it. `Versions.dfy` has table files, levels
and the early-stopping search. `InputSelection.dfy`, `Compaction.dfy`, `CompactionRun.dfy` choose
compaction inputs, merge, drop and write; `CompactionMeaning.dfy` says exactly when the drop rule
preserves reads; `Installing.dfy` shows that flushes, moves and compactions keep the order of levels,
`FlushInside.dfy` when they do so if a memtable is flushed in the middle of a compaction, and
`ManualCompaction.dfy` that they may not. `VersionBuilder.dfy` is the MANIFEST builder.

**The protocol.** `Protocol.dfy` is a state machine over logs, memtables, versions, MANIFEST,
snapshots and readers, with crashes and recovery; `ProtocolSafety.dfy`, `ProtocolJobs.dfy`,
`ProtocolRecovery.dfy`, `ProtocolManifest.dfy` and `ProtocolCompaction.dfy` prove its invariant,
`ProtocolTheorems.dfy` what every run guarantees. `LogRecovery.dfy` is the replay of the logs and
`Reopening.dfy` all of `DB::Open` on an existing database; `DiskBytes.dfy` ties the logs and the
MANIFEST of the protocol to the bytes of their files. `GroupCommit.dfy` is the writer queue,
`BackgroundWork.dfy` the scheduling of background work, `Snapshots.dfy` the snapshot list,
`SkipLists.dfy` the skip list under one writer and concurrent readers.

**Iterators.** `MergingIterator.dfy` and `DbIterator.dfy` are cursors in both directions;
`InternalIterators.dfy` puts them together: an iterator opened in any run moves over a prefix of the
write groups.

**Byte formats.** `Coding.dfy`, `Crc32c.dfy`, `LogFormat.dfy`, `LogReader.dfy`, `WriteBatches.dfy`,
`VersionEdits.dfy`, `InternalKeys.dfy`, `Blocks.dfy`, `BlockIterator.dfy`: printers and parsers that
undo each other.

**nanopb.** `Nanopb.dfy` says what bytes a message has and what any bytes decode to;
`NanopbRoundTrip.dfy` proves that the two undo each other, `NanopbVarints.dfy` what the 32-bit varint
decoder makes of any bytes; `NanopbEncoder.dfy`, `NanopbFields.dfy`
and `NanopbDecoder.dfy` are the table-driven encoder and decoder with their streams.

## What turned out

* Compaction does not preserve reads unconditionally. Boundary files are added to the inputs of the
  compacted level only (`db/version_set.cc:1384, 1399`), so a deletion marker can be dropped while an
  unselected file of the output level still holds an older value of its key.
  `CompactionMeaning.CompactionPreservesReads` gives the exact condition,
  `CompactionRun.CompactSplitVersion` a version for which it fails, by the methods of the source.
* A memtable flushed in the middle of a compaction may come to lie where the outputs go. With the
  inputs of an automatic compaction this cannot happen, because they leave no gap
  (`InputSelection.PickCompaction`, `FlushInside.NoGapFits`). Those of a manual compaction may leave one,
  and neither `db/version_set.cc:470-495` nor `db/db_impl.cc:869-885` looks at it:
  `ManualCompaction.LoseFlushedValue` shows overlapping files on one level and a value the search then
  misses. `FlushInside.WellFormedExactlyIfFits` gives the exact condition.
* A manual compaction that is running can lose its request: once an error is recorded or closing has
  begun, the thread that asked for it withdraws it (`db/db_impl.cc:616-630`), and the background call
  uses the request without a look when it ends (`db/db_impl.cc:763-775`).
  `BackgroundWork.CrashExactlyAfterFailure` says that this can happen in exactly these cases;
  `BackgroundWork.RequestMayBeWithdrawn` has a run for each.
* A string that fills its array is written by the encoder (`pb_encode.c:873-897`) and refused by the
  decoder of the same schema (`pb_decode.c:1487-1517`), which wants room for a terminator; and lengths are
  written with 64 bits and read with 32. `NanopbRoundTrip.MessageRoundTrip` says that nothing else is in the
  way of the round trip.
* Overlong 32-bit varints are not always refused (`pb_decode.c:209-248`). The upper bits of the fifth byte
  are looked at only if it is the last one, so six bytes that stand for 0x7F0000000 are read as 0xF0000000
  (`NanopbVarints.SixBytes`); a negative number may be extended by fewer bytes than it takes
  (`NanopbVarints.SevenBytes`); and the bit position is a `uint_fast8_t`, which, where it has 8 bits, wraps
  around (`NanopbVarints.PaddedMisread`). `NanopbVarints.MisreadExactlyIf` says that these are the only ways.
  Numbers below 2^32 are read right at any length (`NanopbVarints.FittingReads`).
* In a block, the restart index of the iterator is not always the one of the group in which the entry falls,
  as its declaration says (`table/block.cc:86`), because the comparison in the loop is strict
  (`table/block.cc:246-248`). It is one behind exactly on a restart point that `Next` or the scan of `Seek`
  moved to; the contracts of `BlockIterators.BlockIter.Next` and `Seek` say so with an if and only if, those of
  `SeekToFirst`, `SeekToLast` and `Prev` that there it is right.
* The check of a block entry adds the two lengths in 32 bits (`table/block.cc:71`).
  `Blocks.CheckWrongExactlyIf` says which entries pass it and should not.

## Assumptions

* User keys are only ever compared. The model takes them from the reals, in which every countable
  total order embeds; `InternalKeys.RankOrders` gives the embedding for the bytewise order.
* A compaction is started only where it preserves reads (`NoResurrection`) and installed only where its
  outcome fits (`OutputsFit`), which for automatic compactions is always.
* A crash keeps appended bytes, with at most a torn last record; a torn record reads as absent, as
  `LogReader.ReadAll` proves for the log format.
* Logs are not reused after recovery, and the total number of writes stays below the largest sequence
  number.

## Model

| member | source | states |
|---|---|---|
| `Versions.FindFile` | Example/Pods/leveldb-library/db/version_set.cc:87-105 | the binary search returns the least index whose largest key is at or after the key: all files before it end earlier, none from it on does |
| `Versions.SomeFileOverlapsRange` | Example/Pods/leveldb-library/db/version_set.cc:121-156 | the linear scan and the binary search both say whether some file meets the user-key range, open ends included |
| `Versions.SearchLevel0` | Example/Pods/leveldb-library/db/version_set.cc:281-300 | a hit on level 0, newest file first, is the newest entry of the whole version; a miss leaves no candidate on level 0 |
| `Versions.SearchLevel` | Example/Pods/leveldb-library/db/version_set.cc:302-322 | on a deeper level one file is read, and no other file of the level can hold a newer candidate |
| `Versions.Get` | Example/Pods/leveldb-library/db/version_set.cc:324-400 | the early-stopping search returns the newest entry at or below the sequence number, over all files of the version |
| `ProtocolTheorems.Get` | Example/Pods/leveldb-library/db/db_impl.cc:1110-1155 | memtable, immutable memtable, version, stopping at the first that knows the key, read what the union of the three holds |
| `InputSelection.PickLevelForMemTableOutput` | Example/Pods/leveldb-library/db/version_set.cc:470-495 | the level chosen for a flush meets no file on the way down, and the search stopped for one of the three reasons of the source |
| `InputSelection.GetOverlappingInputs` | Example/Pods/leveldb-library/db/version_set.cc:498-538 | the search with restarts terminates and returns exactly the files that meet the final range; on level 0 no chosen file sticks out of it |
| `InputSelection.Level0InputsAreLeastClosed` | Example/Pods/leveldb-library/db/version_set.cc:498-538 | on level 0 that is the least set of files closed under user-key overlap with the given range |
| `InputSelection.EmptyIffNoOverlap` | Example/Pods/leveldb-library/db/version_set.cc:498-538 | the search finds something exactly if some file meets the range asked for |
| `InputSelection.FindSmallestBoundaryFile` | Example/Pods/leveldb-library/db/version_set.cc:1321-1353 | the least file that starts with the same user key behind the given key, or none if there is none |
| `InputSelection.AddBoundaryInputs` | Example/Pods/leveldb-library/db/version_set.cc:1355-1378 | the loop terminates; a contiguous selection of a sorted level is extended so that no unselected file holds an older entry of a selected user key |
| `InputSelection.CutAtSize` | Example/Pods/leveldb-library/db/version_set.cc:1449-1464 | the manual range is cut after the first file that brings the total to the limit |
| `InputSelection.SetupOtherInputs` | Example/Pods/leveldb-library/db/version_set.cc:1380-1439 | the level inputs hold the start and leave nothing older behind; they are the closed start, or a larger closed selection that meets the same next-level files and keeps all inputs below the size limit; the next-level inputs and the grandparents are exactly the files that meet them, the compaction pointer is their largest key; a start without gaps stays without gaps |
| `InputSelection.Grandparents` | Example/Pods/leveldb-library/db/version_set.cc:1424-1430 | the grandparents are exactly the files two levels down that meet the range of all inputs |
| `InputSelection.PickCompaction` | Example/Pods/leveldb-library/db/version_set.cc:1247-1299 | a compaction is picked exactly if a level is too big or a file used up its seeks; it holds the first file after the compaction pointer, wrapping around, or the file that used up its seeks, and on level 0 all that meet it; its inputs leave no gap |
| `InputSelection.CompactRange` | Example/Pods/leveldb-library/db/version_set.cc:1441-1472 | a manual compaction is set up exactly if some file of the level meets the range; it starts from all of those on level 0, else from their shortest run that reaches the size limit |
| `Compaction.Compaction.IsBaseLevelForKey` | Example/Pods/leveldb-library/db/version_set.cc:1510-1529 | for user keys in non-decreasing order the moving level pointers answer like a scan of all deeper levels |
| `Compaction.Compaction.ShouldStopBefore` | Example/Pods/leveldb-library/db/version_set.cc:1531-1553 | exactly the grandparents that end before the key are passed; it says stop exactly if the sizes of those passed since the last stop, after the first key, exceed the limit, and then starts counting anew |
| `Compaction.ShouldDrop` | Example/Pods/leveldb-library/db/db_impl.cc:938-973 | the decision made with the running variables is the drop rule on the merged input |
| `Compaction.DoCompactionWork` | Example/Pods/leveldb-library/db/db_impl.cc:887-1009 | the output tables, one after the other, hold exactly the entries the drop rule keeps, in order; none is empty, none goes on once it is big enough or over grandparents of more bytes than the limit, and none is closed without such a reason |
| `CompactionMeaning.CompactionPreservesReads` | Example/Pods/leveldb-library/db/db_impl.cc:938-973 | all reads at or above the smallest snapshot are kept if and only if no dropped deletion marker was hiding a value in an unselected file of the output level |
| `CompactionMeaning.ClosedOutputLevelSuffices` | Example/Pods/leveldb-library/db/version_set.cc:1384-1399 | no unselected output-level file with an older entry of an input user key is enough for that |
| `CompactionMeaning.DeletedValueComesBack` | Example/Pods/leveldb-library/db/version_set.cc:1380-1399 | without it a deleted value can come back: on a well-formed version every compaction of level 1 brings it back |
| `CompactionRun.CompactSplitVersion` | Example/Pods/leveldb-library/db/version_set.cc:1441-1472 | ... by the methods of the source: CompactRange on any range that meets the level, the merge and drop loop, and any version the outcome is installed in |
| `CompactionRun.MergeGivesInput` | Example/Pods/leveldb-library/db/version_set.cc:1214-1245 | merging the input tables yields one sorted run of exactly their entries |
| `CompactionRun.RunCompaction` | Example/Pods/leveldb-library/db/db_impl.cc:887-1009 | from good inputs to output files that are ready to install, with the bounds and sizes of their tables, numbered in order |
| `Installing.FlushKeepsWellFormed` | Example/Pods/leveldb-library/db/db_impl.cc:500-542 | a flush to the picked level keeps levels disjoint and shallower sources newer, and adds exactly the memtable |
| `Installing.TrivialMoveKeepsWellFormed` | Example/Pods/leveldb-library/db/db_impl.cc:727-734 | a trivial move keeps both, and changes no contents |
| `Installing.CompactionKeepsWellFormed` | Example/Pods/leveldb-library/db/db_impl.cc:869-885 | installing the outputs of a compaction keeps both |
| `Installing.CompactionContents` | Example/Pods/leveldb-library/db/db_impl.cc:869-885 | the new version holds the old contents without the dropped entries |
| `FlushInside.FlushedOnceMore` | Example/Pods/leveldb-library/db/db_impl.cc:917-928 | a memtable flushed in the middle of a compaction leaves a version of which the compaction can still go on: base files in place, flushed files newer and, deeper than the compacted level, clear of every input |
| `FlushInside.WellFormedExactlyIfFits` | Example/Pods/leveldb-library/db/db_impl.cc:869-885 | the outcome of a compaction, installed after any number of such flushes, gives a well-formed version if and only if no output reaches across a file that was flushed to its level meanwhile |
| `FlushInside.ApartExactlyIfNotSpanned` | Example/Pods/leveldb-library/db/version_set.cc:470-495 | an output and a file flushed to its level since are apart exactly if the output does not begin before the file and end after it |
| `FlushInside.ContentsAfter` | Example/Pods/leveldb-library/db/db_impl.cc:869-885 | that version holds the contents of the moment without the entries dropped |
| `FlushInside.ReadsAfter` | Example/Pods/leveldb-library/db/db_impl.cc:938-973 | reads from the smallest snapshot on are then what they were just before |
| `FlushInside.NoGapFits` | Example/Pods/leveldb-library/db/version_set.cc:1247-1299 | inputs without gaps, such as PickCompaction chooses, always fit, whatever has been flushed meanwhile |
| `ManualCompaction.LevelsToCompact` | Example/Pods/leveldb-library/db/db_impl.cc:572-588 | a manual compaction of the database goes down to the last level with files of the range, or to level 1 |
| `ManualCompaction.LoseFlushedValue` | Example/Pods/leveldb-library/db/version_set.cc:1441-1472 | a manual compaction without ends may not fit: it compacts level 1, whose inputs leave a gap, a memtable is flushed into it, the one output spans it, and the search of the level then misses a value it found before |
| `VersionBuilder.Builder.Apply` | Example/Pods/leveldb-library/db/version_set.cc:629-669 | an edit is recorded per level: deletions first, then additions, which undo deletions of the same number |
| `VersionBuilder.Builder.SaveTo` | Example/Pods/leveldb-library/db/version_set.cc:672-731 | merging base and added files gives each level as the sorted listing of base files without deleted ones plus the added ones |
| `VersionBuilder.SequentialOutcome` | Example/Pods/leveldb-library/db/version_set.cc:569-731 | saving after each edit in turn gives the same file lists, when each number is added to a level at most once |
| `VersionBuilder.SavedOnceIsApplyAll` | Example/Pods/leveldb-library/db/version_set.cc:569-731 | what one builder leads to for any list of edits is what saving after each gives, when each number comes to a level at most once |
| `VersionBuilder.SaveOnce` | Example/Pods/leveldb-library/db/version_set.cc:862-968 | the use of the builder in recovery: all records applied, one save |
| `VersionBuilder.RecordWritten` | Example/Pods/leveldb-library/db/version_set.cc:777-834 | a record whose files are new to the MANIFEST, or come from a level above, keeps what recovery needs: each number comes to a level at most once |
| `ProtocolTheorems.RunInv` | Example/Pods/leveldb-library/db/db_impl.cc:544-575 | every step of every run (writes, switches, flushes, moves, compactions, snapshots, readers, file removal, crashes, recovery) keeps the invariant of disk and memory |
| `ProtocolTheorems.RunGrows` | Example/Pods/leveldb-library/db/db_impl.cc:1195-1266 | along a run the logged groups only grow, and acknowledged groups stay acknowledged |
| `ProtocolTheorems.CrashRecovery` | Example/Pods/leveldb-library/db/db_impl.cc:289-378 | after a crash at any step recovery, which reads the MANIFEST with one builder, gives exactly the contents of the logged groups, among them every group acknowledged before, in its place; the last sequence number covers every recovered entry |
| `Reopening.Reopen` | Example/Pods/leveldb-library/db/db_impl.cc:1478-1519 | from the closed state at the end of any run DB::Open (the MANIFEST read record by record with one save, all logs replayed, the new MANIFEST) leads to a state that continues the run with a recovery step |
| `ProtocolTheorems.ManifestRebuildsVersion` | Example/Pods/leveldb-library/db/version_set.cc:862-980 | in every run the records of the current MANIFEST, read with one builder and one save, give what saving after each gives, and that is the current version, or the one whose record has just been logged |
| `ProtocolManifest.NewRecords` | Example/Pods/leveldb-library/db/version_set.cc:1064-1092 | the snapshot record and the recovery edit of a new MANIFEST add each number to a level at most once |
| `ProtocolTheorems.NoMissingFiles` | Example/Pods/leveldb-library/db/db_impl.cc:222-287 | no removal of obsolete files ever takes a table that the current MANIFEST names |
| `ProtocolTheorems.ReadersSeeWholeGroups` | Example/Pods/leveldb-library/db/db_impl.cc:1110-1155 | a reader at any time sees exactly the first n write groups, each of them wholly, although the memtable it shares with the writers keeps growing |
| `ProtocolTheorems.OutcomesFit` | Example/Pods/leveldb-library/db/db_impl.cc:1030-1040 | in every run a compaction whose inputs leave no gap fits the version it is installed in, whatever has been flushed since it started |
| `ProtocolTheorems.NextKeepsInv` | Example/Pods/leveldb-library/db/db_impl.cc:697-776 | the step relation keeps the invariant |
| `ProtocolJobs.StartFlushKeepsInv` | Example/Pods/leveldb-library/db/db_impl.cc:500-542 | a flush job keeps the invariant: what its version stands for is the groups up to the memtable switch |
| `ProtocolJobs.StartMoveKeepsInv` | Example/Pods/leveldb-library/db/db_impl.cc:727-734 | a move job keeps the invariant |
| `ProtocolJobs.StartCompactionKeepsInv` | Example/Pods/leveldb-library/db/db_impl.cc:887-1009 | a compaction that writes its outputs keeps the invariant |
| `ProtocolCompaction.FinishCompactionKeepsInv` | Example/Pods/leveldb-library/db/db_impl.cc:869-885 | its edit, made for the version of a later moment, keeps the invariant; reads stay right from the snapshot of its start on |
| `ProtocolCompaction.StartFlushKeepsPending` | Example/Pods/leveldb-library/db/db_impl.cc:917-928 | a flush in the middle of it leaves the outcome ready to install |
| `ProtocolCompaction.LogEditKeepsPending` | Example/Pods/leveldb-library/db/version_set.cc:777-860 | the record of such a flush leaves the numbers of the outputs unused in the MANIFEST |
| `ProtocolJobs.LogEditKeepsInv` | Example/Pods/leveldb-library/db/version_set.cc:777-860 | appending the record to the MANIFEST, with the mutex released, keeps the disk recoverable |
| `ProtocolJobs.InstallVersionKeepsInv` | Example/Pods/leveldb-library/db/version_set.cc:836-848 | making the version current keeps the invariant |
| `ProtocolJobs.RemoveLogKeepsInv` | Example/Pods/leveldb-library/db/db_impl.cc:222-287 | a log older than the log number in memory is not needed by the MANIFEST |
| `ProtocolSafety.AppendRecordKeepsInv` | Example/Pods/leveldb-library/db/db_impl.cc:1223-1231 | a record appended to the log becomes part of what recovery finds, before it is acknowledged |
| `ProtocolSafety.InsertNextKeepsInv` | Example/Pods/leveldb-library/db/db_impl.cc:1232-1234 | each entry inserted in the memtable, seen at once by the readers that share it, changes nothing they read |
| `ProtocolSafety.SwitchMemtableKeepsInv` | Example/Pods/leveldb-library/db/db_impl.cc:1354-1377 | switching log and memtable keeps the invariant |
| `ProtocolRecovery.NewManifest` | Example/Pods/leveldb-library/db/version_set.cc:1064-1092 | replaying the snapshot record and the recovery edit gives the recovered version and its counters |
| `ProtocolRecovery.RecoverKeepsInv` | Example/Pods/leveldb-library/db/db_impl.cc:289-378 | recovery keeps the invariant |
| `LogRecovery.InsertInto` | Example/Pods/leveldb-library/db/write_batch.cc:115-137 | into any memtable without the keys of the batch: it stays sorted and gains exactly the entries of the batch, numbered from its sequence number |
| `LogRecovery.RecoverLogFile` | Example/Pods/leveldb-library/db/db_impl.cc:380-498 | replaying one log, with tables written whenever the buffer is full, covers exactly its records |
| `LogRecovery.RecoverLogs` | Example/Pods/leveldb-library/db/db_impl.cc:312-376 | replaying every log not older than the log number gives level-0 tables of exactly their records and the largest sequence number |
| `GroupLog.FactRange` | Example/Pods/leveldb-library/db/db_impl.cc:1213-1222 | the entries of a range of groups carry the sequence numbers of that range |
| `History.LookupLayered` | Example/Pods/leveldb-library/db/db_impl.cc:1128-1142 | reading layer by layer, newer before older, is reading the union |
| `GroupCommit.BuildBatchGroup` | Example/Pods/leveldb-library/db/db_impl.cc:1270-1316 | the longest run of writers that may join, and one batch with all their operations in queue order; no writer's batch is changed |
| `GroupCommit.TryJoin` | Example/Pods/leveldb-library/db/db_impl.cc:1293-1304 | a sync write never joins a leader that does not sync, and no batch joins beyond the size limit |
| `GroupCommit.TakeOff` | Example/Pods/leveldb-library/db/db_impl.cc:1246-1257 | the loop takes exactly the group off the queue and tells each of its writers once |
| `GroupCommit.TellGroup` | Example/Pods/leveldb-library/db/db_impl.cc:1246-1263 | then the new front is woken and the leader returns |
| `GroupCommit.OneLeader` | Example/Pods/leveldb-library/db/db_impl.cc:1195-1266 | in every interleaving at most one writer is active, and it is the front of the queue |
| `GroupCommit.NoLostWakeup` | Example/Pods/leveldb-library/db/db_impl.cc:1201-1208 | a writer that has its status, or stands at the front, is never left asleep |
| `GroupCommit.ServedExactlyOnce` | Example/Pods/leveldb-library/db/db_impl.cc:1246-1266 | a writer has a status exactly if it is in a finished group, at one place in one group, and the status is the outcome of that group |
| `GroupCommit.StatusStays` | Example/Pods/leveldb-library/db/db_impl.cc:1246-1257 | a stored status never changes |
| `GroupCommit.GroupsInOrder` | Example/Pods/leveldb-library/db/db_impl.cc:1212-1243 | groups take disjoint sequence ranges in queue order; after a failed sync every later group fails |
| `GroupCommit.SyncedAndWritten` | Example/Pods/leveldb-library/db/db_impl.cc:1223-1242 | a sync write is only in a group whose leader syncs, and a successful group wrote the operations of all its writers in order |
| `BackgroundWork.NoLostWork` | Example/Pods/leveldb-library/db/db_impl.cc:657-695 | whenever the mutex is free, pending work has a background call scheduled or running, unless an error was recorded or closing began |
| `BackgroundWork.NoLostWakeup` | Example/Pods/leveldb-library/db/db_impl.cc:1340-1352 | a thread that sleeps has a wake-up ahead: a call is scheduled, and the end of a call, or an error, wakes it |
| `BackgroundWork.ClosedForGood` | Example/Pods/leveldb-library/db/db_impl.cc:152-159 | once the destructor has seen the end of background work, none starts again |
| `BackgroundWork.RequestOutlivesCompaction` | Example/Pods/leveldb-library/db/db_impl.cc:763-775 | a running manual compaction finds its request in place, unless an error was recorded or closing began |
| `BackgroundWork.LostExactlyAfterFailure` | Example/Pods/leveldb-library/db/db_impl.cc:616-630 | while a manual compaction runs, its request can get lost without a further failure if and only if an error has been recorded or closing has begun |
| `BackgroundWork.CrashExactlyAfterFailure` | Example/Pods/leveldb-library/db/db_impl.cc:763-775 | ... and the call can end by using the missing request if and only if one of the two has happened |
| `BackgroundWork.CrashedOnlyAfterFailure` | Example/Pods/leveldb-library/db/db_impl.cc:763-775 | no run comes to use a missing request before an error is recorded or closing begins |
| `BackgroundWork.LostForGood` | Example/Pods/leveldb-library/db/db_impl.cc:763-775 | a request that is lost stays lost, and the call can end in no other way |
| `BackgroundWork.RequestMayBeWithdrawn` | Example/Pods/leveldb-library/db/db_impl.cc:616-630 | both failures are real: a run with an error and a run with a shutdown in which the background call uses a request that is gone |
| `MergingIterators.MergingIterator.SeekToFirst` | Example/Pods/leveldb-library/table/merger.cc:31-37 | the merging iterator is on the first entry of the sorted union |
| `MergingIterators.MergingIterator.SeekToLast` | Example/Pods/leveldb-library/table/merger.cc:39-45 | ... on the last entry |
| `MergingIterators.MergingIterator.Seek` | Example/Pods/leveldb-library/table/merger.cc:47-53 | ... on the first entry at or after the target |
| `MergingIterators.MergingIterator.Next` | Example/Pods/leveldb-library/table/merger.cc:55-79 | one entry on, also after a change of direction |
| `MergingIterators.MergingIterator.Prev` | Example/Pods/leveldb-library/table/merger.cc:81-108 | one entry back, also after a change of direction |
| `MergingIterators.SmallestIsAtCut` | Example/Pods/leveldb-library/table/merger.cc:148-161 | the least of the children's entries is the entry of the union at the cut |
| `MergingIterators.LargestIsAtCut` | Example/Pods/leveldb-library/table/merger.cc:163-176 | the greatest is the entry before the cut |
| `DbIterator.DBIter.Seek` | Example/Pods/leveldb-library/db/db_iter.cc:278-290 | yields the least key from the target on that has a value at the sequence number |
| `DbIterator.DBIter.SeekToFirst` | Example/Pods/leveldb-library/db/db_iter.cc:292-301 | yields the least key that has a value |
| `DbIterator.DBIter.SeekToLast` | Example/Pods/leveldb-library/db/db_iter.cc:303-308 | yields the greatest key that has a value |
| `DbIterator.DBIter.Next` | Example/Pods/leveldb-library/db/db_iter.cc:141-175 | from either direction: the least key after the current one that has a value |
| `DbIterator.DBIter.Prev` | Example/Pods/leveldb-library/db/db_iter.cc:209-234 | from either direction: the greatest key before the current one that has a value |
| `DbIterator.DBIter.KeyHasValue` | Example/Pods/leveldb-library/db/db_iter.cc:63-71 | the value shown is what a read at the sequence number gives |
| `DbIterator.ScanIsLeast` | Example/Pods/leveldb-library/db/db_iter.cc:177-207 | the forward scan skips deleted, overwritten and too new entries and no live key |
| `DbIterator.ScanBackIsGreatest` | Example/Pods/leveldb-library/db/db_iter.cc:236-276 | the backward scan likewise, and it stops just before the entries of the key found |
| `InternalIterators.ConcatenationSorted` | Example/Pods/leveldb-library/db/version_set.cc:222-227 | the files of a deeper level one after the other are one sorted run |
| `InternalIterators.VersionRunsMergeable` | Example/Pods/leveldb-library/db/version_set.cc:229-248 | the iterators of a version have no key in common and together hold its contents |
| `InternalIterators.NewInternalIterator` | Example/Pods/leveldb-library/db/db_impl.cc:1072-1097 | the internal iterator runs over exactly the two memtables and the version |
| `InternalIterators.IteratorSeesHistory` | Example/Pods/leveldb-library/db/db_impl.cc:1157-1167 | in every run and at every moment an iterator moves over the keys of the first n write groups, those up to its sequence number, also over entries the memtable has taken since or is taking |
| `SkipLists.SkipList.FindGreaterOrEqual` | Example/Pods/leveldb-library/db/skiplist.h:262-281 | the earliest key at or after the target, and the last node before it on each level |
| `SkipLists.SkipList.FindLessThan` | Example/Pods/leveldb-library/db/skiplist.h:285-301 | the latest node before the target |
| `SkipLists.SkipList.FindLast` | Example/Pods/leveldb-library/db/skiplist.h:305-322 | the last node |
| `SkipLists.SkipList.Insert` | Example/Pods/leveldb-library/db/skiplist.h:337-368 | the key joins exactly the levels below its height |
| `SkipLists.SkipList.Contains` | Example/Pods/leveldb-library/db/skiplist.h:371-378 | membership |
| `SkipLists.SearchesSkipNothing` | Example/Pods/leveldb-library/db/skiplist.h:262-281 | for every interleaving with an insertion, level by level and pointer by pointer, a finished search has skipped no key that was there when it began |
| `SkipLists.LevelsAreSublists` | Example/Pods/leveldb-library/db/skiplist.h:337-368 | for every interleaving each level is a sorted sublist of the one below |
| `Snapshots.SnapshotList.New` | Example/Pods/leveldb-library/db/snapshot.h:57-70 | a snapshot is linked in at the end, the others stay |
| `Snapshots.SnapshotList.Delete` | Example/Pods/leveldb-library/db/snapshot.h:79-86 | exactly the given snapshot is unlinked, wherever it stands |
| `Snapshots.SnapshotList.Oldest` | Example/Pods/leveldb-library/db/snapshot.h:47-50 | the oldest snapshot has the least sequence number of all |
| `Coding.Varint64RoundTrip` | Example/Pods/leveldb-library/util/coding.cc:55-143 | varints of 64-bit values read back, whatever follows |
| `Coding.Varint32RoundTrip` | Example/Pods/leveldb-library/util/coding.cc:21-114 | varints of 32-bit values likewise |
| `Coding.LengthPrefixedRoundTrip` | Example/Pods/leveldb-library/util/coding.cc:72-165 | length-prefixed strings read back |
| `Crc32c.ExtendIsValue` | Example/Pods/leveldb-library/util/crc32c.cc:276-376 | extending a checksum is checksumming the longer string |
| `Crc32c.UnmaskMask` | Example/Pods/leveldb-library/util/crc32c.h:29-38 | masking can be undone |
| `LogFormat.Writer.EmitPhysicalRecord` | Example/Pods/leveldb-library/db/log_writer.cc:82-108 | one physical record is appended |
| `LogFormat.Writer.AddRecord` | Example/Pods/leveldb-library/db/log_writer.cc:34-80 | the fragmentation loop terminates, also through zero-length fragments, and appends bytes that depend only on the file length and the record |
| `LogFormat.LogGrows` | Example/Pods/leveldb-library/db/log_writer.cc:23-32 | a writer resumed at the current length emits the same bytes |
| `LogFormat.WriteAll` | Example/Pods/leveldb-library/db/log_writer.cc:23-80 | a list of records, with a new writer before any of them, always gives the same file |
| `LogReader.Reader.ReadPhysicalRecord` | Example/Pods/leveldb-library/db/log_reader.cc:189-271 | reading from the buffered block is parsing the rest of the file |
| `LogReader.Reader.ReadNext` | Example/Pods/leveldb-library/db/log_reader.cc:56-174 | assembling a record from fragments, with the sizes of the drops the source reports, in their order |
| `LogReader.EmittedReads` | Example/Pods/leveldb-library/db/log_writer.cc:34-80 | the bytes of a record read back as that record with no report, whatever follows |
| `LogReader.CutOffReads` | Example/Pods/leveldb-library/db/log_reader.cc:200-236 | the bytes of a record cut off anywhere read as the end of the file with no report |
| `LogReader.NextOfLog` | Example/Pods/leveldb-library/db/log_reader.cc:56-174 | the next record of a log that may be cut off: the record if it is wholly there, else the end |
| `LogReader.ReadAll` | Example/Pods/leveldb-library/db/log_reader.cc:56-174 | of a log cut off anywhere exactly the records wholly in the file come back, with no corruption |
| `DiskBytes.ReadDiskLog` | Example/Pods/leveldb-library/db/db_impl.cc:380-498 | the bytes of a log, cut off anywhere, through the log reader and the batches: exactly the groups the disk of the protocol is said to hold |
| `DiskBytes.AppendIsAtomic` | Example/Pods/leveldb-library/db/db_impl.cc:1223-1231 | while a record is being appended the bytes stand for the old groups until its last byte is there, then for the new one too |
| `DiskBytes.ReadManifestEdits` | Example/Pods/leveldb-library/db/version_set.cc:896-960 | the bytes of a MANIFEST, through the log reader and the edits: exactly the edits that were logged |
| `DiskBytes.RebuildVersion` | Example/Pods/leveldb-library/db/version_set.cc:862-968 | for every run and the bytes of its current MANIFEST: reading, decoding, applying with one builder and saving once gives the version the run says the MANIFEST stands for |
| `WriteBatches.WriteBatch.Put` | Example/Pods/leveldb-library/db/write_batch.cc:98-103 | the count grows by one and the record is appended |
| `WriteBatches.WriteBatch.Delete` | Example/Pods/leveldb-library/db/write_batch.cc:105-109 | likewise for a deletion |
| `WriteBatches.WriteBatch.Append` | Example/Pods/leveldb-library/db/write_batch.cc:144-148 | counts add up, bodies are joined, the sequence number stays |
| `WriteBatches.WriteBatch.SetSequence` | Example/Pods/leveldb-library/db/write_batch.cc:94-96 | the sequence number in the header is replaced; count and operations stay |
| `WriteBatches.WriteBatch.Iterate` | Example/Pods/leveldb-library/db/write_batch.cc:42-80 | the handler gets the operations up to the first malformed byte, and the status of the source |
| `WriteBatches.EncodeRoundTrip` | Example/Pods/leveldb-library/db/write_batch.cc:42-109 | iterating over an encoded batch hands out its operations in order |
| `WriteBatches.EncodeAppend` | Example/Pods/leveldb-library/db/write_batch.cc:144-148 | the joined body encodes the operations of both batches |
| `VersionEdits.EncodeTo` | Example/Pods/leveldb-library/db/version_edit.cc:41-84 | the fields of the edit in the order of the source |
| `VersionEdits.DecodeFrom` | Example/Pods/leveldb-library/db/version_edit.cc:105-203 | the field loop with its error messages, on any bytes |
| `VersionEdits.EditRoundTrip` | Example/Pods/leveldb-library/db/version_edit.cc:41-203 | decoding an encoded edit gives it back, with no error |
| `InternalKeys.RankOrders` | Example/Pods/leveldb-library/util/comparator.cc:27-29 | the bytewise order of user keys embeds in the reals, both ways |
| `InternalKeys.EncodedOrder` | Example/Pods/leveldb-library/db/dbformat.cc:47-63 | encoded internal keys compare as user key up, then packed number down |
| `InternalKeys.ParseAppended` | Example/Pods/leveldb-library/db/dbformat.h:171-181 | parsing an appended internal key gives its parts |
| `InternalKeys.FindShortestInternalSeparator` | Example/Pods/leveldb-library/db/dbformat.cc:65-82 | the shortened key lies between start and limit in the order of internal keys |
| `InternalKeys.FindShortestSeparator` | Example/Pods/leveldb-library/util/comparator.cc:31-52 | where the first differing bytes leave room, the shortest key strictly between the two; otherwise start itself |
| `InternalKeys.FindShortSuccessor` | Example/Pods/leveldb-library/util/comparator.cc:54-65 | the shortest key after the given one, or itself if that consists of bytes 255 |
| `InternalKeys.MemtableEntryRoundTrip` | Example/Pods/leveldb-library/db/memtable.cc:76-136 | a memtable entry reads back as its key and value |
| `Blocks.FastPathAgrees` | Example/Pods/leveldb-library/table/block.cc:55-75 | the one-byte fast path agrees with decoding three varints, on every input |
| `Blocks.EntryRoundTrip` | Example/Pods/leveldb-library/table/block_builder.cc:91-98 | an entry decodes to its three lengths, key delta and value |
| `Blocks.PointsSpaced` | Example/Pods/leveldb-library/table/block_builder.cc:79-90 | restart points are one restart interval apart |
| `Blocks.BlockBuilder.Add` | Example/Pods/leveldb-library/table/block_builder.cc:71-105 | the builder holds the entries added so far, prefix-compressed |
| `Blocks.BlockBuilder.CurrentSizeEstimate` | Example/Pods/leveldb-library/table/block_builder.cc:55-59 | the estimate is exactly the size of the block if it were finished now |
| `Blocks.BlockBuilder.Reset` | Example/Pods/leveldb-library/table/block_builder.cc:46-53 | the builder holds no entries again |
| `Blocks.BlockBuilder.Finish` | Example/Pods/leveldb-library/table/block_builder.cc:61-69 | the finished block is entries, restart array and its length |
| `Blocks.CheckWrongExactlyIf` | Example/Pods/leveldb-library/table/block.cc:71-73 | the 32-bit check of the source lets through the entries that lie within the bytes and, besides them, exactly those whose two lengths add up to 2^32 or more and, with 2^32 taken off, to no more than what is left |
| `Blocks.WrappedLengths` | Example/Pods/leveldb-library/table/block.cc:71-73 | ... of which there are some: seven bytes |
| `BlockIterators.BlockLayout` | Example/Pods/leveldb-library/table/block_builder.cc:61-105 | the block of any entries and restart interval has the layout the iterator relies on |
| `BlockIterators.BlockIter.ParseNextKey` | Example/Pods/leveldb-library/table/block.cc:225-251 | moves to the next entry, or finds the end or a corruption, on any bytes whose lengths do not wrap around; on a built block the restart index is then that of the group of the entry if and only if it was so from the start or the entry is no restart point |
| `BlockIterators.BlockIter.Next` | Example/Pods/leveldb-library/table/block.cc:138-141 | one entry on; the restart index is then that of its group exactly if the entry is no restart point |
| `BlockIterators.BlockIter.Prev` | Example/Pods/leveldb-library/table/block.cc:143-162 | one entry back, from the first entry to nowhere, always with the restart index of its group; both loops terminate on any bytes |
| `BlockIterators.BlockIter.Seek` | Example/Pods/leveldb-library/table/block.cc:164-202 | restart search plus scan lands on the first entry whose key is not below the target; the restart index is that of its group exactly if it is the first entry of the block or no restart point |
| `BlockIterators.BlockIter.SeekToFirst` | Example/Pods/leveldb-library/table/block.cc:204-207 | on the first entry, with the restart index of its group |
| `BlockIterators.BlockIter.SeekToLast` | Example/Pods/leveldb-library/table/block.cc:209-214 | on the last entry, with the restart index of its group, or nowhere if there is none |
| `BlockIterators.ReadForwards` | Example/Pods/leveldb-library/table/block.cc:204-207 | iterating a finished block forwards yields exactly the entries added |
| `BlockIterators.ReadBackwards` | Example/Pods/leveldb-library/table/block.cc:143-162 | iterating backwards yields them last first |
| `BlockIterators.Find` | Example/Pods/leveldb-library/table/block.cc:164-202 | seeking in a block of increasing keys finds the first entry at or above the target |
| `NanopbRoundTrip.ZigZagRoundTrip` | Example/Pods/nanopb/pb_decode.c:1285-1297 | zigzag coding is undone |
| `NanopbRoundTrip.SignedRoundTrip` | Example/Pods/nanopb/pb_encode.c:776-797 | sign-extended negative integers come back |
| `NanopbRoundTrip.ScalarRoundTrip` | Example/Pods/nanopb/pb_decode.c:1334-1523 | every scalar type decodes to the value encoded, whatever follows |
| `NanopbVarints.DecodeReads` | Example/Pods/nanopb/pb_decode.c:187-248 | on any input: a varint without end is refused; any other is accepted exactly if none of its bytes counts as an overflow, and read as the 32 bits collected from it |
| `NanopbVarints.FittingReads` | Example/Pods/nanopb/pb_decode.c:209-248 | a varint of any length that stands for a number below 2^32 (the sum of digit k times 128^k) is read as that number |
| `NanopbVarints.ShortVarints` | Example/Pods/nanopb/pb_decode.c:240-244 | a varint of at most five bytes is accepted exactly if its number is below 2^32 |
| `NanopbVarints.RemainderReads` | Example/Pods/nanopb/pb_decode.c:216-238 | without a digit at a position that has wrapped around, what is read is the number modulo 2^32 |
| `NanopbVarints.ExtendsExactlyIf` | Example/Pods/nanopb/pb_decode.c:221-230 | what is accepted stands for the 64-bit sign extension of the result exactly if it is the ten bytes of one |
| `NanopbVarints.MisreadExactlyIf` | Example/Pods/nanopb/pb_decode.c:209-248 | over all inputs: a varint is accepted although it stands neither for the result nor for its sign extension if and only if no byte counts as an overflow, it is not the ten bytes of a sign, and the fifth byte goes on with bits above its low four, or there is a digit where the position has wrapped around, or one beyond the word |
| `NanopbVarints.SixBytes` | Example/Pods/nanopb/pb_decode.c:240-244 | an input for the first case: the fifth byte goes on, its upper three bits are lost |
| `NanopbVarints.SevenBytes` | Example/Pods/nanopb/pb_decode.c:221-230 | one for the last: a sign that is extended by one byte only |
| `NanopbVarints.PaddedVarint` | Example/Pods/nanopb/pb_decode.c:213-235 | any number of empty digits and a last one: the number it stands for, and what is read, with the last digit at a position that goes round and round |
| `NanopbVarints.PaddedMisread` | Example/Pods/nanopb/pb_decode.c:213-235 | ... which gives a family of inputs for the second case: empty digits and a last one at a position that has wrapped around, from 38 bytes on |
| `NanopbVarints.LongVarintRefused` | Example/Pods/nanopb/pb_encode.c:608-628 | the varint the encoder writes for a number from 2^32 up to 2^63 is refused |
| `NanopbRoundTrip.PackedReads` | Example/Pods/nanopb/pb_decode.c:426-461 | packed arrays come back item by item |
| `NanopbRoundTrip.MessageRoundTrip` | Example/Pods/nanopb/pb_decode.c:934-1082 | for every schema of static fields and every message the encoder accepts, decoding the encoded bytes gives back the message and leaves nothing if and only if at any depth every string leaves room for its terminator and every length in front of a value is below 2^32 |
| `NanopbEncoder.FillVarint` | Example/Pods/nanopb/pb_encode.c:608-628 | the loop over seven-bit groups writes the varint |
| `NanopbEncoder.OStream.Write` | Example/Pods/nanopb/pb_encode.c:103-124 | a sizing stream counts what a writing stream writes, and a full stream fails |
| `NanopbEncoder.OStream.PackedSize` | Example/Pods/nanopb/pb_encode.c:169-196 | the size of a packed array, multiplied out or counted, is what is then written |
| `NanopbEncoder.OStream.EncodePacked` | Example/Pods/nanopb/pb_encode.c:147-207 | tag, size and items of a packed array |
| `NanopbEncoder.OStream.EncodeSubmessage` | Example/Pods/nanopb/pb_encode.c:717-765 | the second pass always writes what the sizing pass counted, at every depth |
| `NanopbEncoder.OStream.EncodeMessage` | Example/Pods/nanopb/pb_encode.c:528-550 | the fields of the message in table order; a message with an array or bytes longer than their members allow, at any depth, is refused |
| `NanopbEncoder.EncodeWithSize` | Example/Pods/nanopb/pb_encode.c:567-576 | the size computed beforehand is the number of bytes written |
| `NanopbFields.FieldIter.Find` | Example/Pods/nanopb/pb_common.c:87-104 | the circular search finds the field of a tag, or goes once round |
| `NanopbFields.FieldIter.CountRequired` | Example/Pods/nanopb/pb_decode.c:1039-1052 | running to the end of the table counts the required fields |
| `NanopbFields.RequiredMask.Mark` | Example/Pods/nanopb/pb_decode.c:1021-1026 | one bit of the two words is set |
| `NanopbFields.RequiredMask.AllSet` | Example/Pods/nanopb/pb_decode.c:1054-1072 | the word-wise check says whether all counted bits are set |
| `NanopbFields.MaskDecides` | Example/Pods/nanopb/pb_decode.c:1039-1079 | the check on the bits decides whether the first 64 required fields were all seen |
| `NanopbDecoder.IStream.DecodeVarint32` | Example/Pods/nanopb/pb_decode.c:187-253 | the loop reads, on any bytes and with the bit position kept in a byte, the function that DecodeReads and MisreadExactlyIf characterise |
| `NanopbDecoder.IStream.DecodeVarint` | Example/Pods/nanopb/pb_decode.c:255-276 | 64-bit varints, on any bytes |
| `NanopbDecoder.IStream.SkipField` | Example/Pods/nanopb/pb_decode.c:321-331 | unknown fields are skipped by wire type |
| `NanopbDecoder.IStream.MakeSubstream` | Example/Pods/nanopb/pb_decode.c:372-385 | the bytes of a substream leave the parent's count |
| `NanopbDecoder.IStream.CloseSubstream` | Example/Pods/nanopb/pb_decode.c:387-400 | what a substream has not read is skipped: the parent goes on behind it |
| `NanopbDecoder.DecodeStaticField` | Example/Pods/nanopb/pb_decode.c:406-483 | one field of any kind, with conservation of bytes |
| `NanopbDecoder.DecodeSubmessage` | Example/Pods/nanopb/pb_decode.c:1525-1547 | a nested message in a substream |
| `NanopbDecoder.DecodeNext` | Example/Pods/nanopb/pb_decode.c:948-1036 | one turn of the loop: end, unknown field, known field, or the terminator of an empty table, which is found as field number 0 |
| `NanopbDecoder.DecodeFields` | Example/Pods/nanopb/pb_decode.c:934-1082 | decoding terminates on every byte string; success conserves bytes and means every required field among the first 64 was seen |

## Left out

- Blocks.DecodeEntry: entries whose two lengths wrap around 2^32 are rejected here, and passed by the check of the source, as `Blocks.CheckWrongExactlyIf` says; what is read behind the block then is not modelled.
- BlockIterators.BlockIter.ParseNextKey: on such entries it finds a corruption.
- Compaction.DoCompactionWork: a flush in its middle is a step of its own (`FlushInside`, `ProtocolCompaction`), and so is giving up at shutdown or after an I/O error (`Protocol.GiveUpCompaction`); entries with corrupt keys are not modelled.
- CompactionRun.RunCompaction: the tables are written without I/O errors; the steps around it are in the protocol.
- Crc32c.ExtendIsValue: the step for one byte is a parameter instead of the table of the source, and the loops that take four and sixteen bytes at a time are not modelled.
- CompactionRun.CompactSplitVersion: that a run leads to the version is not shown; it is any version with a user key split between two files of level 2.
- NanopbRoundTrip.MessageRoundTrip: messages of 2^63 bytes and more, which no object in memory has, and default values of absent members are not covered.
- NanopbDecoder.DecodeNext: where the bool read for the terminator of an empty table is stored is not modelled; it belongs to no field.
- InternalIterators.IteratorSeesHistory: each move of an iterator is proved for the entries of that moment; a memtable that grows during a move is covered by `SkipLists.SearchesSkipNothing`.
- BackgroundWork.CrashExactlyAfterFailure: what a null pointer does is not modelled; the run ends there.
- GroupCommit.BuildBatchGroup: calls waiting in the queue are given as a sequence, not as a deque of pointers.
- SkipLists.SkipList.Insert: nodes are named by their keys, and atomic loads and stores are sequentially consistent.
- SkipLists.SearchesSkipNothing: the readers that move through the list with Next and Prev are not part of the state machine.
- ProtocolTheorems.CrashRecovery: I/O errors other than the crash, the previous log number (always 0) and log reuse are not modelled; the log number is assumed not to reach the largest sequence number.
- ProtocolJobs.StartCompactionKeepsInv: the step is taken only where the compaction preserves reads (`NoResurrection`), which the source does not look at and `CompactionMeaning.CompactionPreservesReads` shows to be necessary; the numbers of the outputs are taken at once, not one by one between those of flushes; only level 0 looks at the order of numbers.
- ProtocolCompaction.FinishCompactionKeepsInv: the step is taken only where no output spans a flushed file (`OutputsFit`), which the source does not look at and `FlushInside.WellFormedExactlyIfFits` shows to be necessary; inputs without gaps always meet it.
- LogReader.Reader.ReadNext: the initial offset is 0, as it is wherever the database opens a log; reports are their sizes, without the words of the reason.
- BackgroundWork.NoLostWakeup: a thread that comes back from its wait gives the mutex up before it looks again, which only adds interleavings.
- VersionEdits.EditRoundTrip: compact pointers and the comparator name of the MANIFEST snapshot are encoded but carry no meaning in the protocol.
- Versions.Get: entries with a corrupt type byte, seek charging and statistics.
- DbIterator.DBIter.Seek: corrupt internal keys, read sampling and freeing of large buffers.
- Compaction of a range level by level (`CompactRange` of the database), properties, approximate sizes, repair, destroying a database.
- Tables: index and filter blocks, compression, the block cache and the table cache; a table is a sorted run.
- Reference counts of memtables, versions and files: what they protect is that files in use are not removed.
- Slowdown of writers by one millisecond, logging, and background thread scheduling by the environment.
- nanopb callbacks, extensions, pointer fields, implicit presence of proto3, fixed-count arrays and custom streams.
