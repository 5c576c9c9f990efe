# LevelDB and nanopb, in Dafny

The application in this repository vendors two C and C++ libraries: the
key-value store LevelDB 1.18 and the protocol buffer library nanopb 0.3.8. This
project models what they do and proves that they do it. `dafny verify
dfyconfig.toml` checks everything.

## The database

The reference for everything is a plain history: the list of all writes with
their sequence numbers. A read of a user key at a sequence number is the newest
entry of that key at or below it (`Entries`).

- `Version`, `VersionBuilder`, `CompactionInputs`, `CompactionWork`, `LevelEdits`:
  seven levels of table files, the searches over them, version edits, the choice
  of compaction inputs and the rules by which a merge drops entries.
- `DbState`, `DbLevels`, `DbCompaction`, `DbMachine`: the database as a state
  machine. Group writes go entry by entry into the memtable while readers look
  on, memtables are switched and flushed, files move down, and a compaction runs
  in two phases with anything happening in between. In every reachable state Get
  reads the history.
- `DbDisk`, `DbRecovery`, `DbCrash`: logs, MANIFEST and table files, and what a
  crash may leave of them. Recovery brings back everything but whole groups at
  the end of either log that no sync had covered, any number of times. `DbBytes`:
  the same for files that end at any byte.
- `DbImpl`: the database object. Its methods are the code of DBImpl on its own
  fields; each is proved to take steps of that machine.
- `DbScan`: the iterators over all of it show exactly what reads would find.
- `GroupCommit`: any number of threads in Write, and the log files they write.
- `DbLimits`: runs of the code in which a read goes wrong.

The code does not meet its promise on every input. Three conditions say exactly
where it does.

- Compaction output may be cut between two entries of the same user key, and
  inputs are not extended to such a neighbour. A trivial move is right if and
  only if no neighbour continues the file's last user key
  (`DbLevels.TrivialMoveIsSafeIff`). A merge is right if and only if the files
  left behind hold nothing older of a key that survives and no value that a
  dropped deletion was hiding (`DbCompaction.MergeIsSafeIff`). Otherwise reads go
  wrong: `DbLimits.MovingHalfASplitKeyReadsStale` and
  `DbLimits.MergingHalfASplitKeyReadsStale` are runs from an empty database. Both
  conditions always hold if compactions start only while no snapshot is live
  (`DbMachine.GetIsRightWithoutOldSnapshots`), and a pick that ends at a user key
  boundary meets them (`DbLevels.ClosedMergeIsSafe`).
- A flush beside a running compaction is right if and only if its table does not
  land among what the compaction keeps (`DbCompaction.FlushIsSafeIff`). Beside an
  automatic compaction it never does, because its inputs leave no gap
  (`DbLevels.GapFreeIsClear`); beside a manual one it may, and
  `DbLimits.FlushIntoManualCompactionGap` is a run that loses a key.
- A sync write that returned success is on disk with everything logged before it
  in the same log, but a log is closed unsynced when the memtable is switched. So
  all earlier writes are on disk too if and only if the older log, as long as it
  is not flushed, was synced to its end
  (`GroupCommit.EarlierWritesAreDurableIff`, `GroupCommit.SwitchLosesEarlierWrite`,
  `DbCrash.SurvivorsArePrefixIff`).

## The data structures of LevelDB

- `SkipList`, `MemTable`: the concurrent skip list, one atomic store at a time;
  memtable entries as bytes.
- `DbIter`, `Merger`, `TwoLevel`: the bidirectional iterators, each a cursor on
  one sequence.
- `LogFormat`, `LogRoundTrip`, `LogFiles`, `WriteBatch`, `LogBatches`: the
  write-ahead log down to the byte. `LogDamage`: from any file whatever, reading
  returns only records that stand there with right checksums.
- `BlockFormat`, `BlockReader`, `TableFormat`, `Table`, `TableFile`,
  `Comparator`, `Bloom`, `FilterBlock`, `TableFilter`: table files down to the
  byte, with their filter block.
- `Cache`, `LruCache`, `CacheRuns`: handles in a hash table and in a circular
  list, with reference counts; over any calls a handle lives as long as somebody
  has it.
- `VersionEdit`, `Coding`, `Crc32c`, `Checksums`: the encodings, and what the
  checksum notices. `FormatExamples`: some bytes as they stand on disk.

## nanopb

`NanoPb` says which bytes a message of a descriptor tree is encoded to,
`NanoPbDecode` what the decoder makes of any bytes, `NanoPbEncoder` and
`NanoPbDecoder` are the code on streams and iterators, and `NanoPbRoundTrip`
proves what a message becomes on the way and which messages come back
unchanged. `NanoPbPieces` and `NanoPbLaws` are about bytes from any sender: fields
in any order and more than once, arrays packed or not, fields the reader does not
know. `NanoPbSafety` is about any bytes at all.

Where the documentation and the code differ the code counts. The decoder's check
for missing required fields shifts a 32-bit word by 32 when a message has 32
required fields, and reads past its bit set with 64 or more, which C leaves
undefined; the model reports an error there, and only with that choice are these
messages among those that do not come back. `VersionEdit::Clear` keeps the compaction pointers, so an edit is read
back unchanged only into an edit that has none.

## Model

| member | source | states |
|---|---|---|
| DbMachine.GetIsRightInEveryReachableState | BabylonHealthDemo/Pods/leveldb-library/db/db_impl.cc:1077-1122 | After any run of writes, memtable switches, flushes, moves, compactions and snapshot steps, Get at the last sequence number or at any live snapshot returns what the plain write history says; a move, a pick and a flush are taken under exactly the condition each needs. |
| DbMachine.GetIsRightWithoutOldSnapshots | BabylonHealthDemo/Pods/leveldb-library/db/db_impl.cc:868-976 | If compactions start only while no snapshot is live and their inputs leave no gap, as automatic picks do not, the same holds with no condition on what is left behind. |
| DbMachine.RunsWithoutOldSnapshots | BabylonHealthDemo/Pods/leveldb-library/db/db_impl.cc:898-904 | In such runs no user key is ever split over two files of a level, so every pick ends at a user key boundary. |
| DbMachine.StepIsSafe | BabylonHealthDemo/Pods/leveldb-library/db/db_impl.cc:503-738 | Every step keeps all invariants, and only publishing a write adds to the history. |
| DbMachine.SnapshotReadsAreStable | BabylonHealthDemo/Pods/leveldb-library/db/db_impl.cc:1143-1151 | A snapshot that is still live after any further steps of a run reads what it read before them. |
| DbState.GetReadsHistory | BabylonHealthDemo/Pods/leveldb-library/db/db_impl.cc:1077-1122 | Memtable, then immutable memtable, then version, stopping at the first hit, is the newest history entry at or below the sequence number. |
| DbState.GetWithNewerEntries | BabylonHealthDemo/Pods/leveldb-library/db/db_impl.cc:1089-1113 | The same for a reader that picked up its memtable earlier and reads while unpublished entries arrive in it. |
| DbState.PublishKeepsInv | BabylonHealthDemo/Pods/leveldb-library/db/db_impl.cc:1183-1214 | A group is visible not at all before its sequence number is published and entirely afterwards. |
| DbState.SwitchKeepsInv | BabylonHealthDemo/Pods/leveldb-library/db/db_impl.cc:1322-1344 | Switching to a fresh memtable and log keeps every invariant and the history. |
| DbState.SmallestSnapshotIsOldest | BabylonHealthDemo/Pods/leveldb-library/db/snapshot.h:37-50 | In every state the snapshot at the front of the list, or without snapshots the last sequence number, is at or below every live snapshot and one of them. |
| DbState.MemTableDecides | BabylonHealthDemo/Pods/leveldb-library/db/memtable.cc:108-143 | A memtable decides a read exactly if its log has a visible entry for the key, and then like the history. |
| Entries.ReadIsAnswer | BabylonHealthDemo/Pods/leveldb-library/db/dbformat.h:64-79 | The backwards scan of the history finds the newest visible entry of the key. |
| Entries.RunGetIsNewest | BabylonHealthDemo/Pods/leveldb-library/db/version_set.cc:259-272 | The entry a seek lands on in a sorted run is the newest visible one of its key, or there is none. |
| VersionSearch.SearchIsAnswer | BabylonHealthDemo/Pods/leveldb-library/db/version_set.cc:323-420 | On well-formed levels, stopping at the first level with a hit gives the newest visible entry of all levels. |
| VersionSearch.Get | BabylonHealthDemo/Pods/leveldb-library/db/version_set.cc:323-420 | Level 0 newest file first, then at most one file of each deeper level, found by binary search. |
| VersionSearch.FindFile | BabylonHealthDemo/Pods/leveldb-library/db/version_set.cc:77-96 | The binary search finds the first file whose largest key is at or after the target. |
| VersionSearch.SomeFileOverlapsRange | BabylonHealthDemo/Pods/leveldb-library/db/version_set.cc:112-147 | True if and only if some file meets the range, with either bound missing too. |
| VersionSearch.FirstHitDecides | BabylonHealthDemo/Pods/leveldb-library/db/version_set.cc:350-372 | Searching level 0 newest first, the first hit is the newest visible entry of the level. |
| OverlappingInputs.GetOverlappingInputs | BabylonHealthDemo/Pods/leveldb-library/db/version_set.cc:522-563 | The restarts terminate; at level 0 the result is the least set of files that meets the range and is closed under overlap, deeper it is the files that meet the range. |
| CompactionInputs.SetupOtherInputs | BabylonHealthDemo/Pods/leveldb-library/db/version_set.cc:1297-1362 | The inputs of the next level are exactly those the chosen files meet, also after the expansion; the expansion is the whole range of both, and is taken exactly if it has more files, meets the same files of the next level and stays below the size limit. No gap opens. |
| CompactionInputs.PickCompaction | BabylonHealthDemo/Pods/leveldb-library/db/version_set.cc:1243-1295 | A picked compaction is set up from its starting file alone, or at level 0 from the least set of files that meet it and each other; it is closed under overlap there and covers its key range without a gap. |
| CompactionInputs.ExpandInputs | BabylonHealthDemo/Pods/leveldb-library/db/version_set.cc:1307-1345 | The larger choice is taken if and only if it has more files, meets the same files of the next level and stays below the size limit; otherwise the picked files stay. |
| CompactionInputs.PickLevelForMemTableOutput | BabylonHealthDemo/Pods/leveldb-library/db/version_set.cc:493-519 | A flushed table goes no deeper than level 2 and only past levels it does not touch whose grandparents it does not meet too much of, and it stops early only for one of the three reasons. |
| VersionBuilder.ReplayEqualsStepwise | BabylonHealthDemo/Pods/leveldb-library/db/version_set.cc:656-764 | Feeding all edits through one builder gives the version reached edit by edit, if no file returns to a level it was deleted from. |
| VersionBuilder.ReplayFromNothingIff | BabylonHealthDemo/Pods/leveldb-library/db/version_set.cc:656-764 | A builder that starts from nothing, as in recovery, has after every prefix of the edits the version reached edit by edit, if and only if no number is given to two different files of a level. |
| VersionBuilder.ReusedNumberReturns | BabylonHealthDemo/Pods/leveldb-library/db/version_set.cc:696-697 | Adding a different file under the number of a deleted one brings the deleted file back in replay, and not edit by edit. |
| VersionBuilder.EditedLevel | BabylonHealthDemo/Pods/leveldb-library/db/version_set.cc:656-764 | One edit keeps a level ordered and changes its members by exactly the deleted numbers and the new files. |
| VersionBuilder.Builder.Apply | BabylonHealthDemo/Pods/leveldb-library/db/version_set.cc:656-699 | The builder state of every level follows the edit. |
| VersionBuilder.Builder.SaveTo | BabylonHealthDemo/Pods/leveldb-library/db/version_set.cc:702-748 | Each saved level is the merge of base and added files without the deleted ones. |
| VersionBuilder.SaveLevel | BabylonHealthDemo/Pods/leveldb-library/db/version_set.cc:708-735 | The two-pointer merge over base and added files computes that merge. |
| LevelEdits.EditKeepsWellFormed | BabylonHealthDemo/Pods/leveldb-library/db/version_set.cc:811-893 | An edit whose new files fit keeps levels sorted and newer entries in front of older ones. |
| DbLevels.FlushKeepsInv | BabylonHealthDemo/Pods/leveldb-library/db/db_impl.cc:457-534 | A flush keeps every invariant, even while a compaction runs, unless its table lands among what that compaction keeps. |
| DbLevels.GapFreeIsClear | BabylonHealthDemo/Pods/leveldb-library/db/version_set.cc:493-519 | A flush never lands among the files of a compaction without gaps. |
| DbLevels.TrivialMoveIsSafeIff | BabylonHealthDemo/Pods/leveldb-library/db/db_impl.cc:686-703 | Moving one file down keeps the levels well formed if and only if no neighbour continues its last user key with older entries. |
| DbLevels.MoveKeepsInv | BabylonHealthDemo/Pods/leveldb-library/db/db_impl.cc:686-703 | A trivial move at a user key boundary keeps every invariant and the history. |
| DbLevels.ClosedChoiceIsNewer | BabylonHealthDemo/Pods/leveldb-library/db/version_set.cc:1243-1362 | Files left behind by a boundary-closed pick are newer than its inputs. |
| DbLevels.ClosedMergeIsSafe | BabylonHealthDemo/Pods/leveldb-library/db/version_set.cc:1243-1362 | Inputs that no neighbour continues with older entries of their last user key are safe to merge. |
| DbLimits.MovingHalfASplitKeyReadsStale | BabylonHealthDemo/Pods/leveldb-library/db/db_impl.cc:686-703 | A run from an empty database that ends with a trivial move after which a deleted key reads its old value. |
| DbLimits.MergingHalfASplitKeyReadsStale | BabylonHealthDemo/Pods/leveldb-library/db/db_impl.cc:926-937 | A run from an empty database that ends with a merge which drops a deletion while the value it hid stays in a neighbouring file, and is read. |
| DbLimits.FlushIntoManualCompactionGap | BabylonHealthDemo/Pods/leveldb-library/db/version_set.cc:1364-1397 | A run from an empty database in which a table is flushed into the gap of a manual compaction: its level is out of order afterwards, and the key written last is not found. |
| CompactionWork.MergeKeepsReadsIff | BabylonHealthDemo/Pods/leveldb-library/db/db_impl.cc:897-976 | Dropping what the two rules drop changes no read at or above the oldest snapshot, if and only if no dropped deletion was the newest entry of a key that has an older value outside the merge. |
| CompactionWork.KeptIsSurvivors | BabylonHealthDemo/Pods/leveldb-library/db/db_impl.cc:897-940 | The loop keeps exactly the entries that no newer visible entry of the merge hides and that are no deletions with nothing below. |
| CompactionWork.OnePerUserKey | BabylonHealthDemo/Pods/leveldb-library/db/db_impl.cc:923-937 | With no older snapshot at most one entry of each user key survives. |
| CompactionWork.NewestSurvive | BabylonHealthDemo/Pods/leveldb-library/db/db_impl.cc:907-940 | Then what survives is exactly the newest entry of each user key, unless that is a deletion that no file two or more levels down covers. |
| CompactionWork.BaseLevelCursor.IsBaseLevelForKey | BabylonHealthDemo/Pods/leveldb-library/db/version_set.cc:1434-1453 | With ascending keys the forward-only cursors decide exactly whether a file two or more levels down covers the key. |
| CompactionWork.ShouldDrop | BabylonHealthDemo/Pods/leveldb-library/db/db_impl.cc:907-940 | The loop drops exactly the entries of the two drop rules. |
| DbCompaction.InstallKeepsInv | BabylonHealthDemo/Pods/leveldb-library/db/db_impl.cc:834-853 | Installing a compaction that ran beside writes, flushes and snapshots keeps every invariant and the history. |
| DbCompaction.InstallContents | BabylonHealthDemo/Pods/leveldb-library/db/db_impl.cc:834-853 | After the installation the stored entries are the old ones without the dropped inputs. |
| DbCompaction.InstallKeepsAnswers | BabylonHealthDemo/Pods/leveldb-library/db/db_impl.cc:834-853 | The installed version answers every read from the oldest snapshot on like the flushed history. |
| DbCompaction.MergeIsSafeIff | BabylonHealthDemo/Pods/leveldb-library/db/db_impl.cc:855-1014 | A merge leaves the levels well formed and every read from the oldest snapshot on the same, if and only if the files left behind hold nothing older of a key that survives and no value that a dropped deletion was hiding. |
| DbCompaction.FlushIsSafeIff | BabylonHealthDemo/Pods/leveldb-library/db/db_impl.cc:457-501 | A table flushed beside a running compaction leaves every later installation well formed, if and only if it does not land among what the compaction keeps. |
| DbImpl.DBImpl.Open | BabylonHealthDemo/Pods/leveldb-library/db/db_impl.cc:1445-1477 | Opening any recoverable disk image gives a valid database whose history is the flushed one continued by the logs, and leaves no file that nobody needs. |
| DbImpl.DBImpl.Get | BabylonHealthDemo/Pods/leveldb-library/db/db_impl.cc:1077-1122 | The code of Get returns the read of the history at the snapshot or the last sequence number. |
| DbImpl.DBImpl.GetSnapshot | BabylonHealthDemo/Pods/leveldb-library/db/db_impl.cc:1143-1146 | The last sequence number joins the list of snapshots and nothing else changes. |
| DbImpl.DBImpl.ReleaseSnapshot | BabylonHealthDemo/Pods/leveldb-library/db/db_impl.cc:1148-1151 | One snapshot leaves the list and nothing else changes. |
| DbImpl.DBImpl.WriteGroup | BabylonHealthDemo/Pods/leveldb-library/db/db_impl.cc:1179-1214 | The leader extends the log by one record, synced if asked for, and the history by exactly its group, numbered on from the last sequence number. |
| DbImpl.DBImpl.MakeRoomForWrite | BabylonHealthDemo/Pods/leveldb-library/db/db_impl.cc:1286-1347 | A write that has room, or none but must wait, changes nothing, however many files level 0 has; one that insists or finds the old memtable over its limit, while the one before is flushed and level 0 is not full, gets exactly one new memtable and log, and is then ready if an empty memtable is within the limit. |
| DbImpl.DBImpl.LogAndApply | BabylonHealthDemo/Pods/leveldb-library/db/version_set.cc:811-893 | The edit and its counters are appended to the MANIFEST and the edited version is current. |
| DbImpl.DBImpl.WriteLevel0Table | BabylonHealthDemo/Pods/leveldb-library/db/db_impl.cc:457-501 | A table is written if and only if the memtable is not empty, at a level the placement rule allows. |
| DbImpl.DBImpl.CompactMemTable | BabylonHealthDemo/Pods/leveldb-library/db/db_impl.cc:503-534 | The immutable memtable is gone, its log is no longer needed, the version has its table at the level of the placement rule, no file is left that nobody needs, and no read changes. |
| DbImpl.DBImpl.AddLiveFiles | BabylonHealthDemo/Pods/leveldb-library/db/version_set.cc:1137-1148 | The file numbers of every version that is still referenced, no more and no less. |
| DbImpl.DBImpl.DeleteObsoleteFiles | BabylonHealthDemo/Pods/leveldb-library/db/db_impl.cc:218-272 | A table stays if and only if it is being written or in a version that is still referenced, a log if and only if its number is at or above the log number; what stays is unchanged. |
| DbImpl.InputsAreGone | BabylonHealthDemo/Pods/leveldb-library/db/db_impl.cc:703-713 | After a merge every input table that no referenced version has is gone. |
| DbImpl.DBImpl.DoCompactionWork | BabylonHealthDemo/Pods/leveldb-library/db/db_impl.cc:855-1014 | While other threads write, take snapshots and switch memtables, and full memtables are flushed in between, the outputs hold exactly the kept entries, replace the inputs, and the history only grows. |
| DbImpl.DBImpl.InstallCompactionResults | BabylonHealthDemo/Pods/leveldb-library/db/db_impl.cc:834-853 | In one edit the inputs leave and the outputs arrive. |
| DbImpl.DBImpl.PickFrom | BabylonHealthDemo/Pods/leveldb-library/db/version_set.cc:1243-1295 | What is picked of a valid database is set up from its starting file as PickCompaction says, is chosen from the current version and leaves no gap. |
| DbImpl.DBImpl.BackgroundCompaction | BabylonHealthDemo/Pods/leveldb-library/db/db_impl.cc:655-738 | A full memtable goes first. Otherwise a single file that meets nothing, and little two levels down, moves down alone with nothing rewritten; any other pick, and any that was asked for, is replaced by tables of what the merge keeps, and no file is left that nobody needs. |
| DbImpl.MergedIsInput | BabylonHealthDemo/Pods/leveldb-library/db/version_set.cc:1210-1241 | The merged inputs are sorted and hold every entry of the input files. |
| DbDisk.StepOnDiskKeepsOk | BabylonHealthDemo/Pods/leveldb-library/db/db_impl.cc:503-534 | Every step keeps logs, MANIFEST and tables in the state recovery relies on. |
| DbDisk.SyncKeepsOk | BabylonHealthDemo/Pods/leveldb-library/db/db_impl.cc:1194-1199 | Syncing the log that is being written keeps the disk in that state; the log of a memtable that was switched away is not synced. |
| DbDisk.DeleteObsoleteKeepsOk | BabylonHealthDemo/Pods/leveldb-library/db/db_impl.cc:218-272 | Deleting obsolete files removes nothing that recovery, the current version, an older live version or a running compaction needs. |
| DbDisk.ReplayedIsPrefix | BabylonHealthDemo/Pods/leveldb-library/db/db_impl.cc:318-357 | The logs to replay hold what is not flushed, each of the two cut between two groups. |
| DbRecovery.Recover | BabylonHealthDemo/Pods/leveldb-library/db/db_impl.cc:274-360 | Recovery of a replayable image finds its version, its tables from the logs, a fresh log number and the largest sequence number. |
| DbRecovery.RecoverVersion | BabylonHealthDemo/Pods/leveldb-library/db/db_impl.cc:308-339 | It fails if and only if no record carries counters or a table of the version is missing. |
| DbRecovery.ReplayedVersion | BabylonHealthDemo/Pods/leveldb-library/db/version_set.cc:896-1009 | The version rebuilt from the MANIFEST is the one the running database had reached. |
| DbRecovery.RecoverManifest | BabylonHealthDemo/Pods/leveldb-library/db/version_set.cc:925-985 | All edits go through one builder and the last counters win. |
| DbRecovery.SortLogs | BabylonHealthDemo/Pods/leveldb-library/db/db_impl.cc:318-342 | The logs at or after the log number, each once, in ascending order. |
| DbRecovery.RecoverLogFile | BabylonHealthDemo/Pods/leveldb-library/db/db_impl.cc:362-455 | The tables hold exactly the operations of the log, wherever the memtable was dumped. |
| DbRecovery.RecoverLogs | BabylonHealthDemo/Pods/leveldb-library/db/db_impl.cc:343-357 | All logs together give tables with exactly their operations, and the largest sequence number. |
| DbRecovery.WriteSnapshot | BabylonHealthDemo/Pods/leveldb-library/db/version_set.cc:1054-1082 | The snapshot record lists every file of every level. |
| DbRecovery.SnapshotRebuildsVersion | BabylonHealthDemo/Pods/leveldb-library/db/version_set.cc:1054-1082 | The snapshot record alone rebuilds the version. |
| DbRecovery.ReplayKeepsLevelsOk | BabylonHealthDemo/Pods/leveldb-library/db/db_impl.cc:343-357 | The version with the replayed tables answers for the flushed history continued by the logs. |
| DbCrash.CrashIsRecoverable | BabylonHealthDemo/Pods/leveldb-library/db/db_impl.cc:274-360 | In every reachable state whatever a crash leaves can be recovered, with all flushed operations and whole groups of either log, at least those that were synced. |
| DbCrash.OpenedIsOk | BabylonHealthDemo/Pods/leveldb-library/db/db_impl.cc:1445-1477 | A reopened database satisfies every invariant of a running one. |
| DbCrash.SurvivorsArePrefixIff | BabylonHealthDemo/Pods/leveldb-library/db/db_impl.cc:362-455 | What survives is a prefix of the history if and only if nothing of the older log was lost or nothing of the newest was kept; with both logs whole it is all of it. |
| DbCrash.WholeOlderLogSurvivesAsPrefix | BabylonHealthDemo/Pods/leveldb-library/db/db_impl.cc:1322-1340 | If the older log was synced to its end, or only the process died, a prefix of the history survives. |
| DbCrash.TornManifestRecord | BabylonHealthDemo/Pods/leveldb-library/db/version_set.cc:849-874 | A torn last MANIFEST record is as if the step had not happened. |
| DbBytes.CutAtAnyByteIsRecoverable | BabylonHealthDemo/Pods/leveldb-library/db/db_impl.cc:362-455 | If the logs end at any bytes behind what was synced, what is read of them is whole groups, and recovery finds the history up to those. |
| DbBytes.CutWhileLoggingIsRecoverable | BabylonHealthDemo/Pods/leveldb-library/db/version_set.cc:896-1015 | If besides the last record of the MANIFEST is torn at any byte, recovery finds the database before the step, and if it is whole the one after. |
| DbBytes.CutManifestReadsWholeEdits | BabylonHealthDemo/Pods/leveldb-library/db/version_set.cc:934-985 | A MANIFEST cut at any byte decodes to the whole edits in front of the cut. |
| DbCrash.SyncedWritesSurvive | BabylonHealthDemo/Pods/leveldb-library/db/db_impl.cc:1194-1199 | Groups that a sync has brought to the disk are never lost, in either log. |
| DbCrash.RecoveryCanBeRepeated | BabylonHealthDemo/Pods/leveldb-library/db/db_impl.cc:274-360 | A crash during recovery loses nothing. |
| DbCrash.EventKeepsOk | BabylonHealthDemo/Pods/leveldb-library/db/db_impl.cc:218-360 | Steps, file collection, references and crashes keep every invariant and change the history only as stated. |
| DbCrash.GetIsRightAcrossCrashes | BabylonHealthDemo/Pods/leveldb-library/db/db_impl.cc:1077-1122 | From a new database on, after any events with any number of crashes, Get reads the surviving history. |
| GroupCommit.BuildBatchGroup | BabylonHealthDemo/Pods/leveldb-library/db/db_impl.cc:1237-1282 | The record is the operations of the first n writers in queue order, no sync write rides with a non-sync leader, the size is bounded, and the next writer could not have joined. |
| GroupCommit.OneLeader | BabylonHealthDemo/Pods/leveldb-library/db/db_impl.cc:1169-1175 | In every run two threads are never in the unlocked section at once; whoever is there leads the queue. |
| GroupCommit.LogIsWhatSucceeded | BabylonHealthDemo/Pods/leveldb-library/db/db_impl.cc:1183-1214 | With no record in flight the log is the operations of the writers whose records were written, each writer once and in queue order, with disjoint ascending sequence ranges; after a failed sync nothing succeeds. |
| GroupCommit.ReturnedIsTaken | BabylonHealthDemo/Pods/leveldb-library/db/db_impl.cc:1216-1232 | Every writer that returns was dequeued and returns the status it was dequeued with. |
| GroupCommit.SyncWriteIsDurable | BabylonHealthDemo/Pods/leveldb-library/db/db_impl.cc:1190-1210 | A sync write that returned success has its operations in one record, and that record is on disk with everything logged before it in the same log. |
| GroupCommit.EarlierWritesAreDurableIff | BabylonHealthDemo/Pods/leveldb-library/db/db_impl.cc:1322-1340 | Everything logged before it is on disk too, if and only if it is not in the newest log, or no older log is left unflushed, or that one was synced to its end before it was closed. |
| GroupCommit.SwitchLosesEarlierWrite | BabylonHealthDemo/Pods/leveldb-library/util/env_posix.cc:183-188 | Any write without sync, a switch to a new log, any sync write: a run in which both report success and only the second is on disk. |
| GroupCommit.LoggedGroupIsNumbered | BabylonHealthDemo/Pods/leveldb-library/db/db_impl.cc:1179-1184 | The group being logged is numbered from the published sequence number on, as the database steps require. |
| GroupCommit.StepKeepsInv | BabylonHealthDemo/Pods/leveldb-library/db/db_impl.cc:1162-1233 | Every step of every thread keeps the invariants of the protocol. |
| DbIter.ViewIsAnswers | BabylonHealthDemo/Pods/leveldb-library/db/db_iter.cc:173-203 | The pairs of the view at a sequence number are exactly the answers of reads there. |
| DbIter.ViewIsOrdered | BabylonHealthDemo/Pods/leveldb-library/db/db_iter.cc:146-171 | Each user key is shown once, in ascending order. |
| DbIter.CursorIsIndex | BabylonHealthDemo/Pods/leveldb-library/db/db_iter.cc:146-271 | The neighbours of a shown entry are its neighbours in the view. |
| DbIter.DBIter.ShowsPair | BabylonHealthDemo/Pods/leveldb-library/db/db_iter.cc:66-73 | In either direction, key and value are those of the entry shown. |
| DbIter.DBIter.Next | BabylonHealthDemo/Pods/leveldb-library/db/db_iter.cc:146-171 | From either direction, the iterator moves to the next pair of the view. |
| DbIter.DBIter.Prev | BabylonHealthDemo/Pods/leveldb-library/db/db_iter.cc:205-230 | From either direction, the iterator moves to the previous pair of the view. |
| DbIter.DBIter.Seek | BabylonHealthDemo/Pods/leveldb-library/db/db_iter.cc:274-286 | The iterator stands at the first pair of the view at or after the target. |
| DbIter.DBIter.SeekToFirst | BabylonHealthDemo/Pods/leveldb-library/db/db_iter.cc:288-297 | The iterator stands at the first pair of the view. |
| DbIter.DBIter.SeekToLast | BabylonHealthDemo/Pods/leveldb-library/db/db_iter.cc:299-304 | The iterator stands at the last pair of the view. |
| DbIter.DBIter.FindPrevUserEntry | BabylonHealthDemo/Pods/leveldb-library/db/db_iter.cc:232-272 | The backward scan stops behind the last user key with a value, past overwrites, deletions and entries too new. |
| DbScan.SourcesAreMergeable | BabylonHealthDemo/Pods/leveldb-library/db/db_impl.cc:1035-1064 | In every state the iterators that are merged are sorted, no entry is in two of them, and together they have every entry of the memtables and the tables. |
| DbScan.ScanReadsHistory | BabylonHealthDemo/Pods/leveldb-library/db/db_impl.cc:1124-1134 | A database iterator shows exactly the keys that a read of the write history finds, with those values, each once and ascending. |
| DbScan.ScanIsRightInEveryReachableState | BabylonHealthDemo/Pods/leveldb-library/db/db_impl.cc:1124-1134 | The same after any run, at the last sequence number and at every live snapshot. |
| DbScan.AddIterators | BabylonHealthDemo/Pods/leveldb-library/db/version_set.cc:225-242 | Every file of level 0 by itself, then one concatenation for each deeper level that is not empty. |
| DbScan.NewInternalIterator | BabylonHealthDemo/Pods/leveldb-library/db/db_impl.cc:1035-1064 | The merging iterator over these merges every entry there is. |
| Merger.MergingIterator.Next | BabylonHealthDemo/Pods/leveldb-library/table/merger.cc:59-83 | From either direction, the next position of the sorted merge. |
| Merger.MergingIterator.Prev | BabylonHealthDemo/Pods/leveldb-library/table/merger.cc:85-112 | From either direction, the previous position of the sorted merge. |
| Merger.MergingIterator.Seek | BabylonHealthDemo/Pods/leveldb-library/table/merger.cc:51-57 | The position of the merge where the seek lands. |
| Merger.MergingIterator.TurnForward | BabylonHealthDemo/Pods/leveldb-library/table/merger.cc:68-79 | Changing direction puts every other child just after the current key. |
| Merger.MergingIterator.SmallestHasRank | BabylonHealthDemo/Pods/leveldb-library/table/merger.cc:155-168 | If all children stand at their first entry of rank m or more, the smallest of them has rank m. |
| Merger.MergingIterator.LargestHasRank | BabylonHealthDemo/Pods/leveldb-library/table/merger.cc:170-183 | If all children stand at their last entry up to rank m, the largest of them has rank m. |
| TwoLevel.TwoLevelIterator.Seek | BabylonHealthDemo/Pods/leveldb-library/table/two_level_iterator.cc:91-96 | The position of the concatenated blocks where the seek lands, past empty blocks. |
| TwoLevel.TwoLevelIterator.Next | BabylonHealthDemo/Pods/leveldb-library/table/two_level_iterator.cc:112-116 | The next position of the concatenated blocks. |
| TwoLevel.TwoLevelIterator.Prev | BabylonHealthDemo/Pods/leveldb-library/table/two_level_iterator.cc:118-122 | The previous position of the concatenated blocks. |
| TwoLevel.TwoLevelIterator.SeekToLast | BabylonHealthDemo/Pods/leveldb-library/table/two_level_iterator.cc:105-110 | The last position of the concatenated blocks. |
| TwoLevel.TwoLevelIterator.ShowsEntry | BabylonHealthDemo/Pods/leveldb-library/table/two_level_iterator.cc:37-44 | Key and value are those of the entry at the position in the concatenation. |
| TwoLevel.SeekThroughIndex | BabylonHealthDemo/Pods/leveldb-library/table/two_level_iterator.cc:91-96 | Seeking in the index and then in its block is seeking in the whole table. |
| SkipList.SkipList.Store | BabylonHealthDemo/Pods/leveldb-library/db/skiplist.h:337-370 | Every single store keeps each level a sorted sub-list of the one below with its links initialised. |
| SkipList.SkipList.Insert | BabylonHealthDemo/Pods/leveldb-library/db/skiplist.h:337-370 | An insertion adds exactly its key. |
| SkipList.SkipList.StartInsert | BabylonHealthDemo/Pods/leveldb-library/db/skiplist.h:337-363 | Raising the height and making the node change no list. |
| SkipList.PublishKeepsGood | BabylonHealthDemo/Pods/leveldb-library/db/skiplist.h:364-369 | Publishing a node whose own link is stored keeps the levels sorted and nested. |
| SkipList.SkipList.FindGreaterOrEqual | BabylonHealthDemo/Pods/leveldb-library/db/skiplist.h:262-281 | With a writer storing between any two loads, the reader finds the first node at or after the key at its last load and misses nothing that was there before. |
| SkipList.SkipList.FindLessThan | BabylonHealthDemo/Pods/leveldb-library/db/skiplist.h:285-303 | Under the same interference, the last node before the key. |
| SkipList.SkipList.FindLast | BabylonHealthDemo/Pods/leveldb-library/db/skiplist.h:306-322 | Under the same interference, the last node. |
| LogRoundTrip.LogRoundTrip | BabylonHealthDemo/Pods/leveldb-library/db/log_reader.cc:59-164 | Reading what was written gives the list of records back and reports nothing, for empty records and records over many blocks alike. |
| LogRoundTrip.PrefixOfFileIsPrefixOfRecords | BabylonHealthDemo/Pods/leveldb-library/db/log_reader.cc:181-263 | On a file cut at any byte, exactly the records that are complete, and no corruption report. |
| LogRoundTrip.AddRecordExtends | BabylonHealthDemo/Pods/leveldb-library/db/log_writer.cc:27-73 | Each record written appends its fragments to the file. |
| LogFiles.Writer.AddRecord | BabylonHealthDemo/Pods/leveldb-library/db/log_writer.cc:27-73 | The fragments of the record, filling block tails with zeros. |
| LogFiles.Writer.EmitPhysicalRecord | BabylonHealthDemo/Pods/leveldb-library/db/log_writer.cc:75-100 | Header with masked checksum, length and type, then the payload. |
| LogFiles.Reader.ReadRecord | BabylonHealthDemo/Pods/leveldb-library/db/log_reader.cc:59-164 | The reassembly of fragments, for any file whatever, with the number of reports. |
| LogFiles.Reader.ReadPhysicalRecord | BabylonHealthDemo/Pods/leveldb-library/db/log_reader.cc:181-263 | The physical record at the position, for any file whatever: truncation, zeros, bad length, bad checksum. |
| LogFiles.ReadLog | BabylonHealthDemo/Pods/leveldb-library/db/log_reader.cc:59-164 | Reading to the end gives all records the format defines. |
| LogDamage.ReadIffWritten | BabylonHealthDemo/Pods/leveldb-library/db/log_reader.cc:181-263 | A physical record is accepted if and only if it stands there byte by byte as the writer writes it. |
| LogDamage.ChangeIsRefused | BabylonHealthDemo/Pods/leveldb-library/db/log_reader.cc:237-254 | A record in which up to four neighbouring bytes of type and payload, or of the checksum, have changed is refused and reported. |
| LogDamage.AllRecordsAreInFile | BabylonHealthDemo/Pods/leveldb-library/db/log_reader.cc:59-164 | From any file whatever, each record returned is the payloads of a first, middle and last fragments, or a full one, that stand in the file right after each other with right checksums; records come in the order of the file. |
| LogBatches.CutLogKeepsWholeBatches | BabylonHealthDemo/Pods/leveldb-library/db/db_impl.cc:407-429 | A log of batches cut at any byte gives a prefix of whole batches. |
| LogBatches.ReplayLog | BabylonHealthDemo/Pods/leveldb-library/db/db_impl.cc:407-429 | Replaying the cut file puts exactly the operations of those batches into the memtable, numbered on from each batch. |
| BatchFormat.BatchRoundTrip | BabylonHealthDemo/Pods/leveldb-library/db/write_batch.cc:42-80 | A batch of puts and deletes is iterated back whole, with its sequence number and count. |
| BatchFormat.CountDecides | BabylonHealthDemo/Pods/leveldb-library/db/write_batch.cc:75-79 | Well-formed operations behind any count are accepted if and only if the count is theirs. |
| BatchFormat.UnknownRecordIsRefused | BabylonHealthDemo/Pods/leveldb-library/db/write_batch.cc:53-74 | A record of an unknown kind behind any operations is refused after those operations. |
| WriteBatches.WriteBatch.Put | BabylonHealthDemo/Pods/leveldb-library/db/write_batch.cc:98-103 | One more put at the end, one more in the count. |
| WriteBatches.WriteBatch.Delete | BabylonHealthDemo/Pods/leveldb-library/db/write_batch.cc:105-109 | One more deletion at the end, one more in the count. |
| WriteBatches.WriteBatch.Append | BabylonHealthDemo/Pods/leveldb-library/db/write_batch.cc:141-145 | The operations of the other batch follow, and the counts add up. |
| WriteBatches.WriteBatch.SetSequence | BabylonHealthDemo/Pods/leveldb-library/db/write_batch.cc:94-96 | The number is replaced and the operations stay. |
| WriteBatches.InsertInto | BabylonHealthDemo/Pods/leveldb-library/db/write_batch.cc:128-134 | Any bytes whatever: the well-formed operations up to the first damage are inserted under ascending numbers, and success means there was none and the count was right. |
| MemTables.MemTable.Add | BabylonHealthDemo/Pods/leveldb-library/db/memtable.cc:82-106 | The stored bytes go where the entry goes in the database model. |
| MemTables.MemTable.Get | BabylonHealthDemo/Pods/leveldb-library/db/memtable.cc:108-143 | The bytes found decide the key exactly like the sorted run of the database model. |
| MemTables.LessIsBefore | BabylonHealthDemo/Pods/leveldb-library/db/memtable.cc:33-39 | Comparing stored internal keys is comparing model entries, for lookup keys too. |
| VersionEdits.EditRoundTrip | BabylonHealthDemo/Pods/leveldb-library/db/version_edit.cc:41-210 | Decoding the bytes of an edit into an edit gives it back behind the compaction pointers that were there; so it is the same edit if and only if there were none. |
| VersionEdits.PayloadIsTaken | BabylonHealthDemo/Pods/leveldb-library/db/version_edit.cc:109-199 | Each kind of record is read back, whatever follows. |
| VersionEdits.UnknownTagIsRefused | BabylonHealthDemo/Pods/leveldb-library/db/version_edit.cc:195-210 | An edit with a record of an unknown kind anywhere is refused. |
| VersionEdits.UnknownLevelIsRefused | BabylonHealthDemo/Pods/leveldb-library/db/version_edit.cc:98-107 | So is one with a level that does not exist. |
| VersionEdits.InsertPairIsSetInsert | BabylonHealthDemo/Pods/leveldb-library/db/version_edit.h:76-91 | Deleted files are an ordered set: inserting keeps the order and adds the one pair. |
| VersionEdits.VersionEdit.Clear | BabylonHealthDemo/Pods/leveldb-library/db/version_edit.cc:26-39 | Everything is cleared but the compaction pointers. |
| VersionEdits.VersionEdit.EncodeTo | BabylonHealthDemo/Pods/leveldb-library/db/version_edit.cc:41-86 | The fields that are set, then pointers, deleted files and new files in order. |
| VersionEdits.VersionEdit.DecodeFrom | BabylonHealthDemo/Pods/leveldb-library/db/version_edit.cc:109-210 | Any bytes whatever: the edit they describe, or corruption. |
| BlockFormat.BlockBuilder.Add | BabylonHealthDemo/Pods/leveldb-library/table/block_builder.cc:73-107 | The entry joins the list of the block, with its key compressed against the last one. |
| BlockFormat.BlockBuilder.Finish | BabylonHealthDemo/Pods/leveldb-library/table/block_builder.cc:63-71 | The bytes of the block for its list and restart interval. |
| BlockFormat.BlockBuilder.EstimateIsExact | BabylonHealthDemo/Pods/leveldb-library/table/block_builder.cc:57-61 | The size estimate is the size of the finished block. |
| BlockReader.ReadBack | BabylonHealthDemo/Pods/leveldb-library/table/block.cc:205-253 | Iterating the finished block gives the list back, for any interval of at least one. |
| BlockReader.BlockIter.Seek | BabylonHealthDemo/Pods/leveldb-library/table/block.cc:165-203 | Binary search over restart points and a scan end at the first key not below the target. |
| BlockReader.BlockIter.Prev | BabylonHealthDemo/Pods/leveldb-library/table/block.cc:144-163 | The entry before, found from an earlier restart point. |
| BlockReader.BlockIter.Next | BabylonHealthDemo/Pods/leveldb-library/table/block.cc:139-142 | The entry after. |
| BlockReader.BlockIter.SeekToLast | BabylonHealthDemo/Pods/leveldb-library/table/block.cc:210-215 | The last entry of the block. |
| BlockReader.EntryDecodes | BabylonHealthDemo/Pods/leveldb-library/table/block.cc:53-77 | An encoded entry is decoded to its lengths, its key suffix and its value, on the fast path and the general one. |
| TableFile.TableBuilder.Add | BabylonHealthDemo/Pods/leveldb-library/table/table_builder.cc:92-121 | The entry joins the table, its user key the filter; the block is written exactly if it has reached the block size with this entry, and the first key behind a block gives it a short index key. |
| TableFile.TableBuilder.Flush | BabylonHealthDemo/Pods/leveldb-library/table/table_builder.cc:123-137 | The block is stored and waits for its index key; its keys are in the filter of its offset. |
| TableFile.TableBuilder.Finish | BabylonHealthDemo/Pods/leveldb-library/table/table_builder.cc:199-254 | The file is a table of exactly the blocks that were added, each behind a separator not below its last key and below the next block; its metaindex leads to a filter block of their user keys, if there is a policy. |
| TableFile.Open | BabylonHealthDemo/Pods/leveldb-library/table/table.cc:38-89 | The index block is found through the footer. |
| TableFile.ReadMeta | BabylonHealthDemo/Pods/leveldb-library/table/table.cc:91-141 | The filter block is found through the metaindex, and no filter where the table has none. |
| TableFile.InternalGet | BabylonHealthDemo/Pods/leveldb-library/table/table.cc:226-255 | With the filter block of the table or without one, the least key of the table at or after the target is found if it has the user key that is sought. |
| TableFilters.NoFalseNegatives | BabylonHealthDemo/Pods/leveldb-library/db/dbformat.cc:105-119 | The filter block built along with a table never refuses the user key of an entry, asked at the offset of its block. |
| TableFilters.BlockIsBehind | BabylonHealthDemo/Pods/leveldb-library/table/table_builder.cc:123-137 | When a block has been written its keys are where the filter of its offset will be. |
| TableSearch.SoughtIsLeast | BabylonHealthDemo/Pods/leveldb-library/table/table.cc:226-255 | The first key at or after the target in the block the index leads to is the least such key of the table. |
| TableSearch.NothingSought | BabylonHealthDemo/Pods/leveldb-library/table/table.cc:226-255 | If that block has none, no entry of the sought user key is in the table at or after the target. |
| TableFormat.HandleRoundTrip | BabylonHealthDemo/Pods/leveldb-library/table/format.cc:15-30 | A block handle is read back. |
| TableFormat.FooterRoundTrip | BabylonHealthDemo/Pods/leveldb-library/table/format.cc:32-63 | Both handles are read back from the footer. |
| TableFormat.StoredIsRead | BabylonHealthDemo/Pods/leveldb-library/table/format.cc:66-143 | A block that was stored is read back, with or without checking its checksum. |
| TableFormat.ReadIffStored | BabylonHealthDemo/Pods/leveldb-library/table/format.cc:66-143 | With the checksum verified, a block is returned if and only if it stands there with its type and checksum. |
| TableFormat.ChangeIsRefused | BabylonHealthDemo/Pods/leveldb-library/table/format.cc:93-101 | A stored block in which up to four neighbouring bytes of block and type, or of the checksum, have changed is refused. |
| TableFormat.MagicIsNeeded | BabylonHealthDemo/Pods/leveldb-library/table/format.cc:47-57 | A footer without the magic number is refused. |
| Comparator.FindShortestSeparator | BabylonHealthDemo/Pods/leveldb-library/util/comparator.cc:29-51 | If the byte behind the common prefix leaves room for one in between, the start cut there with that byte raised by one, which is strictly between start and limit; otherwise the start itself. |
| Comparator.FindShortSuccessor | BabylonHealthDemo/Pods/leveldb-library/util/comparator.cc:53-65 | The key itself if and only if it is all 0xff; otherwise the key cut behind its first other byte, raised by one, which is above the key. |
| Comparator.NothingShorterBetween | BabylonHealthDemo/Pods/leveldb-library/util/comparator.cc:41-50 | No string strictly between start and limit is shorter than that separator. |
| Comparator.NothingShorterAbove | BabylonHealthDemo/Pods/leveldb-library/util/comparator.cc:53-65 | No string above the key is shorter than that successor. |
| Comparator.RankIsOrder | BabylonHealthDemo/Pods/leveldb-library/util/comparator.cc:25-27 | The bytewise order embeds in the reals, which the database model uses for user keys. |
| DbFormat.FindShortestSeparator | BabylonHealthDemo/Pods/leveldb-library/db/dbformat.cc:68-85 | If the user key gets shorter, it with the largest sequence number; otherwise the start. It is not below the start, and below the limit as an internal key if the start is. |
| DbFormat.FindShortSuccessor | BabylonHealthDemo/Pods/leveldb-library/db/dbformat.cc:87-99 | If the user key gets shorter, it with the largest sequence number; otherwise the key. It is at or above the key as an internal key. |
| DbFormat.InternalOrderIsEntryOrder | BabylonHealthDemo/Pods/leveldb-library/db/dbformat.cc:50-66 | Ascending user keys, then descending numbers: the order of entries in the database model. |
| FilterBlock.KeysMayMatch | BabylonHealthDemo/Pods/leveldb-library/table/filter_block.cc:95-109 | For any blocks, however many share a 2 KiB slot or skip some, every key may match at the offset of its block. |
| FilterBlock.BuildFilterBlock | BabylonHealthDemo/Pods/leveldb-library/table/filter_block.cc:22-76 | The calls of the table builder place the keys of each block in the slot of its offset. |
| FilterBlock.BuildAndAsk | BabylonHealthDemo/Pods/leveldb-library/table/filter_block.cc:22-109 | Building a filter block and asking for a key that was added never says no. |
| FilterBlock.FilterBlockBuilder.StartBlock | BabylonHealthDemo/Pods/leveldb-library/table/filter_block.cc:22-28 | The keys so far fill the slots before the block, all of them in the first, and the others have none. |
| FilterBlock.FilterBlockReader.KeyMayMatch | BabylonHealthDemo/Pods/leveldb-library/table/filter_block.cc:95-109 | The answer of the filter of the slot; without a usable slot, yes. |
| Bloom.CreateFilter | BabylonHealthDemo/Pods/leveldb-library/util/bloom.cc:35-61 | The filter of the keys is appended: exactly the bits that they probe are set, in at least 64 bits, and the number of probes follows. |
| Bloom.KeysMatch | BabylonHealthDemo/Pods/leveldb-library/util/bloom.cc:35-87 | Every key matches its filter, for any hash function, up to 30 probes and 32-bit wrap-around. |
| Bloom.EmptyFilterMatchesNothing | BabylonHealthDemo/Pods/leveldb-library/util/bloom.cc:63-87 | A filter without keys matches nothing. |
| Bloom.KeyMayMatch | BabylonHealthDemo/Pods/leveldb-library/util/bloom.cc:63-87 | True if and only if the filter is of a newer kind, or is long enough and all probed bits are set. |
| Coding.Varint32RoundTrip | BabylonHealthDemo/Pods/leveldb-library/util/coding.cc:47-73 | A 32-bit varint is read back at its position, whatever follows. |
| Coding.Varint64RoundTrip | BabylonHealthDemo/Pods/leveldb-library/util/coding.cc:81-90 | A 64-bit varint is read back at its position, whatever follows. |
| Coding.EncodeVarint32 | BabylonHealthDemo/Pods/leveldb-library/util/coding.cc:47-73 | The five cases write the base-128 digits. |
| Coding.DecodeVarint | BabylonHealthDemo/Pods/leveldb-library/util/coding.cc:143-158 | The shifting loop reads the number of the base-128 digits, cut to the width, or finds none. |
| Coding.CutVarintFails | BabylonHealthDemo/Pods/leveldb-library/util/coding.cc:112-129 | A varint that is cut short is noticed. |
| Coding.LongVarintFails | BabylonHealthDemo/Pods/leveldb-library/util/coding.cc:112-158 | Five bytes that all say that more follow are no 32-bit varint, and ten no 64-bit varint. |
| Coding.TakesDelimited | BabylonHealthDemo/Pods/leveldb-library/util/coding.cc:182-192 | A length-prefixed slice is read back, whatever follows. |
| Crc32c.Extend | BabylonHealthDemo/Pods/leveldb-library/util/crc32c.cc:286-329 | For every length and alignment the four-table loop is the bytewise reflected CRC of section 12.1 of RFC 3720. |
| Crc32c.Step4AddsFourBytes | BabylonHealthDemo/Pods/leveldb-library/util/crc32c.cc:304-312 | One four-table step is four one-byte steps. |
| Crc32c.ExtendConcat | BabylonHealthDemo/Pods/leveldb-library/util/crc32c.h:14-22 | Extending twice is extending by the concatenation. |
| Crc32c.UnmaskMask | BabylonHealthDemo/Pods/leveldb-library/util/crc32c.h:31-41 | Unmasking undoes masking. |
| Crc32c.MaskUnmask | BabylonHealthDemo/Pods/leveldb-library/util/crc32c.h:31-41 | Masking undoes unmasking. |
| Crc32c.ShortChangeIsNoticed | BabylonHealthDemo/Pods/leveldb-library/util/crc32c.cc:286-329 | Whatever happens to up to four bytes next to each other, the CRC changes. |
| FormatExamples.CrcCheckValue | BabylonHealthDemo/Pods/leveldb-library/util/crc32c.cc:286-329 | The CRC of the string 123456789 is the check value 0xe3069283. |
| FormatExamples.LogRecordExample | BabylonHealthDemo/Pods/leveldb-library/db/log_writer.cc:75-100 | The bytes of a log record. |
| FormatExamples.BatchExample | BabylonHealthDemo/Pods/leveldb-library/db/write_batch.cc:5-15 | The bytes of a batch with a put and a deletion. |
| FormatExamples.InternalKeyExample | BabylonHealthDemo/Pods/leveldb-library/db/dbformat.cc:12-21 | The bytes of internal keys of both kinds. |
| FormatExamples.EditExamples | BabylonHealthDemo/Pods/leveldb-library/db/version_edit.cc:41-86 | The bytes of one record of each kind of a version edit. |
| FormatExamples.FooterExample | BabylonHealthDemo/Pods/leveldb-library/table/format.cc:32-45 | The last bytes of every table file. |
| HandleTables.HandleTable.Resize | BabylonHealthDemo/Pods/leveldb-library/util/cache.cc:107-131 | Moving every handle to a longer list of buckets keeps exactly the same handles, each in the chain of its bucket. |
| HandleTables.HandleTable.Insert | BabylonHealthDemo/Pods/leveldb-library/util/cache.cc:62-76 | A map update: the handle that had the key is replaced and returned, and there are never more handles than buckets. |
| HandleTables.HandleTable.Remove | BabylonHealthDemo/Pods/leveldb-library/util/cache.cc:78-86 | A map removal: the handle with the key leaves and is returned. |
| HandleTables.HandleTable.Lookup | BabylonHealthDemo/Pods/leveldb-library/util/cache.cc:58-60 | A map lookup. |
| HandleTables.NodesUnique | BabylonHealthDemo/Pods/leveldb-library/util/cache.cc:98-105 | No two handles of the table have the same key. |
| LruCache.LRUCache.Insert | BabylonHealthDemo/Pods/leveldb-library/util/cache.cc:225-256 | The new handle replaces the one with its key, is newest and held by the caller; then the oldest go until the rest fits. |
| LruCache.LRUCache.Lookup | BabylonHealthDemo/Pods/leveldb-library/util/cache.cc:209-218 | The handle with the key becomes newest and the caller one more of its holders; nothing else changes, and nothing at all on a miss. |
| LruCache.LRUCache.Release | BabylonHealthDemo/Pods/leveldb-library/util/cache.cc:220-223 | One holder less; the handle is freed if the cache does not have it and nobody else holds it. |
| LruCache.LRUCache.Erase | BabylonHealthDemo/Pods/leveldb-library/util/cache.cc:258-265 | The handle with the key leaves list and table, and is freed if nobody holds it. |
| LruCache.LRUCache.Unref | BabylonHealthDemo/Pods/leveldb-library/util/cache.cc:186-194 | The last reference frees the handle and its charge. |
| LruCache.LRUCache.LRU_Remove | BabylonHealthDemo/Pods/leveldb-library/util/cache.cc:196-199 | The rest of the circular list stays linked both ways. |
| LruCache.ValidIsNoLeak | BabylonHealthDemo/Pods/leveldb-library/util/cache.cc:186-265 | In every state what is not freed is what the cache or a caller holds, no key is cached twice, and the usage is the total charge of all that is not freed. |
| CacheSpec.EvictedIsLeast | BabylonHealthDemo/Pods/leveldb-library/util/cache.cc:248-253 | Eviction takes oldest handles first and no more than it must; after it the rest fits or the cache is empty. |
| CacheSpec.EvictedKeepsHeld | BabylonHealthDemo/Pods/leveldb-library/util/cache.cc:248-253 | Making room frees nothing a caller holds. |
| CacheSpec.LookedIsMapLookup | BabylonHealthDemo/Pods/leveldb-library/util/cache.cc:209-218 | A hit returns the handle that the map has, makes it the newest, keeps the others in their order and adds exactly one holder; a miss changes nothing. |
| CacheSpec.PutIsMapUpdate | BabylonHealthDemo/Pods/leveldb-library/util/cache.cc:225-246 | The insertion, before any eviction, sets one key of the map; the new handle is the newest and held once more, and the others keep their order. |
| CacheSpec.ErasedIsMapRemoval | BabylonHealthDemo/Pods/leveldb-library/util/cache.cc:258-265 | An erasure removes one key of the map; the others keep their order, and no holder changes. |
| CacheRuns.HandlesLiveAsLongAsOwned | BabylonHealthDemo/Pods/leveldb-library/util/cache.cc:186-265 | After any calls, the holders of a handle are as many as it was returned more often than released, counted by what the callers saw; a handle is freed exactly if nobody has it so and the cache does not either. |
| CacheRuns.CacheMapsToLatest | BabylonHealthDemo/Pods/leveldb-library/util/cache.cc:209-265 | After any calls, what the cache maps a key to was inserted last under it and not erased since; while every insertion fits, nothing is missing. |
| CacheRuns.LookupFindsLatest | BabylonHealthDemo/Pods/leveldb-library/util/cache.cc:209-218 | So a lookup finds the handle inserted last under its key or nothing, and for sure while everything fits. |
| NanoPbRoundTrip.RoundTrip | BabylonHealthDemo/Pods/nanopb/pb_decode.c:852-967 | An encoded message comes back from its bytes if and only if its strings are terminated inside their buffers, its unwritten zeros are the defaults, and every message has 0 to 63 required fields but not 32; with 32 or with 64 and more the C code is undefined, and the statement rests on the error that the model reports there. |
| NanoPbRoundTrip.MessageDecodes | BabylonHealthDemo/Pods/nanopb/pb_decode.c:852-967 | What every message becomes when its bytes are decoded, at every depth. |
| NanoPbRoundTrip.SlotDecodes | BabylonHealthDemo/Pods/nanopb/pb_decode.c:356-429 | What was written for one field restores that field, or fails, and touches no other. |
| NanoPbRoundTrip.ValueDecodes | BabylonHealthDemo/Pods/nanopb/pb_decode.c:1165-1379 | Each kind of value is read back from its bytes, whatever follows. |
| NanoPbRoundTrip.SignedComesBack | BabylonHealthDemo/Pods/nanopb/pb_decode.c:1165-1200 | A signed value of 1, 2, 4 or 8 bytes survives the unsigned 64-bit varint. |
| NanoPbRoundTrip.ZigZagComesBack | BabylonHealthDemo/Pods/nanopb/pb_decode.c:1118-1130 | Zigzag decoding undoes zigzag encoding for the whole range. |
| NanoPbRoundTrip.PackedDecodes | BabylonHealthDemo/Pods/nanopb/pb_decode.c:374-402 | A packed array is read back item by item. |
| NanoPbPieces.PiecesDecode | BabylonHealthDemo/Pods/nanopb/pb_decode.c:852-953 | Any tagged values, packed arrays and unknown fields in any order are decoded to what the values of each field come to: arrays gather them, submessages merge, anything else keeps the last, unions their last member; an error if an array overflows, a value is rejected or a required field has no piece. |
| NanoPbPieces.ValueMerges | BabylonHealthDemo/Pods/nanopb/pb_decode.c:1334-1356 | At every depth, a value decoded onto what is stored is merged into it if it is a submessage, and replaces it otherwise. |
| NanoPbPieces.TaggedValueIsSkipped | BabylonHealthDemo/Pods/nanopb/pb_decode.c:231-287 | The wire type of every encoded value tells a reader who does not know the field exactly where it ends. |
| NanoPbLaws.SinglyTaggedAppends | BabylonHealthDemo/Pods/nanopb/pb_decode.c:404-413 | Values sent one by one, of any kind, are appended to their array in order if it has room. |
| NanoPbLaws.RepeatedGathers | BabylonHealthDemo/Pods/nanopb/pb_decode.c:374-414 | Packed and single chunks of an array, mixed with anything else, give the concatenation of their values; if they are more than it holds, an error. |
| NanoPbLaws.LastValueWins | BabylonHealthDemo/Pods/nanopb/pb_decode.c:366-372 | A field with one plain value keeps the last one sent, and is an error if it is required and none was. |
| NanoPbLaws.LastMemberWins | BabylonHealthDemo/Pods/nanopb/pb_decode.c:416-425 | Of a union the member sent last is set, and no other. |
| NanoPbLaws.SameValuesSameMessage | BabylonHealthDemo/Pods/nanopb/pb_decode.c:852-953 | Two messages with the same values for each field, and the same last members, decode alike, whatever their order and packing. |
| NanoPbLaws.UnknownFieldsChangeNothing | BabylonHealthDemo/Pods/nanopb/pb_decode.c:887-909 | Unknown fields anywhere in a message change nothing. |
| NanoPbLaws.NewerMessageDecodes | BabylonHealthDemo/Pods/nanopb/pb_decode.c:887-909 | A message encoded with more fields than its reader knows decodes as if it had been encoded without them. |
| NanoPbLaws.ConcatenationMerges | BabylonHealthDemo/Pods/nanopb/pb_decode.c:852-953 | Two messages one after the other decode as the second on top of the first. |
| NanoPbSafety.DecodedMessageFits | BabylonHealthDemo/Pods/nanopb/pb_decode.c:955-967 | Whatever the bytes, a decoded message fits the types, buffers and arrays of its descriptor, no union has two members, and it can be encoded again. |
| NanoPb.MessageEncodes | BabylonHealthDemo/Pods/nanopb/pb_encode.c:451-473 | The encoder fails on exactly the messages whose byte or array counts overflow. |
| NanoPbLaws.WireExamples | BabylonHealthDemo/Pods/nanopb/pb.h:311-316 | The bytes of tagged values of each wire type. |
| NanoPbLaws.PackedExample | BabylonHealthDemo/Pods/nanopb/pb_encode.c:116-201 | The bytes of a packed array. |
| NanoPbEncoder.EncodeMessage | BabylonHealthDemo/Pods/nanopb/pb_encode.c:451-473 | On any stream, success if and only if the message can be encoded and fits; then exactly its bytes are written, with the wire types that Skip goes by, and never past the limit. |
| NanoPbEncoder.EncodeSubmessage | BabylonHealthDemo/Pods/nanopb/pb_encode.c:600-648 | The length from the dry run is the length written, at every depth. |
| NanoPbEncoder.EncodedSize | BabylonHealthDemo/Pods/nanopb/pb_encode.c:480-489 | The dry run counts exactly the bytes of the message. |
| NanoPbEncoder.EncodeArray | BabylonHealthDemo/Pods/nanopb/pb_encode.c:116-201 | Numbers packed behind their total size, everything else tagged singly. |
| NanoPbEncoder.EncodeSlot | BabylonHealthDemo/Pods/nanopb/pb_encode.c:271-349 | Required, optional, implicit, repeated and union fields. |
| NanoPbEncoder.OStream.Write | BabylonHealthDemo/Pods/nanopb/pb_encode.c:91-109 | Bytes are written if and only if they fit, and only counted without a buffer. |
| NanoPbDecoder.DecodeNoInit | BabylonHealthDemo/Pods/nanopb/pb_decode.c:852-953 | For any bytes whatever, the result the format defines, and the stream consumed; an error stands for the undefined check of 32, or of 64 and more, required fields. |
| NanoPbDecoder.DecodeStaticField | BabylonHealthDemo/Pods/nanopb/pb_decode.c:356-429 | One field of any rule, packed or not, as DecodeField defines it for any bytes; SinglyTaggedAppends, RepeatedGathers, LastValueWins and LastMemberWins say what that comes to. |
| NanoPbDecoder.DecodeSubmessage | BabylonHealthDemo/Pods/nanopb/pb_decode.c:1334-1356 | A submessage from its own substream, merged into what is there. |
| NanoPbDecoder.DecodeNextTag | BabylonHealthDemo/Pods/nanopb/pb_decode.c:251-275 | A tag, the end of the message, or an error. |
| NanoPbDecoder.DecodeVarintOf | BabylonHealthDemo/Pods/nanopb/pb_decode.c:173-229 | The varint at the front, cut to the width, and whether the stream ran out. |
| NanoPbDecoder.SkipField | BabylonHealthDemo/Pods/nanopb/pb_decode.c:277-287 | An unknown field is passed over by its wire type; TaggedValueIsSkipped says that this is exactly the field. |
| NanoPbDecoder.FieldIter.Find | BabylonHealthDemo/Pods/nanopb/pb_common.c:78-95 | Once around from anywhere, the field with the tag if there is one. |
| NanoPbDecoder.FieldIter.Next | BabylonHealthDemo/Pods/nanopb/pb_common.c:20-76 | The next field, or back at the first, with the number of required fields before it. |
| NanoPbDecoder.FieldIter.CountRequired | BabylonHealthDemo/Pods/nanopb/pb_decode.c:925-935 | The number of required fields of the message. |

## Left out

- DbImpl.DBImpl.BackgroundCompaction: requires that the pick meets the exact condition of a safe move or merge, which the code does not check (DbLimits.MovingHalfASplitKeyReadsStale, DbLimits.MergingHalfASplitKeyReadsStale), and leaves no gap; the score and the pointer that lead to the pick are not modelled.
- DbImpl.DBImpl.DoCompactionWork: requires inputs that are safe to merge and leave no gap, for the same reason; manual compactions with gaps are steps of DbMachine, where each flush meets its own condition.
- DbMachine.GetIsRightInEveryReachableState: a move, a pick and a flush are steps only under the conditions that TrivialMoveIsSafeIff, MergeIsSafeIff and FlushIsSafeIff prove exact; the runs of DbLimits are what the code does without them. Which file is picked, where outputs are cut and how large files are is left open, so scores, seek statistics and write slow-downs are not modelled.
- DbImpl.DBImpl.MakeRoomForWrite: returns where the code would wait on a condition variable; memory usage is a function of the memtable that is given, as the arena is not part of this model.
- DbImpl.DBImpl.OtherThreads: lets other threads run only at the start of each turn of the merge loop, one whole operation at a time; finer interleavings are the state machine's.
- DbCrash.CrashIsRecoverable: cuts logs between records; DbBytes.CutAtAnyByteIsRecoverable does it at any byte. A file is cut at its end; blocks that were written out of order are not modelled.
- DbImpl.DBImpl.WriteGroup: the log and its sync do not fail; failures are in GroupCommit.
- CompactionInputs.PickCompaction: takes the starting file as a parameter; the choice by compaction pointer, score or seeks is left open.
- DbBytes.CutWhileLoggingIsRecoverable: the MANIFEST record being written is the only part of the MANIFEST that may be torn, since the code syncs it before it goes on; table files are those that were synced.
- DbState.PublishKeepsInv: sequence numbers stay below the largest one, which the code does not check either.
- Entries.ReadIsAnswer: user keys are reals in the database model; Comparator.RankIsOrder embeds the bytewise order, other comparators are assumed to embed likewise.
- GroupCommit.LogIsWhatSucceeded: a failed append leaves no record; partial appends are not modelled, and a batch is its list of operations and its size.
- SkipList.SkipList.FindGreaterOrEqual: the writer makes any bounded number of stores during one search, so that the search ends; stores and loads are sequentially consistent and keys are reals.
- LogFiles.Reader.ReadRecord: reads from the start of the file; initial offsets are not modelled.
- LogDamage.ChangeIsRefused: is not about the two length bytes, which choose what the checksum is compared with; LogDamage.AllRecordsAreInFile holds for them too.
- NanoPbPieces.PiecesDecode: every value and packed array is shorter than 4 GiB; groups, which the decoder refuses, are no pieces.
- TableFile.TableBuilder.Finish: does not compress. A filter block of 4 GiB and more makes no promise. Corrupt blocks are covered only as far as ReadBlock may refuse them.
- TableFile.Open: files shorter than 4 GiB, as are the blocks in them; the same holds for TableFile.InternalGet.
- WriteBatches.WriteBatch.Append: appending a batch to itself is not modelled.
- WriteBatches.InsertInto: the memtable holds only older entries and the numbers do not pass the largest, as the write path and recovery see to.
- TwoLevel.TwoLevelIterator.Seek: works on runs of entries; the byte-level index and blocks are in TableFile.
- DbIter.DBIter.Next: works on the merged run of entries; the parsing of corrupt internal keys is not modelled.
- DbRecovery.Recover: no paranoid checks and no I/O errors.
- HandleTables.HandleTable.Resize: counters do not wrap at 32 bits. The sharding of the cache by the top four hash bits is not modelled.
- NanoPbRoundTrip.RoundTrip: static fields only; callbacks, extensions and allocated fields are not modelled, a message is a tree of values in place of a C struct, pb_size_t is one byte wide in BYTES_OFFSET, and messages are shorter than 4 GiB.
- NanoPbDecoder.FieldIter.Find: tags of one message differ; the arithmetic of data offsets is not modelled.
- NanoPb.MessageEncodes: submessages with implicit presence are not modelled.
- VersionEdits.EditRoundTrip: the file metadata of an edit is bytes here and entries in VersionBuilder; comparator names and the previous log number do not take part in recovery.
- Crc32c.Extend: the four tables are computed from the polynomial; the typed-in constants are not compared with them.
- Version reference counts are the list of versions held; the doubly linked snapshot list is a sequence.
- Env, threads, locks, clocks, info logs, statistics, GetProperty, approximate sizes, RepairDB, Snappy and the C bindings.
- The Swift application, its UI and network code.
