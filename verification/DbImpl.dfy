// The database object: the methods of DBImpl, run by the code itself, are steps
// of the machine. Whatever they do in between, the write history is what a
// reader sees.

module DbImpl {
  import opened Wrappers
  import opened Entries
  import opened Files
  import VersionSearch
  import opened VersionBuilder
  import opened OverlappingInputs
  import opened CompactionInputs
  import opened CompactionWork
  import opened LevelEdits
  import opened DbState
  import opened DbLevels
  import opened DbCompaction
  import opened DbMachine
  import opened DbDisk
  import opened DbRecovery
  import opened DbCrash
  import GroupCommit

  const L0_SLOWDOWN_WRITES_TRIGGER := 8
  const L0_STOP_WRITES_TRIGGER := 12

  datatype Room = Ready | MustWait

  class DBImpl {
    const writeBufferSize: nat
    const memoryUsage: Run -> nat   // ApproximateMemoryUsage, as the arena has it

    var mem: Run
    var imm: Option<Run>
    var levels: Levels              // versions_->current()
    var held: seq<Levels>           // older versions that are still referenced
    var lastSequence: nat
    var snapshots: seq<nat>
    var compaction: Option<Pending> // the compaction that is running
    var pendingOutputs: set<nat>
    var nextFile: nat
    var logFileNumber: nat
    var logNumber: nat
    var disk: Disk

    ghost var db: Db                // the same, with the write history

    ghost predicate Same()
      reads this
    {
      SameBut(db) && nextFile == db.s.nextFile
    }

    ghost predicate SameBut(db: Db)
      reads this
    {
      && mem == db.s.mem && imm == db.s.imm && levels == db.s.levels && held == db.held
      && lastSequence == db.s.lastSequence && snapshots == db.s.snapshots && compaction == db.s.pending
      && pendingOutputs == db.s.pendingOutputs
      && logFileNumber == db.logFile && logNumber == db.logNumber && disk == db.disk
    }

    ghost predicate Valid()
      reads this
    {
      Same() && DbOk(db)
    }

    ghost function History(): seq<Entry>
      reads this
    {
      db.s.History()
    }

    // DB::Open on whatever an earlier run or a crash left: the recovered
    // version and logs, a fresh log, and a new MANIFEST. Files of no more use go.
    constructor Open(image: Disk, writeBufferSize: nat, memoryUsage: Run -> nat,
                     ghost flushed: seq<Entry>, ghost horizon: nat, ghost numbers: seq<nat>)
      requires Recoverable(image, flushed, horizon, numbers)
      ensures Valid() && !db.logging && compaction == None && snapshots == [] && NothingObsolete()
      ensures History() == flushed + Flatten(Records(image.logs, numbers))
      ensures this.writeBufferSize == writeBufferSize && this.memoryUsage == memoryUsage
    {
      hide DbOk, Recoverable, Replayable, IsOpened, Flatten, Records, ApplyEdit, SnapshotEdit, ReplayEdit, Numbers, ApplyEdits;
      RecoverableIsReplayable(image, flushed, horizon, numbers);
      var r := Recover(image, numbers);
      var o := r.value;
      var snapshot := WriteSnapshot(o.levels);
      this.writeBufferSize, this.memoryUsage := writeBufferSize, memoryUsage;
      mem, imm, levels, held := [], None, o.levels, [];
      lastSequence, snapshots, compaction, pendingOutputs := o.lastSequence, [], None, {};
      nextFile, logFileNumber, logNumber := o.logNumber + 1, o.logNumber, o.logNumber;
      disk := Disk(image.logs[o.logNumber := []], map[], [ManifestRecord(snapshot, None)], image.tables + Numbers(o.files));
      db := OpenedDb(image, o, flushed + Flatten(Records(image.logs, numbers)), horizon);
      new;
      ReplayInRange(o.files);
      LogAndApply(ReplayEdit(o.files), o.logNumber);
      OpenedIsOk(image, flushed, horizon, numbers, o);
      SameState(db);
      DeleteObsoleteFiles();
    }

    // The code takes a step of the machine.
    ghost method Step(a: Action)
      requires DbOk(db) && EnabledOnDisk(db, a)
      modifies this`db
      ensures Possible(old(db).s, a) && db == PerformOnDisk(old(db), a) && DbOk(db)
      ensures HistoryGrows(old(db).s, a, db.s)
    {
      StepOnDiskKeepsOk(db, a);
      db := PerformOnDisk(db, a);
    }

    // ------------------------------------------------------------ reading

    // Get, at the last sequence number or at a live snapshot.
    method Get(k: UserKey, snapshot: Option<nat>) returns (r: Option<Value>)
      requires Valid() && (snapshot.Some? ==> snapshot.value in snapshots)
      ensures r == Read(History(), k, if snapshot.Some? then snapshot.value else lastSequence)
    {
      hide DbOk;
      var sn := if snapshot.Some? then snapshot.value else lastSequence;
      ReadsHistory(db, k, sn);
      var m := RunGet(mem, k, sn);
      if m.Some? { return ResultOf(m.value); }
      if imm.Some? {
        m := RunGet(imm.value, k, sn);
        if m.Some? { return ResultOf(m.value); }
      }
      r := VersionSearch.Get(levels, k, sn);
    }

    method GetSnapshot() returns (sn: nat)
      requires Valid()
      modifies this`snapshots, this`db
      ensures Valid() && sn == lastSequence && snapshots == old(snapshots) + [sn]
      ensures History() == old(History()) && db.logging == old(db).logging
    {
      hide DbOk;
      sn := lastSequence;
      snapshots := snapshots + [sn];
      Step(TakeSnapshot);
    }

    method ReleaseSnapshot(i: nat)
      requires Valid() && i < |snapshots|
      modifies this`snapshots, this`db
      ensures Valid() && snapshots == old(snapshots)[..i] + old(snapshots)[i + 1..]
      ensures History() == old(History()) && db.logging == old(db).logging
    {
      hide DbOk;
      snapshots := snapshots[..i] + snapshots[i + 1..];
      Step(DropSnapshot(i));
    }

    // ------------------------------------------------------------ writing

    // The leader's part of Write: one log record for the group, synced if its
    // write asks for it, its operations into the memtable one by one, then all
    // of them visible at once.
    method WriteGroup(updates: seq<GroupCommit.Operation>, sync: bool)
      requires Valid() && !db.logging && lastSequence + |updates| < MAX_SEQUENCE_NUMBER
      modifies this`mem, this`lastSequence, this`disk, this`db
      ensures Valid() && !db.logging
      ensures lastSequence == old(lastSequence) + |updates|
      ensures History() == old(History()) + GroupCommit.Numbered(updates, old(lastSequence) + 1)
      ensures logFileNumber in disk.logs && logFileNumber in old(disk).logs
      ensures disk.logs[logFileNumber]
        == old(disk).logs[logFileNumber] + [GroupCommit.Numbered(updates, old(lastSequence) + 1)]
      ensures disk.synced == if sync then old(disk).synced[logFileNumber := |disk.logs[logFileNumber]|] else old(disk).synced
    {
      hide DbOk, Same, Read;
      var group := GroupCommit.Numbered(updates, lastSequence + 1);
      AddRecord(group);
      if sync { SyncLogFile(group); }
      InsertInto(group);
      SetLastSequence(group);
    }

    // log_->AddRecord.
    method AddRecord(group: Run)
      requires Valid() && !db.logging && NumberedAfter(group, lastSequence)
      modifies this`disk, this`db
      ensures Valid() && db.logging && db.s.inflight == group && db.s.applied == 0 && History() == old(History())
      ensures logFileNumber in disk.logs && logFileNumber in old(disk).logs
      ensures disk == old(disk).(logs := old(disk).logs[logFileNumber := old(disk).logs[logFileNumber] + [group]])
    {
      hide DbOk;
      CanBegin(db);
      disk := disk.(logs := disk.logs[logFileNumber := disk.logs[logFileNumber] + [group]]);
      Step(BeginWrite(group));
    }

    // logfile_->Sync().
    method SyncLogFile(ghost group: Run)
      requires Valid() && db.logging && db.s.inflight == group && db.s.applied == 0 && logFileNumber in disk.logs
      modifies this`disk, this`db
      ensures Valid() && db.logging && db.s.inflight == group && db.s.applied == 0 && History() == old(History())
      ensures disk == old(disk).(synced := old(disk).synced[logFileNumber := |old(disk).logs[logFileNumber]|])
    {
      hide DbOk;
      SyncKeepsOk(db);
      disk := disk.(synced := disk.synced[logFileNumber := |disk.logs[logFileNumber]|]);
      db := SyncLog(db);
    }

    // WriteBatchInternal::InsertInto the memtable, without the mutex.
    method InsertInto(group: Run)
      requires Valid() && db.logging && db.s.inflight == group && db.s.applied == 0
      modifies this`mem, this`db
      ensures Valid() && db.logging && db.s.inflight == group && db.s.applied == |group| && History() == old(History())
    {
      hide DbOk;
      var i := 0;
      while i < |group|
        invariant i <= |group| && Valid() && db.logging && db.s.inflight == group && db.s.applied == i
        invariant History() == old(History())
      {
        InsertEntry(group[i]);
        i := i + 1;
      }
    }

    method InsertEntry(e: Entry)
      requires Valid() && db.logging && db.s.applied < |db.s.inflight| && e == db.s.inflight[db.s.applied]
      modifies this`mem, this`db
      ensures Valid() && db.logging && db.s.inflight == old(db).s.inflight && db.s.applied == old(db).s.applied + 1
      ensures History() == old(History())
    {
      hide DbOk;
      mem := Insert(mem, e);
      Step(InsertNext);
    }

    // versions_->SetLastSequence.
    method SetLastSequence(group: Run)
      requires Valid() && db.logging && db.s.inflight == group && db.s.applied == |group|
      modifies this`lastSequence, this`db
      ensures Valid() && !db.logging && lastSequence == old(lastSequence) + |group| && History() == old(History()) + group
    {
      hide DbOk;
      Step(PublishWrite);
      lastSequence := lastSequence + |group|;
    }

    // MakeRoomForWrite, up to where it would wait for the background thread. A
    // write that has room changes nothing, however full level 0 is. One that has
    // none, or insists, gets a new memtable and log if the old memtable is flushed
    // and level 0 is not full, and waits without a change if not.
    method MakeRoomForWrite(force: bool) returns (r: Room)
      requires Valid() && !db.logging
      modifies this`mem, this`imm, this`nextFile, this`logFileNumber, this`disk, this`db
      ensures Valid() && !db.logging && History() == old(History())
      ensures !force && memoryUsage(old(mem)) <= writeBufferSize ==>
        r == Ready && unchanged(this`mem, this`imm, this`nextFile, this`logFileNumber, this`disk)
      ensures (force || memoryUsage(old(mem)) > writeBufferSize) && (old(imm).Some? || |levels[0]| >= L0_STOP_WRITES_TRIGGER) ==>
        r == MustWait && unchanged(this`mem, this`imm, this`nextFile, this`logFileNumber, this`disk)
      ensures (force || memoryUsage(old(mem)) > writeBufferSize) && old(imm) == None && |levels[0]| < L0_STOP_WRITES_TRIGGER ==>
        && imm == Some(old(mem)) && mem == [] && logFileNumber == old(nextFile) && nextFile == old(nextFile) + 1
        && disk == old(disk).(logs := old(disk).logs[old(nextFile) := []], synced := old(disk).synced[old(nextFile) := 0])
        && (r == Ready <==> memoryUsage([]) <= writeBufferSize)
    {
      hide DbOk, Valid;
      var allowDelay, mustSwitch := !force, force;
      ghost var switched := false;
      while true
        invariant Valid() && !db.logging && History() == old(History())
        invariant !switched ==> mem == old(mem) && imm == old(imm) && logFileNumber == old(logFileNumber) && disk == old(disk)
                                && nextFile == old(nextFile) && mustSwitch == force
        invariant switched ==> imm == Some(old(mem)) && mem == [] && logFileNumber == old(nextFile) && nextFile == old(nextFile) + 1
        invariant switched ==> !mustSwitch && old(imm) == None && |levels[0]| < L0_STOP_WRITES_TRIGGER
        invariant switched ==> force || memoryUsage(old(mem)) > writeBufferSize
        invariant switched ==>
          disk == old(disk).(logs := old(disk).logs[old(nextFile) := []], synced := old(disk).synced[old(nextFile) := 0])
        decreases imm == None, allowDelay
      {
        if allowDelay && |levels[0]| >= L0_SLOWDOWN_WRITES_TRIGGER {
          allowDelay := false;
        } else if !mustSwitch && memoryUsage(mem) <= writeBufferSize {
          return Ready;
        } else if imm.Some? {
          return MustWait;
        } else if |levels[0]| >= L0_STOP_WRITES_TRIGGER {
          return MustWait;
        } else {
          SwitchToNewLog();
          mustSwitch, switched := false, true;
        }
      }
    }

    // A new log file, and a new memtable that goes with it.
    method SwitchToNewLog()
      requires Valid() && !db.logging && imm == None
      modifies this`mem, this`imm, this`nextFile, this`logFileNumber, this`disk, this`db
      ensures Valid() && !db.logging && History() == old(History())
      ensures imm == Some(old(mem)) && mem == [] && logFileNumber == old(nextFile) && nextFile == old(nextFile) + 1
      ensures disk == old(disk).(logs := old(disk).logs[old(nextFile) := []], synced := old(disk).synced[old(nextFile) := 0])
    {
      hide DbOk;
      CanBegin(db);
      var newLogNumber := nextFile;
      nextFile := nextFile + 1;
      disk := disk.(logs := disk.logs[newLogNumber := []], synced := disk.synced[newLogNumber := 0]);
      logFileNumber := newLogNumber;
      imm := Some(mem);
      mem := [];
      Step(SwitchMem);
    }

    // --------------------------------------------------------- background

    // VersionSet::LogAndApply: the edit with the counters goes into the
    // MANIFEST, and its version becomes current.
    method LogAndApply(edit: VersionEdit, newLogNumber: nat)
      requires EditInRange(edit)
      modifies this`levels, this`logNumber, this`disk
      ensures levels == ApplyEdit(old(levels), edit) && logNumber == newLogNumber
      ensures disk == old(disk).(manifest := old(disk).manifest
        + [ManifestRecord(edit, Some(Counters(newLogNumber, nextFile, lastSequence)))])
    {
      var builder := new Builder(levels);
      builder.Apply(edit);
      var v := builder.SaveTo();
      assert v == ApplyEdit(levels, edit);
      levels, logNumber := v, newLogNumber;
      disk := disk.(manifest := disk.manifest + [ManifestRecord(edit, Some(Counters(newLogNumber, nextFile, lastSequence)))]);
    }

    // The table of the immutable memtable, and the level it goes to.
    method WriteLevel0Table() returns (level: nat, f: Option<File>)
      requires Valid() && imm.Some? && (compaction.Some? ==> GapFree(compaction.value.c.Inputs()))
      modifies this`nextFile, this`disk
      ensures nextFile == old(nextFile) + 1 == db.s.nextFile + 1
      ensures SameBut(if f.Some? then db.(disk := db.disk.(tables := db.disk.tables + {f.value.number})) else db)
      ensures f == None <==> imm == Some([])
      ensures f.Some? ==> Enabled(db.s, FlushMem(level, f.value))
      ensures f.Some? ==> IsOutputLevel(levels, f.value.Small().key, f.value.Large().key, level)
    {
      hide DbOk, IsOutputLevel, PlacedBy, GapFree;
      LevelsAreSorted(db);
      level, f := 0, None;
      var number := nextFile;
      nextFile := nextFile + 1;
      if |imm.value| > 0 {
        var size: nat :| true;
        var file := FileMeta(number, size, imm.value);
        assert |file.entries| > 0;
        WithinBounds(file, file.Large());
        disk := disk.(tables := disk.tables + {number});
        level := PickLevelForMemTableOutput(levels, file.Small().key, file.Large().key);
        OutputIsPlaced(levels, level, file);
        FlushIsClear(db, level, file);
        f := Some(file);
      }
    }

    // The immutable memtable becomes a table file; its log is no longer needed.
    method CompactMemTable()
      requires Valid() && imm.Some? && (compaction.Some? ==> GapFree(compaction.value.c.Inputs()))
      modifies this`imm, this`levels, this`nextFile, this`logNumber, this`disk, this`db
      ensures Valid() && imm == None && logNumber == logFileNumber && db.logging == old(db).logging
      ensures History() == old(History()) && nextFile == old(nextFile) + 1 && NothingObsolete()
      ensures old(imm) == Some([]) ==> levels == old(levels)
      ensures old(imm) != Some([]) ==> exists level, f ::
        && Enabled(old(db).s, FlushMem(level, f)) && levels == ApplyEdit(old(levels), FlushEdit(level, f))
        && IsOutputLevel(old(levels), f.Small().key, f.Large().key, level)
    {
      hide DbOk, Same, Enabled, ApplyEdit, GapFree;
      var level, f := WriteLevel0Table();
      if f.Some? {
        InstallTable(level, f.value);
      } else {
        InstallNoTable();
      }
      SameState(db);
      DeleteObsoleteFiles();
    }

    method InstallTable(level: nat, f: File)
      requires DbOk(db) && Enabled(db.s, FlushMem(level, f)) && SameBut(db.(disk := db.disk.(tables := db.disk.tables + {f.number})))
      requires nextFile == db.s.nextFile + 1
      modifies this`imm, this`levels, this`logNumber, this`disk, this`db
      ensures Valid() && imm == None && logNumber == logFileNumber && db.logging == old(db).logging
      ensures History() == old(History()) && levels == ApplyEdit(old(levels), FlushEdit(level, f))
    {
      hide DbOk, Enabled, ApplyEdit;
      FlushInRange(db, level, f);
      LogAndApply(FlushEdit(level, f), logFileNumber);
      imm := None;
      Step(FlushMem(level, f));
    }

    method InstallNoTable()
      requires DbOk(db) && imm == Some([]) && SameBut(db) && nextFile == db.s.nextFile + 1
      modifies this`imm, this`levels, this`logNumber, this`disk, this`db
      ensures Valid() && imm == None && logNumber == logFileNumber && db.logging == old(db).logging
      ensures History() == old(History()) && levels == old(levels)
    {
      hide DbOk, ApplyEdit;
      LevelsAreSorted(db);
      EmptyEditIsNoChange(levels);
      LogAndApply(VersionEdit({}, []), logFileNumber);
      imm := None;
      Step(FlushEmptyMem);
    }

    // File numbers of every version something still refers to.
    method AddLiveFiles() returns (live: set<nat>)
      ensures forall n :: n in live <==>
        InVersion(levels, n) || (exists v :: v in held && InVersion(v, n))
        || (compaction.Some? && InVersion(compaction.value.base, n))
    {
      live := VersionFiles(levels) + if compaction.Some? then VersionFiles(compaction.value.base) else {};
      var i := 0;
      while i < |held|
        invariant i <= |held|
        invariant forall n :: n in live <==>
          InVersion(levels, n) || (exists v :: v in held[..i] && InVersion(v, n))
          || (compaction.Some? && InVersion(compaction.value.base, n))
      {
        live := live + VersionFiles(held[i]);
        assert held[..i + 1] == held[..i] + [held[i]];
        i := i + 1;
      }
      assert held[..i] == held;
    }

    // A table that is being written, or that some version still refers to.
    ghost predicate InUse(n: nat)
      reads this
    {
      || n in pendingOutputs || InVersion(levels, n) || (exists v :: v in held && InVersion(v, n))
      || (compaction.Some? && InVersion(compaction.value.base, n))
    }

    // No file is left that nobody needs.
    ghost predicate NothingObsolete()
      reads this
    {
      (forall n :: n in disk.tables ==> InUse(n)) && (forall n :: n in disk.logs ==> n >= logNumber)
    }

    // Everything that neither recovery nor a live version needs goes, and
    // nothing else.
    method DeleteObsoleteFiles()
      requires Valid()
      modifies this`disk, this`db
      ensures Valid() && db == DeleteObsolete(old(db)) && NothingObsolete()
      ensures forall n :: n in disk.tables <==> n in old(disk).tables && InUse(n)
      ensures forall n :: n in disk.logs <==> n in old(disk).logs && n >= logNumber
      ensures forall n :: n in disk.logs ==> disk.logs[n] == old(disk).logs[n]
      ensures disk.manifest == old(disk).manifest && disk.synced == old(disk).synced
    {
      hide DbOk;
      var live := AddLiveFiles();
      live := live + pendingOutputs;
      var tables, logs := disk.tables, disk.logs;
      var todo := disk.tables;
      while todo != {}
        invariant todo <= disk.tables && forall n :: n in tables <==> n in disk.tables && (n in todo || n in live)
      {
        var n :| n in todo;
        if n !in live { tables := tables - {n}; }
        todo := todo - {n};
      }
      todo := disk.logs.Keys;
      while todo != {}
        invariant todo <= disk.logs.Keys
        invariant forall n :: n in logs <==> n in disk.logs && (n in todo || n >= logNumber)
        invariant forall n :: n in logs ==> logs[n] == disk.logs[n]
      {
        var n :| n in todo;
        if n < logNumber { logs := logs - {n}; }
        todo := todo - {n};
      }
      disk := disk.(tables := tables, logs := logs);
      DeleteObsoleteKeepsOk(db);
      db := DeleteObsolete(db);
      assert disk.tables == db.disk.tables && disk.logs == db.disk.logs;
    }

    // What other threads may do while the mutex is released: writes, switches
    // to a new memtable, snapshots. Only the background thread touches the version.
    method OtherThreads()
      requires Valid() && !db.logging
      modifies this`mem, this`imm, this`lastSequence, this`snapshots, this`nextFile, this`logFileNumber, this`disk, this`db
      ensures Valid() && !db.logging && old(History()) <= History()
    {
      hide DbOk, Same;
      var turns: nat :| true;
      while turns > 0
        invariant Valid() && !db.logging && old(History()) <= History()
      {
        OneTurn();
        turns := turns - 1;
      }
    }

    method OneTurn()
      requires Valid() && !db.logging
      modifies this`mem, this`imm, this`lastSequence, this`snapshots, this`nextFile, this`logFileNumber, this`disk, this`db
      ensures Valid() && !db.logging && old(History()) <= History()
    {
      hide DbOk, Same;
      var what: nat, force: bool, sync: bool, updates: seq<GroupCommit.Operation> := *, *, *, *;
      if what == 0 {
        var sn := GetSnapshot();
      } else if what == 1 && |snapshots| > 0 {
        var i: nat :| i < |snapshots|;
        ReleaseSnapshot(i);
      } else {
        var room := MakeRoomForWrite(force);
        if room == Ready && !force && lastSequence + |updates| < MAX_SEQUENCE_NUMBER { WriteGroup(updates, sync); }
      }
    }

    method OpenCompactionOutputFile(ghost outs: seq<File>) returns (number: nat)
      requires Valid() && OutputsPending(outs, None, pendingOutputs)
      modifies this`nextFile, this`pendingOutputs, this`disk, this`db
      ensures Valid() && OutputsPending(outs, Some(number), pendingOutputs)
      ensures compaction == old(compaction) && History() == old(History()) && db.logging == old(db).logging
    {
      hide DbOk;
      number := nextFile;
      NumberIsNew(db, outs);
      nextFile := nextFile + 1;
      pendingOutputs := pendingOutputs + {number};
      disk := disk.(tables := disk.tables + {number});
      Step(AllocateOutput);
    }

    // The compaction takes its inputs from the current version.
    method StartCompaction(c: Compaction) returns (input: Run)
      requires Valid() && !db.logging && compaction == None
      requires ChosenFrom(levels, c) && GapFree(c.Inputs())
      requires MergeIsSafe(levels, c, OldestSnapshot(snapshots, lastSequence))
      modifies this`compaction, this`db
      ensures Valid() && !db.logging && compaction.Some? && History() == old(History()) && c.level + 1 < NUM_LEVELS
      ensures compaction.value.c == c && compaction.value.base == levels && IsMergedInput(c, input) && Sorted(input)
      ensures compaction.value.smallestSnapshot == OldestSnapshot(snapshots, lastSequence)
      ensures forall l :: 1 <= l < NUM_LEVELS ==> LevelSorted(levels[l])
    {
      hide DbOk, ChosenFrom, GapFree, IsMergedInput, WellFormed, Ordered, LevelSorted, MergeIsSafe;
      LevelsAreSorted(db);
      ChosenLevel(levels, c);
      input := MergedRuns(c.Inputs());
      MergedIsInput(db, c);
      var smallestSnapshot := OldestSnapshot(snapshots, lastSequence);
      compaction := Some(Pending(c, levels, smallestSnapshot));
      Step(PickInputs(c));
    }

    // The inputs leave the version and the outputs arrive, in one edit.
    method InstallCompactionResults(ghost input: Run, outs: seq<File>)
      requires Valid() && !db.logging && compaction.Some? && IsMergedInput(compaction.value.c, input)
      requires Flatten(RunsOf(outs))
        == Kept(input, |input|, compaction.value.smallestSnapshot, compaction.value.base, compaction.value.c.level)
      requires OutputsPending(outs, None, pendingOutputs)
      modifies this`levels, this`logNumber, this`disk, this`compaction, this`pendingOutputs, this`db
      ensures Valid() && !db.logging && compaction == None && History() == old(History())
      ensures Installed(old(levels), levels, old(compaction).value.c, outs)
    {
      hide DbOk, IsMergedInput, Kept, ApplyEdit, Installed, Flatten, RunsOf, EditInRange, InstallEdit, Numbers, DistinctNumbers;
      InstalledByEdit(db, input, outs);
      var edit := InstallEdit(compaction.value.c, outs);
      InstallInRange(db, outs);
      LogAndApply(edit, logNumber);
      compaction := None;
      pendingOutputs := pendingOutputs - Numbers(outs);
      Step(FinishCompaction(input, outs));
    }

    // Between two entries of a merge others go on writing, and a full memtable
    // is compacted first.
    method PreferMemTable()
      requires Valid() && !db.logging && (compaction.Some? ==> GapFree(compaction.value.c.Inputs()))
      modifies this`mem, this`imm, this`levels, this`lastSequence, this`snapshots, this`nextFile, this`logFileNumber,
               this`logNumber, this`disk, this`db
      ensures Valid() && !db.logging && imm == None && old(History()) <= History()
    {
      hide DbOk, Same, GapFree;
      OtherThreads();
      if imm.Some? { CompactMemTable(); }
    }

    // DoCompactionWork: walk the merged input, drop obsolete entries, cut the
    // rest into output files wherever ShouldStopBefore or the file size says
    // so; then install the outputs.
    method DoCompactionWork(c: Compaction) returns (ghost input: Run, outs: seq<File>)
      requires Valid() && !db.logging && compaction == None
      requires ChosenFrom(levels, c) && GapFree(c.Inputs())
      requires MergeIsSafe(levels, c, OldestSnapshot(snapshots, lastSequence))
      modifies this
      ensures Valid() && !db.logging && compaction == None && old(History()) <= History()
      ensures IsMergedInput(c, input)
      ensures Flatten(RunsOf(outs)) == Kept(input, |input|, OldestSnapshot(old(snapshots), old(lastSequence)), old(levels), c.level)
      ensures Replaced(levels, c, outs) && imm == None
    {
      hide DbOk, Same, Installed, Replaced, IsMergedInput, Kept, Flatten, RunsOf, IsBaseLevel, MergeIsSafe, GapFree, ChosenFrom;

      MergesSomething(levels, c);
      var merged := StartCompaction(c);
      input := merged;
      NotEmpty(c, merged);
      ghost var p := compaction.value;
      var cursor := new BaseLevelCursor(compaction.value.base, c.level);
      var smallestSnapshot := compaction.value.smallestSnapshot;
      outs := [];
      var builder: Run := [];
      var output: Option<nat> := None;
      var currentUserKey: Option<UserKey> := None;
      var lastSequenceForKey := MAX_SEQUENCE_NUMBER;
      var i := 0;
      NothingKept(merged, smallestSnapshot, p.base, c.level);
      while i < |merged|
        invariant i <= |merged| && Sorted(merged)
        invariant Valid() && !db.logging && compaction == Some(p) && old(History()) <= History()
        invariant fresh(cursor) && cursor.Valid() && cursor.levels == p.base && cursor.level == c.level
        invariant cursor.lastKey.Some? ==> i > 0 && cursor.lastKey.value <= merged[i - 1].key
        invariant currentUserKey == if i == 0 then None else Some(merged[i - 1].key)
        invariant i > 0 ==> lastSequenceForKey == merged[i - 1].sn
        invariant Flatten(RunsOf(outs)) + builder == Kept(merged, i, smallestSnapshot, p.base, c.level)
        invariant OutputsPending(outs, output, pendingOutputs) && (output == None <==> builder == [])
        invariant i > 0 ==> imm == None
      {
        PreferMemTable();
        var key := merged[i];
        var stopBefore: bool := *;
        outs, builder, output := FinishOutput(stopBefore, outs, builder, output, pendingOutputs);
        assert i > 0 ==> Before(merged[i - 1], merged[i]);
        if currentUserKey != Some(key.key) {
          currentUserKey := Some(key.key);
          lastSequenceForKey := MAX_SEQUENCE_NUMBER;
        }
        assert lastSequenceForKey == LastSequenceForKey(merged, i);
        var drop := ShouldDrop(cursor, key, lastSequenceForKey, smallestSnapshot);
        KeptNext(merged, i, smallestSnapshot, p.base, c.level);
        lastSequenceForKey := key.sn;
        if !drop {
          outs, builder, output := AddToOutput(outs, builder, output, key);
        }
        i := i + 1;
      }
      outs, builder, output := FinishOutput(true, outs, builder, output, pendingOutputs);
      ghost var before := levels;
      InstallCompactionResults(merged, outs);
      InstalledReplaces(before, levels, c, outs);
    }

    // What a compaction or a move of these inputs needs of the files it leaves
    // behind: exactly what keeps the database right (TrivialMoveIsSafeIff and
    // MergeIsSafeIff).
    ghost predicate MayCompact(c: Compaction, isManual: bool)
      reads this
    {
      && ChosenFrom(levels, c) && GapFree(c.Inputs())
      && (if !isManual && c.IsTrivialMove() then BoundaryClosed(levels, c)
          else MergeIsSafe(levels, c, OldestSnapshot(snapshots, lastSequence)))
    }

    // BackgroundCompaction: a full memtable first; otherwise the compaction that
    // the version set has picked or that was asked for. Of its own accord the
    // code moves a file down if that is all there is to do.
    method BackgroundCompaction(pick: Option<Compaction>, isManual: bool)
      requires Valid() && !db.logging && compaction == None
      requires imm == None && pick.Some? ==> MayCompact(pick.value, isManual)
      modifies this
      ensures Valid() && !db.logging && compaction == None && old(History()) <= History()
      ensures imm == None
      ensures old(imm).Some? ==> History() == old(History()) && NothingObsolete()
      ensures old(imm) == None && pick == None ==> unchanged(this)
      ensures old(imm) == None && pick.Some? ==>
        var c := pick.value;
        var alone := |c.inputs0| == 1 && |c.inputs1| == 0 && TotalFileSize(c.grandparents) <= MAX_GRANDPARENT_OVERLAP_BYTES;
        && (!isManual && alone ==> Moved(old(levels), levels, c.level, c.inputs0[0]) && History() == old(History()))
        && (!isManual && alone ==> disk.tables == old(disk).tables && disk.logs == old(disk).logs)
        && (isManual || !alone ==> NothingObsolete())
        && (isManual || !alone ==> Rewritten(levels, c, OldestSnapshot(old(snapshots), old(lastSequence)), old(levels)))
    {
      hide DbOk, Same, ChosenFrom, BoundaryClosed, GapFree, MergeIsSafe, Rewritten, Moved, TotalFileSize;
      if imm.Some? {
        CompactMemTable();
      } else if pick.Some? {
        var c := pick.value;
        ChosenLevel(levels, c);
        if !isManual && c.IsTrivialMove() {
          MoveDown(c);
        } else {
          CompactPicked(c);
        }
      }
    }

    // versions_->PickCompaction(), from the file its score or its pointer names.
    method PickFrom(level: nat, f: File) returns (c: Compaction)
      requires Valid() && level + 1 < NUM_LEVELS && f in levels[level]
      ensures c.level == level && ChosenFrom(levels, c) && f in c.inputs0 && GapFree(c.Inputs())
      ensures IsPicked(levels, level, f, c)
      ensures level + 2 < NUM_LEVELS ==> MeetingGrandparents(levels[level + 2], c)
    {
      hide DbOk, ChosenFrom, GapFree, IsPicked, MeetingGrandparents;
      LevelsAreSorted(db);
      c := PickCompaction(levels, level, f);
    }

    method CompactPicked(c: Compaction)
      requires Valid() && !db.logging && compaction == None
      requires ChosenFrom(levels, c) && GapFree(c.Inputs())
      requires MergeIsSafe(levels, c, OldestSnapshot(snapshots, lastSequence))
      modifies this
      ensures Valid() && !db.logging && compaction == None && old(History()) <= History()
      ensures Rewritten(levels, c, OldestSnapshot(old(snapshots), old(lastSequence)), old(levels))
      ensures imm == None && NothingObsolete()
    {
      hide DbOk, Same, MergeIsSafe, GapFree, Replaced, IsMergedInput, Kept, Flatten;
      ghost var input;
      var outs;
      input, outs := DoCompactionWork(c);
      SameState(db);
      DeleteObsoleteFiles();
    }

    method MoveDown(c: Compaction)
      requires Valid() && !db.logging && compaction == None
      requires ChosenFrom(levels, c) && BoundaryClosed(levels, c) && c.IsTrivialMove()
      modifies this`levels, this`logNumber, this`disk, this`db
      ensures Valid() && !db.logging && compaction == None && History() == old(History())
      ensures Moved(old(levels), levels, c.level, c.inputs0[0])
      ensures disk.tables == old(disk).tables && disk.logs == old(disk).logs
    {
      hide DbOk, BoundaryClosed, ApplyEdit, Moved;
      var f := c.inputs0[0];
      MovedByEdit(db, c, f);
      LogAndApply(MoveEdit(c.level, f), logNumber);
      Step(MoveFile(c, f));
    }

    // The entry goes into the output being written, or a new one.
    method AddToOutput(outs: seq<File>, builder: Run, output: Option<nat>, key: Entry)
      returns (outs': seq<File>, builder': Run, output': Option<nat>)
      requires Valid() && OutputsPending(outs, output, pendingOutputs) && (output == None <==> builder == [])
      modifies this`nextFile, this`pendingOutputs, this`disk, this`db
      ensures Valid() && OutputsPending(outs', output', pendingOutputs) && (output' == None <==> builder' == [])
      ensures Flatten(RunsOf(outs')) + builder' == Flatten(RunsOf(outs)) + builder + [key]
      ensures compaction == old(compaction) && History() == old(History()) && db.logging == old(db).logging
    {
      hide DbOk, Same, Flatten, RunsOf;
      var number;
      if output == None {
        number := OpenCompactionOutputFile(outs);
      } else {
        number := output.value;
      }
      var bigEnough: bool := *;
      GroupRight(Flatten(RunsOf(outs)), builder, [key]);
      outs', builder', output' := FinishOutput(bigEnough, outs, builder + [key], Some(number), pendingOutputs);
    }
  }

  // The numbers of the outputs written so far, and of the one being written.
  ghost predicate OutputsPending(outs: seq<File>, output: Option<nat>, pendingOutputs: set<nat>) {
    && DistinctNumbers(outs)
    && (forall f :: f in outs ==> f.number in pendingOutputs)
    && (output.Some? ==> output.value in pendingOutputs && forall f :: f in outs ==> f.number != output.value)
  }

  lemma MergedIsInput(db: Db, c: Compaction)
    requires DbOk(db) && ChosenFrom(db.s.levels, c)
    ensures IsMergedInput(c, MergedRuns(c.Inputs()))
  {
    StoredIsUnique(db.s);
    ChosenInputs(db.s.levels, c);
    forall e | e in FileEntries(c.Inputs()) ensures e in Contents(db.s.levels) {
      var f :| f in c.Inputs() && e in f.entries;
      assert f in c.inputs0 || f in c.inputs1;
      var l := if f in c.inputs0 then c.level else c.level + 1;
      assert e in FileEntries(db.s.levels[l]);
    }
    MergedRunsSorted(c.Inputs(), Contents(db.s.levels));
  }

  lemma MergesSomething(levels: Levels, c: Compaction)
    requires ChosenFrom(levels, c)
    ensures |c.inputs0| > 0
  {
  }

  lemma NotEmpty(c: Compaction, input: Run)
    requires |c.inputs0| > 0 && IsMergedInput(c, input)
    ensures input != []
  {
    var f := c.inputs0[0];
    assert f in c.Inputs() && f.entries[0] in f.entries;
    assert f.entries[0] in ToSet(input);
  }

  lemma {:induction false} NewFilesInRange(level: nat, outs: seq<File>)
    ensures forall n :: n in NewFiles(level, outs) ==> n.0 == level
  {
    if |outs| > 0 { NewFilesInRange(level, outs[..|outs| - 1]); }
  }

  lemma InstallInRange(db: Db, outs: seq<File>)
    requires DbOk(db) && db.s.pending.Some?
    ensures db.s.pending.value.c.level + 1 < NUM_LEVELS && EditInRange(InstallEdit(db.s.pending.value.c, outs))
  {
    NewFilesInRange(db.s.pending.value.c.level + 1, outs);
  }

  lemma NumberIsNew(db: Db, outs: seq<File>)
    requires DbOk(db)
    ensures forall n :: n in db.s.pendingOutputs ==> n < db.s.nextFile
  {
  }

  // FinishCompactionOutputFile, if there is an output to finish.
  method FinishOutput(finish: bool, outs: seq<File>, builder: Run, output: Option<nat>, ghost pendingOutputs: set<nat>)
    returns (outs': seq<File>, builder': Run, output': Option<nat>)
    requires OutputsPending(outs, output, pendingOutputs) && (output == None <==> builder == [])
    ensures OutputsPending(outs', output', pendingOutputs) && (output' == None <==> builder' == [])
    ensures Flatten(RunsOf(outs')) + builder' == Flatten(RunsOf(outs)) + builder
    ensures finish ==> builder' == []
  {
    outs', builder', output' := outs, builder, output;
    if finish && output.Some? {
      var size: nat :| true;
      var f := FileMeta(output.value, size, builder);
      assert |f.entries| > 0;
      outs', builder', output' := outs + [f], [], None;
      assert outs'[..|outs|] == outs;
      FlattenSnoc(RunsOf(outs), builder);
    }
  }

  lemma GroupRight(a: Run, b: Run, c: Run)
    ensures a + (b + c) == a + b + c
  {
  }

  // snapshots_.oldest(), or the last sequence number without snapshots.
  function OldestSnapshot(snapshots: seq<nat>, lastSequence: nat): nat {
    if |snapshots| == 0 then lastSequence else snapshots[0]
  }

  // The outputs are in the version and the inputs are not.
  ghost predicate Replaced(levels: Levels, c: Compaction, outs: seq<File>)
    requires c.level + 1 < NUM_LEVELS
  {
    && (forall f :: f in c.inputs0 ==> f !in levels[c.level])
    && (forall f :: f in c.inputs1 && f !in outs ==> f !in levels[c.level + 1])
    && (forall f :: f in outs ==> f in levels[c.level + 1])
  }

  // Tables with what the merge keeps of the inputs are in the version in place
  // of the inputs.
  ghost predicate Rewritten(levels: Levels, c: Compaction, oldest: nat, base: Levels) {
    c.level + 1 < NUM_LEVELS && exists input, outs ::
      && IsMergedInput(c, input) && Replaced(levels, c, outs)
      && Flatten(RunsOf(outs)) == Kept(input, |input|, oldest, base, c.level)
  }

  // A table of the inputs that no version refers to is gone.
  lemma InputsAreGone(impl: DBImpl, c: Compaction, oldest: nat, base: Levels)
    requires Rewritten(impl.levels, c, oldest, base) && impl.NothingObsolete()
    ensures forall f :: f in c.Inputs() && !impl.InUse(f.number) ==> f.number !in impl.disk.tables
  {
  }

  lemma InstalledReplaces(before: Levels, after: Levels, c: Compaction, outs: seq<File>)
    requires c.level + 1 < NUM_LEVELS && Installed(before, after, c, outs)
    ensures Replaced(after, c, outs)
  {
    forall f | f in c.inputs0 ensures f !in after[c.level] {
      assert !StaysIn(before, c, c.level, f);
    }
    forall f | f in c.inputs1 && f !in outs ensures f !in after[c.level + 1] {
      assert !StaysIn(before, c, c.level + 1, f);
    }
  }

  lemma InstalledByEdit(db: Db, input: Run, outs: seq<File>)
    requires DbOk(db) && Enabled(db.s, FinishCompaction(input, outs))
    ensures var c := db.s.pending.value.c;
      c.level + 1 < NUM_LEVELS && Installed(db.s.levels, ApplyEdit(db.s.levels, InstallEdit(c, outs)), c, outs)
  {
    FinishIsChange(db.s, input, outs);
    InstallMembers(db.s.levels, ApplyEdit(db.s.levels, InstallEdit(db.s.pending.value.c, outs)), db.s.pending.value.c, outs);
  }

  lemma MovedByEdit(db: Db, c: Compaction, f: File)
    requires DbOk(db) && Enabled(db.s, MoveFile(c, f))
    ensures EditInRange(MoveEdit(c.level, f))
    ensures Moved(db.s.levels, ApplyEdit(db.s.levels, MoveEdit(c.level, f)), c.level, f)
  {
    hide ApplyEdit, BoundaryClosed, HistoryOk, MemTablesOk, LevelsOk, NumbersOk, SnapshotsOk, CompactionOk;
    MoveIsChange(db.s, c, f);
    MoveMembers(db.s.levels, ApplyEdit(db.s.levels, MoveEdit(c.level, f)), c.level, f);
  }

  lemma NothingKept(input: Run, smallestSnapshot: nat, levels: Levels, level: nat)
    ensures Flatten(RunsOf([])) == [] && Kept(input, 0, smallestSnapshot, levels, level) == []
  {
  }

  lemma KeptNext(input: Run, i: nat, smallestSnapshot: nat, levels: Levels, level: nat)
    requires i < |input|
    ensures Kept(input, i + 1, smallestSnapshot, levels, level)
      == Kept(input, i, smallestSnapshot, levels, level)
         + (if Dropped(input, i, smallestSnapshot, levels, level) then [] else [input[i]])
  {
  }

  function VersionFiles(levels: Levels): (r: set<nat>)
    ensures forall n :: n in r <==> InVersion(levels, n)
  {
    set l: nat, f | 0 <= l < NUM_LEVELS && f in levels[l] :: f.number
  }

  lemma LevelsAreSorted(db: Db)
    requires DbOk(db)
    ensures WellFormed(db.s.levels) && Ordered(db.s.levels[0])
    ensures forall l :: 0 <= l < NUM_LEVELS ==> AllSorted(db.s.levels[l])
    ensures forall l :: 1 <= l < NUM_LEVELS ==> LevelSorted(db.s.levels[l])
    ensures db.s.imm.Some? ==> Sorted(db.s.imm.value)
  {
  }

  lemma SameState(db: Db)
    ensures DeleteObsolete(db).s == db.s && DeleteObsolete(db).logging == db.logging
  {
  }

  lemma OutputIsPlaced(levels: Levels, level: nat, f: File)
    requires IsOutputLevel(levels, f.Small().key, f.Large().key, level)
    ensures PlacedBy(levels, level, f)
  {
  }

  lemma FlushIsClear(db: Db, level: nat, f: File)
    requires DbOk(db) && Sorted(f.entries) && PlacedBy(db.s.levels, level, f)
    requires db.s.pending.Some? ==> GapFree(db.s.pending.value.c.Inputs())
    ensures FlushClear(db.s.pending, level, f)
  {
    if db.s.pending.Some? {
      InputsSorted(db.s.levels, db.s.pending.value.c);
      GapFreeIsClear(db.s.levels, db.s.pending.value, level, f);
    }
  }

  lemma FlushInRange(db: Db, level: nat, f: File)
    requires Enabled(db.s, FlushMem(level, f))
    ensures EditInRange(FlushEdit(level, f)) && EditInRange(VersionEdit({}, []))
  {
  }

  lemma RecoverableIsReplayable(image: Disk, flushed: seq<Entry>, horizon: nat, numbers: seq<nat>)
    requires Recoverable(image, flushed, horizon, numbers)
    ensures Replayable(image, numbers)
  {
  }

  lemma ReplayInRange(files: seq<File>)
    ensures EditInRange(ReplayEdit(files))
  {
    NewFilesInRange(0, files);
  }

  lemma ReadsHistory(db: Db, k: UserKey, sn: nat)
    requires DbOk(db) && (sn == db.s.lastSequence || sn in db.s.snapshots)
    ensures DbGet(db.s.mem, db.s.imm, db.s.levels, k, sn) == Read(db.s.History(), k, sn)
    ensures forall l :: 1 <= l < NUM_LEVELS ==> LevelSorted(db.s.levels[l])
  {
    if sn in db.s.snapshots {
      var i :| 0 <= i < |db.s.snapshots| && db.s.snapshots[i] == sn;
    }
    GetReadsHistory(db.s, k, sn);
  }

  lemma CanBegin(db: Db)
    requires DbOk(db) && !db.logging
    ensures db.s.inflight == [] && db.logFile in db.disk.logs
  {
  }
}
