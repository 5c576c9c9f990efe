// What is on disk, what a crash may leave of it, and why recovery loses
// nothing but a tail of whole write groups of the newest log.

module DbDisk {
  import opened Wrappers
  import opened Entries
  import opened Files
  import opened VersionBuilder
  import opened OverlappingInputs
  import opened CompactionInputs
  import opened CompactionWork
  import opened LevelEdits
  import opened DbState
  import opened DbLevels
  import opened DbCompaction
  import opened DbMachine

  // One record of the MANIFEST: an edit and the counters LogAndApply adds.
  // The snapshot record that opens a new MANIFEST carries none.
  datatype Counters = Counters(logNumber: nat, nextFile: nat, lastSequence: nat)

  datatype ManifestRecord = ManifestRecord(edit: VersionEdit, counters: Option<Counters>)

  datatype Disk = Disk(
    logs: map<nat, seq<Run>>,        // log file number -> records, one per write group
    synced: map<nat, nat>,           // how many records of a log are known to have reached the disk
    manifest: seq<ManifestRecord>,
    tables: set<nat>)                // table files that exist
  {
    function SyncedOf(n: nat): nat {
      if n in synced then synced[n] else 0
    }
  }

  datatype Db = Db(
    s: State,
    logFile: nat,                    // logfile_number_
    logNumber: nat,                  // versions_->LogNumber(): older logs are not needed
    logging: bool,                   // a group is between its log record and its publication
    held: seq<Levels>,               // older versions still referenced by iterators
    disk: Disk)

  function Edits(manifest: seq<ManifestRecord>): seq<VersionEdit> {
    if |manifest| == 0 then [] else Edits(manifest[..|manifest| - 1]) + [manifest[|manifest| - 1].edit]
  }

  // The counters recovery ends up with: those of the last record that has any.
  function LastCounters(manifest: seq<ManifestRecord>): Option<Counters> {
    if |manifest| == 0 then None
    else
      var last := manifest[|manifest| - 1];
      if last.counters.Some? then last.counters else LastCounters(manifest[..|manifest| - 1])
  }

  lemma EditsSnoc(manifest: seq<ManifestRecord>, r: ManifestRecord)
    ensures Edits(manifest + [r]) == Edits(manifest) + [r.edit]
    ensures Edits(manifest + [r])[..|Edits(manifest)|] == Edits(manifest)
  {
    assert (manifest + [r])[..|manifest|] == manifest;
  }

  function LoggedGroups(db: Db): seq<Run> {
    db.s.memGroups + if db.logging then [db.s.inflight] else []
  }

  // The logs recovery would replay hold exactly what is not in table files.
  ghost predicate LogsOk(db: Db) {
    && (!db.logging ==> db.s.inflight == [])
    && db.logFile < db.s.nextFile
    && db.logFile in db.disk.logs && db.disk.logs[db.logFile] == LoggedGroups(db)
    && db.logNumber <= db.logFile
    && (db.s.imm == None ==> db.logNumber == db.logFile)
    && (db.s.imm.Some? ==>
          db.logNumber < db.logFile && db.logNumber in db.disk.logs && db.disk.logs[db.logNumber] == db.s.immGroups)
    && (forall n :: n in db.disk.logs && n >= db.logNumber ==> n == db.logNumber || n == db.logFile)
    && (forall n :: n in db.disk.logs ==> db.disk.SyncedOf(n) <= |db.disk.logs[n]|)
  }

  // Numbers a level has used never return to it, nor do they live above it.
  ghost predicate UsedOk(levels: Levels, used: set<nat>, l: nat, nextFile: nat, pendingOutputs: set<nat>)
    requires l < NUM_LEVELS
  {
    && (forall n :: n in used ==> n < nextFile && n !in pendingOutputs)
    && Numbers(levels[l]) <= used
    && (forall i, f :: 0 <= i < l && f in levels[i] ==> f.number !in used)
  }

  ghost predicate UsedLevelOk(levels: Levels, edits: seq<VersionEdit>, l: nat, nextFile: nat, pendingOutputs: set<nat>)
    requires l < NUM_LEVELS
  {
    NeverReAdded([], edits, l) && UsedOk(levels, UsedAt([], edits, l), l, nextFile, pendingOutputs)
  }

  // What decoding an edit guarantees.
  ghost predicate EditInRange(edit: VersionEdit) {
    forall n :: n in edit.newFiles ==> n.0 < NUM_LEVELS
  }

  // Applying the recorded edits one by one gives the current version.
  ghost predicate RecordsOk(levels: Levels, edits: seq<VersionEdit>, nextFile: nat, pendingOutputs: set<nat>) {
    && levels == ApplyEdits(NO_FILES, edits)
    && (forall e :: e in edits ==> EditInRange(e))
    && forall l :: 0 <= l < NUM_LEVELS ==> UsedLevelOk(levels, edits, l, nextFile, pendingOutputs)
  }

  ghost predicate LastRecordOk(s: State, logNumber: nat, last: Counters) {
    && last.logNumber == logNumber
    && last.nextFile <= s.nextFile
    && (forall l :: 0 <= l < NUM_LEVELS ==> NumbersBelow(s.levels[l], last.nextFile, {}))
    && s.horizon <= last.lastSequence <= s.lastSequence
    && (forall e :: e in s.flushed ==> e.sn <= last.lastSequence)
  }

  ghost predicate ManifestOk(db: Db) {
    && RecordsOk(db.s.levels, Edits(db.disk.manifest), db.s.nextFile, db.s.pendingOutputs)
    && LastCounters(db.disk.manifest).Some?
    && LastRecordOk(db.s, db.logNumber, LastCounters(db.disk.manifest).value)
  }

  ghost predicate VersionNumbersIn(levels: Levels, tables: set<nat>) {
    forall l, f :: 0 <= l < NUM_LEVELS && f in levels[l] ==> f.number in tables
  }

  // Every table that recovery, the current version, an older live version or
  // the running compaction needs is there.
  ghost predicate TablesOk(db: Db) {
    && VersionNumbersIn(db.s.levels, db.disk.tables)
    && (forall v :: v in db.held ==> VersionNumbersIn(v, db.disk.tables))
    && (db.s.pending.Some? ==> VersionNumbersIn(db.s.pending.value.base, db.disk.tables))
    && db.s.pendingOutputs <= db.disk.tables
  }

  ghost predicate DbOk(db: Db) {
    Inv(db.s) && LogsOk(db) && ManifestOk(db) && TablesOk(db)
  }

  // ----------------------------------------------------- steps seen on disk

  // LogAndApply: the edit is durable in the manifest when it takes effect.
  function LogAndApply(db: Db, edit: VersionEdit, s': State, logNumber: nat): Db {
    db.(s := s', logNumber := logNumber, disk := db.disk.(
      manifest := db.disk.manifest + [ManifestRecord(edit, Some(Counters(logNumber, s'.nextFile, db.s.lastSequence)))]))
  }

  // The edit a step logs, if it changes the version or the log number.
  function EditOf(s: State, a: Action): Option<VersionEdit>
    requires Possible(s, a)
  {
    match a
    case FlushMem(level, f) => Some(FlushEdit(level, f))
    case FlushEmptyMem => Some(VersionEdit({}, []))
    case MoveFile(c, f) => Some(MoveEdit(c.level, f))
    case FinishCompaction(input, outs) => Some(InstallEdit(s.pending.value.c, outs))
    case _ => None
  }

  ghost function PerformOnDisk(db: Db, a: Action): Db
    requires Possible(db.s, a)
  {
    var s' := Perform(db.s, a);
    match a
    case BeginWrite(group) =>
      var log := if db.logFile in db.disk.logs then db.disk.logs[db.logFile] else [];
      db.(s := s', logging := true, disk := db.disk.(logs := db.disk.logs[db.logFile := log + [group]]))
    case PublishWrite => db.(s := s', logging := false)
    case SwitchMem =>
      db.(s := s', logFile := db.s.nextFile,
          disk := db.disk.(logs := db.disk.logs[db.s.nextFile := []], synced := db.disk.synced[db.s.nextFile := 0]))
    case AllocateOutput => db.(s := s', disk := db.disk.(tables := db.disk.tables + {db.s.nextFile}))
    case FlushMem(_, f) =>
      LogAndApply(db.(disk := db.disk.(tables := db.disk.tables + {f.number})), EditOf(db.s, a).value, s', db.logFile)
    case FlushEmptyMem => LogAndApply(db, EditOf(db.s, a).value, s', db.logFile)
    case _ =>
      if EditOf(db.s, a).Some? then LogAndApply(db, EditOf(db.s, a).value, s', db.logNumber) else db.(s := s')
  }

  // logfile_->Sync(): only the log that is being written. The log of an
  // immutable memtable is not synced when it is closed.
  function SyncLog(db: Db): Db
    requires db.logFile in db.disk.logs
  {
    db.(disk := db.disk.(synced := db.disk.synced[db.logFile := |db.disk.logs[db.logFile]|]))
  }

  ghost predicate EnabledOnDisk(db: Db, a: Action) {
    && Enabled(db.s, a)
    && (a.BeginWrite? || a.SwitchMem? ==> !db.logging)
    && (a.InsertNext? || a.PublishWrite? ==> db.logging)
  }

  ghost predicate EditNumbers(files: seq<File>, edit: VersionEdit, manifest: seq<VersionEdit>, l: nat, added: Levels)
    requires l < NUM_LEVELS
  {
    && (forall f :: f in AddedAt(edit.newFiles, l) <==> f in added[l])
    && DistinctNumbers(AddedAt(edit.newFiles, l))
    && DeletedAt(edit, l) <= Numbers(files)
    && (forall i, f :: 0 <= i <= l && f in added[i] ==> f.number !in UsedAt([], manifest, l))
  }

  lemma UsedGrows(levels: Levels, after: Levels, manifest: seq<VersionEdit>, edit: VersionEdit, removed: Levels, added: Levels,
                  l: nat, nextFile: nat, outputs: set<nat>, nextFile': nat, outputs': set<nat>)
    requires l < NUM_LEVELS && Edited(levels, after, removed, added) && NumbersUnique(after)
    requires UsedLevelOk(levels, manifest, l, nextFile, outputs)
    requires EditNumbers(levels[l], edit, manifest, l, added)
    requires nextFile <= nextFile' && outputs' <= outputs && NumbersBelow(added[l], nextFile', outputs')
    ensures UsedLevelOk(after, manifest + [edit], l, nextFile', outputs')
  {
    var used, adds := UsedAt([], manifest, l), AddedAt(edit.newFiles, l);
    assert (manifest + [edit])[..|manifest|] == manifest;
    assert forall f :: f in adds ==> f.number !in used;
    var used' := UsedAt([], manifest + [edit], l);
    assert used' == used + DeletedAt(edit, l) + Numbers(adds);
    assert LevelEdit(levels[l], after[l], removed[l], added[l]);
    forall i: nat, f | i < l && f in after[i] ensures f.number !in used' {
      assert LevelEdit(levels[i], after[i], removed[i], added[i]);
      assert NumbersUniqueIn(after, i, l);
      assert f in added[i] ==> f.number !in used;
      assert forall g :: g in adds ==> g in after[l];
    }
  }

  // Appending an edit keeps the recorded version and the number discipline.
  lemma RecordsGrow(levels: Levels, after: Levels, manifest: seq<VersionEdit>, edit: VersionEdit, removed: Levels, added: Levels,
                    nextFile: nat, outputs: set<nat>, nextFile': nat, outputs': set<nat>)
    requires RecordsOk(levels, manifest, nextFile, outputs) && after == ApplyEdit(levels, edit)
    requires Edited(levels, after, removed, added) && NumbersOk(after, nextFile', outputs')
    requires nextFile <= nextFile' && outputs' <= outputs
    requires EditInRange(edit) && forall l :: 0 <= l < NUM_LEVELS ==> EditNumbers(levels[l], edit, manifest, l, added)
    ensures RecordsOk(after, manifest + [edit], nextFile', outputs')
  {
    forall l: nat | l < NUM_LEVELS ensures UsedLevelOk(after, manifest + [edit], l, nextFile', outputs') {
      assert LevelEdit(levels[l], after[l], removed[l], added[l]);
      assert NumbersBelow(after[l], nextFile', outputs');
      assert EditNumbers(levels[l], edit, manifest, l, added);
      UsedGrows(levels, after, manifest, edit, removed, added, l, nextFile, outputs, nextFile', outputs');
    }
    assert (manifest + [edit])[..|manifest|] == manifest;
  }

  // The record LogAndApply appends describes the new version.
  lemma ManifestGrows(db: Db, edit: VersionEdit, s': State, logNumber: nat)
    requires RecordsOk(s'.levels, Edits(db.disk.manifest) + [edit], s'.nextFile, s'.pendingOutputs)
    requires NumbersOk(s'.levels, s'.nextFile, s'.pendingOutputs)
    requires s'.lastSequence == db.s.lastSequence && s'.horizon <= db.s.lastSequence
    requires forall e :: e in s'.flushed ==> e.sn <= db.s.lastSequence
    ensures ManifestOk(LogAndApply(db, edit, s', logNumber))
  {
    var db' := LogAndApply(db, edit, s', logNumber);
    EditsSnoc(db.disk.manifest, db'.disk.manifest[|db.disk.manifest|]);
    forall l | 0 <= l < NUM_LEVELS ensures NumbersBelow(s'.levels[l], s'.nextFile, {}) {
      assert NumbersBelow(s'.levels[l], s'.nextFile, s'.pendingOutputs);
    }
  }

  // --------------------------------------------------------- obsolete files

  ghost predicate InVersion(levels: Levels, n: nat) {
    exists l, f :: 0 <= l < NUM_LEVELS && f in levels[l] && f.number == n
  }

  // DBImpl::DeleteObsoleteFiles keeps pending outputs and AddLiveFiles.
  ghost predicate IsLiveTable(db: Db, n: nat) {
    || n in db.s.pendingOutputs
    || InVersion(db.s.levels, n)
    || (exists v :: v in db.held && InVersion(v, n))
    || (db.s.pending.Some? && InVersion(db.s.pending.value.base, n))
  }

  ghost function DeleteObsolete(db: Db): Db {
    db.(disk := db.disk.(
      tables := (set n | n in db.disk.tables && IsLiveTable(db, n)),
      logs := (map n | n in db.disk.logs && n >= db.logNumber :: db.disk.logs[n])))
  }

  // Nothing that is still needed is deleted.
  lemma DeleteObsoleteKeepsOk(db: Db)
    requires DbOk(db)
    ensures DbOk(DeleteObsolete(db))
  {
    var db' := DeleteObsolete(db);
    assert db'.s == db.s;
    forall l: nat, f | l < NUM_LEVELS && f in db.s.levels[l] ensures f.number in db'.disk.tables {
    }
  }

  // ------------------------------------------------------------------ crash

  // A crash may cut any log behind the records that were synced (a torn record
  // is not read back), and may leave table files nobody knows about.
  ghost predicate CrashImage(db: Db, image: Disk) {
    && image.manifest == db.disk.manifest
    && db.disk.tables <= image.tables
    && image.logs.Keys == db.disk.logs.Keys && db.logFile in image.logs
    && forall n :: n in image.logs ==> image.logs[n] <= db.disk.logs[n] && db.disk.SyncedOf(n) <= |image.logs[n]|
  }

  // How many groups are left of the log of the immutable memtable.
  function OlderKept(db: Db, image: Disk): nat {
    if db.logNumber < db.logFile && db.logNumber in image.logs then |image.logs[db.logNumber]| else 0
  }

  // Groups to replay, in log number order.
  function ReplayedGroups(image: Disk, logNumber: nat, logFile: nat): seq<Run>
    requires logFile in image.logs && logNumber in image.logs
  {
    (if logNumber < logFile then image.logs[logNumber] else []) + image.logs[logFile]
  }

  lemma {:induction false} FlattenConcat(a: seq<Run>, b: seq<Run>)
    ensures Flatten(a + b) == Flatten(a) + Flatten(b)
  {
    if |b| == 0 {
      assert a + b == a;
    } else {
      var front := b[..|b| - 1];
      assert (a + b)[..|a + b| - 1] == a + front;
      FlattenConcat(a, front);
    }
  }

  lemma LoggedFlat(db: Db)
    requires LogsOk(db)
    ensures Flatten(LoggedGroups(db)) == Flatten(db.s.memGroups) + db.s.inflight
  {
    if db.logging {
      FlattenSnoc(db.s.memGroups, db.s.inflight);
    } else {
      assert LoggedGroups(db) == db.s.memGroups;
    }
  }

  // What the replayed logs hold: whole groups of either log, each cut
  // somewhere.
  lemma ReplayedIsPrefix(db: Db, image: Disk, m: nat, n: nat)
    requires LogsOk(db) && (db.s.imm == None ==> db.s.immGroups == []) && CrashImage(db, image)
    requires m == OlderKept(db, image) && n == |image.logs[db.logFile]|
    ensures db.logNumber in image.logs && m <= |db.s.immGroups| && n <= |LoggedGroups(db)|
    ensures Flatten(ReplayedGroups(image, db.logNumber, db.logFile))
      == Flatten(db.s.immGroups[..m]) + Flatten(LoggedGroups(db)[..n])
  {
    var logged := LoggedGroups(db);
    var kept := image.logs[db.logFile];
    assert kept == logged[..n];
    if db.s.imm == None {
      assert Flatten(db.s.immGroups[..m]) == [] && [] + kept == kept;
      assert [] + Flatten(kept) == Flatten(kept);
    } else {
      assert image.logs[db.logNumber] == db.s.immGroups[..m];
      FlattenConcat(db.s.immGroups[..m], kept);
    }
  }

  // ------------------------------------------------ every step keeps the disk

  // What each step's edit does, level by level.
  predicate LevelsInRange(s: State, a: Action)
    requires Possible(s, a)
  {
    && (a.FlushMem? ==> a.level < NUM_LEVELS)
    && (a.MoveFile? ==> a.c.level + 1 < NUM_LEVELS)
    && (a.FinishCompaction? ==> s.pending.value.c.level + 1 < NUM_LEVELS)
  }

  function RemovedBy(s: State, a: Action): Levels
    requires Possible(s, a) && LevelsInRange(s, a)
  {
    match a
    case MoveFile(c, f) => Added(c.level, [f])
    case FinishCompaction(input, outs) => Removed(s.pending.value.c)
    case _ => NO_FILES
  }

  function AddedBy(s: State, a: Action): Levels
    requires Possible(s, a) && LevelsInRange(s, a)
  {
    match a
    case FlushMem(level, f) => Added(level, [f])
    case MoveFile(c, f) => Added(c.level + 1, [f])
    case FinishCompaction(input, outs) => Added(s.pending.value.c.level + 1, outs)
    case _ => NO_FILES
  }

  lemma FlushIsChange(s: State, level: nat, f: File)
    requires Inv(s) && Enabled(s, FlushMem(level, f))
    ensures Edited(s.levels, ApplyEdit(s.levels, FlushEdit(level, f)), NO_FILES, Added(level, [f]))
  {
    assert forall l, g :: 0 <= l < NUM_LEVELS && g in s.levels[l] ==> NumbersBelow(s.levels[l], s.nextFile, s.pendingOutputs);
    FlushIsEdit(s.levels, level, f, s.nextFile);
  }

  lemma MoveIsChange(s: State, c: Compaction, f: File)
    requires Inv(s) && Enabled(s, MoveFile(c, f))
    ensures f in s.levels[c.level]
    ensures Edited(s.levels, ApplyEdit(s.levels, MoveEdit(c.level, f)), Added(c.level, [f]), Added(c.level + 1, [f]))
  {
    assert f in c.inputs0;
    MoveIsEdit(s.levels, c.level, f);
  }

  lemma FinishIsChange(s: State, input: Run, outs: seq<File>)
    requires Inv(s) && Enabled(s, FinishCompaction(input, outs))
    ensures s.pending.value.c.level + 1 < NUM_LEVELS && InputsPresent(s.levels, s.pending.value.c)
    ensures Edited(s.levels, ApplyEdit(s.levels, InstallEdit(s.pending.value.c, outs)),
                   Removed(s.pending.value.c), Added(s.pending.value.c.level + 1, outs))
  {
    InstallIsEdit(s.levels, s.pending.value.c, outs, s.nextFile, s.pendingOutputs);
  }

  lemma InRange(s: State, a: Action)
    requires Inv(s) && Enabled(s, a) && Possible(s, a)
    ensures LevelsInRange(s, a)
  {
  }

  lemma ChangeIsEdit(s: State, a: Action)
    requires Inv(s) && Enabled(s, a) && Possible(s, a) && EditOf(s, a).Some? && LevelsInRange(s, a)
    ensures Perform(s, a).levels == ApplyEdit(s.levels, EditOf(s, a).value)
    ensures Edited(s.levels, Perform(s, a).levels, RemovedBy(s, a), AddedBy(s, a))
  {
    match a
    case FlushMem(level, f) => FlushIsChange(s, level, f);
    case FlushEmptyMem => EmptyEditIsNoChange(s.levels);
    case MoveFile(c, f) => MoveIsChange(s, c, f);
    case FinishCompaction(input, outs) => FinishIsChange(s, input, outs);
  }

  lemma AddedNumbers(files: seq<File>, edit: VersionEdit, edits: seq<VersionEdit>, l: nat, level: nat, newFiles: seq<File>,
                     added: Levels)
    requires level < NUM_LEVELS && l < NUM_LEVELS && AddedAt(edit.newFiles, l) == if l == level then newFiles else []
    requires forall i :: 0 <= i < NUM_LEVELS ==> added[i] == if i == level then newFiles else []
    requires DistinctNumbers(newFiles) && DeletedAt(edit, l) <= Numbers(files)
    requires level <= l ==> forall f :: f in newFiles ==> f.number !in UsedAt([], edits, l)
    ensures EditNumbers(files, edit, edits, l, added)
  {
  }

  lemma FlushNumbered(files: seq<File>, edits: seq<VersionEdit>, level: nat, f: File, l: nat)
    requires l < NUM_LEVELS && level < NUM_LEVELS && f.number !in UsedAt([], edits, l)
    ensures EditNumbers(files, FlushEdit(level, f), edits, l, Added(level, [f]))
  {
    SingleFile(level, f, l);
    assert DeletedAt(FlushEdit(level, f), l) == {};
    AddedNumbers(files, FlushEdit(level, f), edits, l, level, [f], Added(level, [f]));
  }

  lemma MoveNumbered(levels: Levels, edits: seq<VersionEdit>, level: nat, f: File, l: nat)
    requires l < NUM_LEVELS && level + 1 < NUM_LEVELS && f in levels[level]
    requires level < l ==> f.number !in UsedAt([], edits, l)
    ensures EditNumbers(levels[l], MoveEdit(level, f), edits, l, Added(level + 1, [f]))
  {
    SingleFile(level + 1, f, l);
    assert DeletedAt(MoveEdit(level, f), l) <= Numbers(levels[l]);
    AddedNumbers(levels[l], MoveEdit(level, f), edits, l, level + 1, [f], Added(level + 1, [f]));
  }

  lemma InstallNumbered(files: seq<File>, edits: seq<VersionEdit>, c: Compaction, outs: seq<File>, l: nat)
    requires l < NUM_LEVELS && c.level + 1 < NUM_LEVELS && DistinctNumbers(outs)
    requires DeletedAt(InstallEdit(c, outs), l) <= Numbers(files)
    requires forall f :: f in outs ==> f.number !in UsedAt([], edits, l)
    ensures EditNumbers(files, InstallEdit(c, outs), edits, l, Added(c.level + 1, outs))
  {
    var target := c.level + 1;
    NewFilesAt(target, outs, l);
    AddedNumbers(files, InstallEdit(c, outs), edits, l, target, outs, Added(target, outs));
  }

  lemma EmptyNumbered(files: seq<File>, edits: seq<VersionEdit>, l: nat)
    requires l < NUM_LEVELS
    ensures EditNumbers(files, VersionEdit({}, []), edits, l, NO_FILES)
  {
    assert DeletedAt(VersionEdit({}, []), l) == {};
  }

  lemma MovedIsUnused(s: State, c: Compaction, f: File, used: set<nat>, l: nat)
    requires Inv(s) && Enabled(s, MoveFile(c, f)) && l < NUM_LEVELS && UsedOk(s.levels, used, l, s.nextFile, s.pendingOutputs)
    ensures c.level + 1 < NUM_LEVELS && f in s.levels[c.level] && (c.level < l ==> f.number !in used)
  {
    assert f in c.inputs0;
  }

  lemma ChangeIsNumbered(s: State, a: Action, edits: seq<VersionEdit>, l: nat)
    requires Inv(s) && Enabled(s, a) && Possible(s, a) && EditOf(s, a).Some? && LevelsInRange(s, a) && l < NUM_LEVELS
    requires UsedOk(s.levels, UsedAt([], edits, l), l, s.nextFile, s.pendingOutputs)
    ensures EditNumbers(s.levels[l], EditOf(s, a).value, edits, l, AddedBy(s, a))
  {
    match a
    case FlushMem(level, f) => FlushNumbered(s.levels[l], edits, level, f, l);
    case FlushEmptyMem => EmptyNumbered(s.levels[l], edits, l);
    case MoveFile(c, f) =>
      MovedIsUnused(s, c, f, UsedAt([], edits, l), l);
      MoveNumbered(s.levels, edits, c.level, f, l);
    case FinishCompaction(input, outs) =>
      OutputsAreUnused(UsedAt([], edits, l), outs, s.pendingOutputs);
      DeletedAreInLevel(s.levels, s.pending.value.c, outs, l);
      InstallNumbered(s.levels[l], edits, s.pending.value.c, outs, l);
  }

  lemma OutputsAreUnused(used: set<nat>, outs: seq<File>, outputs: set<nat>)
    requires forall n :: n in used ==> n !in outputs
    requires forall f :: f in outs ==> f.number in outputs
    ensures forall f :: f in outs ==> f.number !in used
  {
  }

  lemma DeletedAreInLevel(levels: Levels, c: Compaction, outs: seq<File>, l: nat)
    requires l < NUM_LEVELS && c.level + 1 < NUM_LEVELS && InputsPresent(levels, c)
    ensures DeletedAt(InstallEdit(c, outs), l) <= Numbers(levels[l])
  {
    DeletedByInstall(c, outs, l);
    assert Numbers(c.inputs0) <= Numbers(levels[c.level]) && Numbers(c.inputs1) <= Numbers(levels[c.level + 1]);
  }

  lemma FlushedAreOld(s: State)
    requires HistoryOk(s)
    ensures forall e :: e in s.flushed + Flatten(s.immGroups) ==> e.sn <= s.lastSequence
  {
    assert forall e :: e in s.flushed + Flatten(s.immGroups) ==> e in s.History();
  }

  // An edit without files writes the same version again.
  lemma EmptyEditIsNoChange(levels: Levels)
    requires WellFormed(levels) && Ordered(levels[0])
    ensures ApplyEdit(levels, VersionEdit({}, [])) == levels
    ensures Edited(levels, levels, NO_FILES, NO_FILES)
  {
    var edit := VersionEdit({}, []);
    var after := ApplyEdit(levels, edit);
    assert forall l: nat :: DeletedAt(edit, l) == {};
    forall l: nat | l < NUM_LEVELS ensures EditAt(levels[l], edit, l, NO_FILES[l], NO_FILES[l]) {
    }
    ApplyEditEdits(levels, edit, NO_FILES, NO_FILES);
    forall l: nat | l < NUM_LEVELS ensures after[l] == levels[l] && Ordered(levels[l]) {
      assert LevelEdit(levels[l], after[l], NO_FILES[l], NO_FILES[l]);
      if l > 0 { SortedIsOrdered(levels[l]); }
      OrderedListsWithSameMembers(after[l], levels[l]);
    }
    assert forall l :: 0 <= l < NUM_LEVELS ==> LevelEdit(levels[l], levels[l], NO_FILES[l], NO_FILES[l]);
  }

  lemma LogsStep(db: Db, a: Action)
    requires LogsOk(db) && EnabledOnDisk(db, a) && Possible(db.s, a)
    ensures LogsOk(PerformOnDisk(db, a))
  {
  }

  lemma SyncKeepsOk(db: Db)
    requires DbOk(db) && db.logging
    ensures db.logFile in db.disk.logs && DbOk(SyncLog(db)) && SyncLog(db).s == db.s
  {
  }

  lemma RecordsStayOk(levels: Levels, edits: seq<VersionEdit>, nextFile: nat, outputs: set<nat>, nextFile': nat, outputs': set<nat>)
    requires RecordsOk(levels, edits, nextFile, outputs) && nextFile <= nextFile'
    requires forall n :: n in outputs' ==> n in outputs || n == nextFile
    ensures RecordsOk(levels, edits, nextFile', outputs')
  {
    forall l: nat | l < NUM_LEVELS ensures UsedLevelOk(levels, edits, l, nextFile', outputs') {
      assert UsedLevelOk(levels, edits, l, nextFile, outputs);
    }
  }

  // Steps that append no record leave the MANIFEST describing the version.
  lemma ManifestStays(db: Db, s': State)
    requires ManifestOk(db) && s'.levels == db.s.levels && db.s.nextFile <= s'.nextFile
    requires forall n :: n in s'.pendingOutputs ==> n in db.s.pendingOutputs || n == db.s.nextFile
    requires s'.horizon == db.s.horizon && db.s.lastSequence <= s'.lastSequence && s'.flushed == db.s.flushed
    ensures RecordsOk(s'.levels, Edits(db.disk.manifest), s'.nextFile, s'.pendingOutputs)
    ensures LastRecordOk(s', db.logNumber, LastCounters(db.disk.manifest).value)
  {
    RecordsStayOk(db.s.levels, Edits(db.disk.manifest), db.s.nextFile, db.s.pendingOutputs, s'.nextFile, s'.pendingOutputs);
  }

  lemma CountersOnlyGrow(s: State, a: Action)
    requires Possible(s, a) && EditOf(s, a).Some? && HistoryOk(s)
    requires s.horizon <= s.lastSequence && (s.pending.Some? ==> s.pending.value.smallestSnapshot <= s.lastSequence)
    ensures s.nextFile <= Perform(s, a).nextFile && Perform(s, a).pendingOutputs <= s.pendingOutputs
    ensures Perform(s, a).lastSequence == s.lastSequence && Perform(s, a).horizon <= s.lastSequence
    ensures forall e :: e in Perform(s, a).flushed ==> e.sn <= s.lastSequence
  {
    FlushedAreOld(s);
  }

  lemma {:induction false} NewFilesInRange(level: nat, outs: seq<File>)
    requires level < NUM_LEVELS
    ensures forall n :: n in NewFiles(level, outs) ==> n.0 < NUM_LEVELS
  {
    if |outs| > 0 { NewFilesInRange(level, outs[..|outs| - 1]); }
  }

  lemma ChangeInRange(s: State, a: Action)
    requires Possible(s, a) && LevelsInRange(s, a) && EditOf(s, a).Some?
    ensures EditInRange(EditOf(s, a).value)
  {
    if a.FinishCompaction? { NewFilesInRange(s.pending.value.c.level + 1, a.outs); }
  }

  lemma ChangeIsRecorded(db: Db, a: Action)
    requires Inv(db.s) && ManifestOk(db) && Enabled(db.s, a) && Possible(db.s, a) && EditOf(db.s, a).Some?
    requires NumbersOk(Perform(db.s, a).levels, Perform(db.s, a).nextFile, Perform(db.s, a).pendingOutputs)
    ensures RecordsOk(Perform(db.s, a).levels, Edits(db.disk.manifest) + [EditOf(db.s, a).value],
                      Perform(db.s, a).nextFile, Perform(db.s, a).pendingOutputs)
  {
    var s, s', edits := db.s, Perform(db.s, a), Edits(db.disk.manifest);
    InRange(s, a);
    ChangeInRange(s, a);
    ChangeIsEdit(s, a);
    CountersOnlyGrow(s, a);
    forall l: nat | l < NUM_LEVELS ensures EditNumbers(s.levels[l], EditOf(s, a).value, edits, l, AddedBy(s, a)) {
      assert UsedLevelOk(s.levels, edits, l, s.nextFile, s.pendingOutputs);
      ChangeIsNumbered(s, a, edits, l);
    }
    RecordsGrow(s.levels, s'.levels, edits, EditOf(s, a).value, RemovedBy(s, a), AddedBy(s, a),
                s.nextFile, s.pendingOutputs, s'.nextFile, s'.pendingOutputs);
  }

  lemma RecordedStep(db: Db, a: Action, s': State, edit: VersionEdit, logNumber: nat)
    requires Inv(db.s) && ManifestOk(db) && Enabled(db.s, a) && Possible(db.s, a) && EditOf(db.s, a) == Some(edit)
    requires s' == Perform(db.s, a) && NumbersOk(s'.levels, s'.nextFile, s'.pendingOutputs)
    ensures ManifestOk(LogAndApply(db, edit, s', logNumber))
  {
    ChangeIsRecorded(db, a);
    CountersOnlyGrow(db.s, a);
    ManifestGrows(db, edit, s', logNumber);
  }

  lemma ManifestStep(db: Db, a: Action)
    requires Inv(db.s) && ManifestOk(db) && Enabled(db.s, a) && Possible(db.s, a)
    requires NumbersOk(Perform(db.s, a).levels, Perform(db.s, a).nextFile, Perform(db.s, a).pendingOutputs)
    ensures ManifestOk(PerformOnDisk(db, a))
  {
    if EditOf(db.s, a).Some? {
      RecordedStep(db, a, Perform(db.s, a), EditOf(db.s, a).value, PerformOnDisk(db, a).logNumber);
    } else {
      ManifestStays(db, Perform(db.s, a));
    }
  }

  lemma EditedNumbersIn(levels: Levels, after: Levels, removed: Levels, added: Levels, tables: set<nat>)
    requires Edited(levels, after, removed, added) && VersionNumbersIn(levels, tables) && VersionNumbersIn(added, tables)
    ensures VersionNumbersIn(after, tables)
  {
    forall l: nat, f | l < NUM_LEVELS && f in after[l] ensures f.number in tables {
      assert LevelEdit(levels[l], after[l], removed[l], added[l]);
    }
  }

  lemma MoreTables(levels: Levels, tables: set<nat>, more: set<nat>)
    requires VersionNumbersIn(levels, tables) && tables <= more
    ensures VersionNumbersIn(levels, more)
  {
  }

  lemma OldTablesStay(db: Db, a: Action)
    requires TablesOk(db) && Possible(db.s, a)
    ensures VersionNumbersIn(db.s.levels, PerformOnDisk(db, a).disk.tables)
    ensures forall v :: v in db.held ==> VersionNumbersIn(v, PerformOnDisk(db, a).disk.tables)
    ensures db.s.pending.Some? ==> VersionNumbersIn(db.s.pending.value.base, PerformOnDisk(db, a).disk.tables)
    ensures db.s.pendingOutputs <= PerformOnDisk(db, a).disk.tables
  {
    var tables, more := db.disk.tables, PerformOnDisk(db, a).disk.tables;
    MoreTables(db.s.levels, tables, more);
    forall v | v in db.held ensures VersionNumbersIn(v, more) { MoreTables(v, tables, more); }
    if db.s.pending.Some? { MoreTables(db.s.pending.value.base, tables, more); }
  }

  lemma AddedAreTables(s: State, a: Action, tables: set<nat>)
    requires Possible(s, a) && LevelsInRange(s, a) && Enabled(s, a)
    requires VersionNumbersIn(s.levels, tables) && s.pendingOutputs <= tables && (a.FlushMem? ==> a.file.number in tables)
    requires a.MoveFile? ==> a.file in s.levels[a.c.level]
    ensures VersionNumbersIn(AddedBy(s, a), tables)
  {
  }

  lemma NewVersionInTables(s: State, a: Action, tables: set<nat>)
    requires Inv(s) && Enabled(s, a) && Possible(s, a) && VersionNumbersIn(s.levels, tables) && s.pendingOutputs <= tables
    requires a.FlushMem? ==> a.file.number in tables
    ensures VersionNumbersIn(Perform(s, a).levels, tables)
  {
    if EditOf(s, a).Some? {
      InRange(s, a);
      ChangeIsEdit(s, a);
      if a.MoveFile? { MoveIsChange(s, a.c, a.file); }
      AddedAreTables(s, a, tables);
      EditedNumbersIn(s.levels, Perform(s, a).levels, RemovedBy(s, a), AddedBy(s, a), tables);
    }
  }

  lemma TablesStep(db: Db, a: Action)
    requires Inv(db.s) && TablesOk(db) && Enabled(db.s, a) && Possible(db.s, a)
    ensures TablesOk(PerformOnDisk(db, a))
  {
    OldTablesStay(db, a);
    NewVersionInTables(db.s, a, PerformOnDisk(db, a).disk.tables);
  }

  // Every step keeps logs, MANIFEST and tables enough to recover from.
  lemma StepOnDiskKeepsOk(db: Db, a: Action)
    requires DbOk(db) && EnabledOnDisk(db, a)
    ensures Possible(db.s, a) && DbOk(PerformOnDisk(db, a))
    ensures HistoryGrows(db.s, a, PerformOnDisk(db, a).s)
  {
    StepIsSafe(db.s, a);
    LogsStep(db, a);
    ManifestStep(db, a);
    TablesStep(db, a);
  }
}
