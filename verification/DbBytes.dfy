// A crash seen on the bytes of the files: every log and the MANIFEST may end
// at any byte behind what was synced, and recovery still finds whole groups and
// whole edits.

module DbBytes {
  import opened Wrappers
  import opened Coding
  import opened LogFormat
  import opened LogRoundTrip
  import opened BatchFormat
  import opened WriteBatches
  import opened LogBatches
  import opened MemTables
  import Comparator
  import DbFormat
  import VersionEdits
  import opened Entries
  import opened Files
  import opened CompactionWork
  import opened DbState
  import opened DbMachine
  import opened DbDisk
  import opened DbRecovery
  import opened DbCrash

  // ------------------------------------------------------------------ logs

  // The entries of a batch, as the database numbers them.
  ghost function GroupOf(ops: seq<BatchOp>, first: nat): (g: Run)
    requires Insertable(ops, first)
    ensures |g| == |ops|
  {
    seq(|ops|, i requires 0 <= i < |ops| => Modelled(EntryFor(ops[i], first + i)))
  }

  // What recovery makes of a log record.
  ghost function RecordGroup(record: Bytes): Run {
    if |record| >= HEADER && Insertable(Applied(record).0, DecodeFixed64(record[..8]))
    then GroupOf(Applied(record).0, DecodeFixed64(record[..8])) else []
  }

  // What recovery makes of a log file.
  ghost function GroupsIn(file: Bytes): (r: seq<Run>)
    ensures |r| == |ReadAll(file, 0).0| && forall i :: 0 <= i < |r| ==> r[i] == RecordGroup(ReadAll(file, 0).0[i])
  {
    seq(|ReadAll(file, 0).0|, i requires 0 <= i < |ReadAll(file, 0).0| => RecordGroup(ReadAll(file, 0).0[i]))
  }

  // The file has one record for each of these groups.
  ghost predicate LogHolds(file: Bytes, batches: seq<Batch>, groups: seq<Run>) {
    && Numbered(batches) && file == LogFile(batches) && |groups| == |batches|
    && forall i :: 0 <= i < |batches| ==> BatchOk(batches[i]) && groups[i] == GroupOf(batches[i].ops, batches[i].sequence)
  }

  // A record that lies entirely in front of the cut is complete.
  lemma {:induction false} CompleteCovers(records: seq<Bytes>, k: nat, pos: nat, m: nat)
    requires k <= |records| && pos + |Written(records[..k], pos)| <= m
    ensures Complete(records, pos, m) >= k
    decreases k
  {
    hide Fragments;
    if k > 0 {
      var f := Fragments(records[0], pos, true);
      assert records[..k][1..] == records[1..][..k - 1];
      CompleteCovers(records[1..], k - 1, pos + |f|, m);
    }
  }

  // A log cut behind its first k records reads as at least those groups, whole
  // and in order.
  lemma CutLogReadsWholeGroups(batches: seq<Batch>, groups: seq<Run>, m: nat, k: nat)
    requires LogHolds(LogFile(batches), batches, groups) && m <= |LogFile(batches)|
    requires k <= |batches| && |LogFile(batches[..k])| <= m
    ensures GroupsIn(LogFile(batches)[..m]) <= groups && k <= |GroupsIn(LogFile(batches)[..m])|
  {
    hide Written, ReadAll, Complete, Record, BatchOk, RecordGroup, Numbered;
    var n := Whole(batches, m);
    CutLogKeepsWholeBatches(batches, m);
    assert LogBatches.RecordsOf(batches)[..k] == LogBatches.RecordsOf(batches[..k]);
    CompleteCovers(LogBatches.RecordsOf(batches), k, 0, m);
    var read := GroupsIn(LogFile(batches)[..m]);
    forall i | 0 <= i < n ensures read[i] == groups[i] {
      RecordIsGroup(batches[i]);
    }
  }

  lemma RecordIsGroup(b: Batch)
    requires BatchOk(b)
    ensures RecordGroup(Record(b)) == GroupOf(b.ops, b.sequence)
  {
    hide Record, Applied, DecodeFixed64;
    RecordApplies(b);
  }

  // -------------------------------------------------------------- MANIFEST

  function EditRecords(edits: seq<VersionEdits.Edit>): (r: seq<Bytes>)
    ensures |r| == |edits| && forall i :: 0 <= i < |r| ==> r[i] == VersionEdits.EditBytes(edits[i])
  {
    seq(|edits|, i requires 0 <= i < |edits| => VersionEdits.EditBytes(edits[i]))
  }

  function ManifestFile(edits: seq<VersionEdits.Edit>): Bytes {
    Written(EditRecords(edits), 0)
  }

  // Every record of the file, decoded.
  function EditsIn(file: Bytes): (r: seq<Option<VersionEdits.Edit>>)
    ensures |r| == |ReadAll(file, 0).0|
    ensures forall i :: 0 <= i < |r| ==> r[i] == VersionEdits.DecodeRest(VersionEdits.EMPTY, ReadAll(file, 0).0[i])
  {
    seq(|ReadAll(file, 0).0|, i requires 0 <= i < |ReadAll(file, 0).0| =>
      VersionEdits.DecodeRest(VersionEdits.EMPTY, ReadAll(file, 0).0[i]))
  }

  // A MANIFEST cut behind its first k records reads as at least those edits.
  lemma CutManifestReadsWholeEdits(edits: seq<VersionEdits.Edit>, m: nat, k: nat)
    requires (forall i :: 0 <= i < |edits| ==> VersionEdits.EditOk(edits[i])) && m <= |ManifestFile(edits)|
    requires k <= |edits| && |ManifestFile(edits[..k])| <= m
    ensures var read := EditsIn(ManifestFile(edits)[..m]);
      k <= |read| <= |edits| && forall i :: 0 <= i < |read| ==> read[i] == Some(edits[i])
    ensures m == |ManifestFile(edits)| ==> |EditsIn(ManifestFile(edits)[..m])| == |edits|
  {
    hide Written, ReadAll, Complete, VersionEdits.EditBytes, VersionEdits.DecodeRest, VersionEdits.EditOk;
    var records := EditRecords(edits);
    PrefixOfFileIsPrefixOfRecords(records, m);
    CompleteAtEnd(records, 0);
    assert records[..k] == EditRecords(edits[..k]);
    CompleteCovers(records, k, 0, m);
    var read := EditsIn(ManifestFile(edits)[..m]);
    forall i | 0 <= i < |read| ensures read[i] == Some(edits[i]) {
      VersionEdits.EditRoundTrip(VersionEdits.EMPTY, edits[i]);
    }
  }

  // An internal key names this entry.
  ghost predicate NamesEntry(key: Bytes, e: Entry) {
    DbFormat.IsInternal(key) && Comparator.Rank(DbFormat.ExtractUserKey(key)) == e.key && DbFormat.Tag(key) / 256 == e.sn
  }

  ghost predicate DescribesFile(meta: VersionEdits.FileMetaData, f: File) {
    && meta.number == f.number && meta.fileSize == f.size
    && NamesEntry(meta.smallest, f.Small()) && NamesEntry(meta.largest, f.Large())
  }

  // The decoded edit is this record of the model.
  ghost predicate Describes(e: VersionEdits.Edit, r: ManifestRecord) {
    && (forall d :: d in e.deletedFiles <==> d in r.edit.deletedFiles)
    && |e.newFiles| == |r.edit.newFiles|
    && (forall i :: 0 <= i < |e.newFiles| ==>
          e.newFiles[i].0 == r.edit.newFiles[i].0 && DescribesFile(e.newFiles[i].1, r.edit.newFiles[i].1))
    && (if r.counters.Some?
        then e.logNumber == Some(r.counters.value.logNumber) && e.nextFileNumber == Some(r.counters.value.nextFile)
             && e.lastSequence == Some(r.counters.value.lastSequence)
        else e.logNumber == None && e.nextFileNumber == None && e.lastSequence == None)
  }

  ghost predicate AllDescribed(read: seq<Option<VersionEdits.Edit>>, manifest: seq<ManifestRecord>) {
    |read| == |manifest| && forall i :: 0 <= i < |read| ==> read[i].Some? && Describes(read[i].value, manifest[i])
  }

  // ----------------------------------------------------------- all the files

  datatype FileSystem = FileSystem(logs: map<nat, Bytes>, manifest: Bytes, tables: set<nat>)

  // What the model's disk is in bytes: the batches of every log, the edits of
  // the MANIFEST.
  ghost predicate Stores(files: FileSystem, disk: Disk, logs: map<nat, seq<Batch>>, edits: seq<VersionEdits.Edit>) {
    && files.logs.Keys == disk.logs.Keys == logs.Keys
    && (forall n :: n in logs ==> LogHolds(files.logs[n], logs[n], disk.logs[n]))
    && files.manifest == ManifestFile(edits) && |edits| == |disk.manifest|
    && (forall i :: 0 <= i < |edits| ==> VersionEdits.EditOk(edits[i]) && Describes(edits[i], disk.manifest[i]))
    && files.tables == disk.tables
  }

  // Every file may end at any byte: a log behind its synced records, the
  // MANIFEST behind its first k records.
  ghost predicate CutBehind(files: FileSystem, cut: FileSystem, disk: Disk, logs: map<nat, seq<Batch>>,
                            edits: seq<VersionEdits.Edit>, k: nat)
    requires k <= |edits|
  {
    && cut.logs.Keys == files.logs.Keys == logs.Keys
    && (forall n :: n in logs ==>
          cut.logs[n] <= files.logs[n] && disk.SyncedOf(n) <= |logs[n]| && |LogFile(logs[n][..disk.SyncedOf(n)])| <= |cut.logs[n]|)
    && cut.manifest <= files.manifest && |ManifestFile(edits[..k])| <= |cut.manifest|
    && files.tables <= cut.tables
  }

  // What recovery reads of the files, as a disk of the model.
  ghost function ImageOf(cut: FileSystem, manifest: seq<ManifestRecord>): Disk {
    var n := |EditsIn(cut.manifest)|;
    Disk(map l | l in cut.logs :: GroupsIn(cut.logs[l]), map[], if n <= |manifest| then manifest[..n] else manifest, cut.tables)
  }

  // The logs of the image are cut behind what was synced, and no table is lost.
  ghost predicate CutFits(disk: Disk, image: Disk) {
    && image.logs.Keys == disk.logs.Keys && disk.tables <= image.tables
    && forall n :: n in image.logs ==> image.logs[n] <= disk.logs[n] && disk.SyncedOf(n) <= |image.logs[n]|
  }

  lemma OneLogIsCut(file: Bytes, cut: Bytes, batches: seq<Batch>, groups: seq<Run>, k: nat)
    requires LogHolds(file, batches, groups) && cut <= file && k <= |batches| && |LogFile(batches[..k])| <= |cut|
    ensures GroupsIn(cut) <= groups && k <= |GroupsIn(cut)|
  {
    hide GroupsIn, LogFile;
    assert cut == file[..|cut|];
    CutLogReadsWholeGroups(batches, groups, |cut|, k);
  }

  lemma LogOfFiles(files: FileSystem, cut: FileSystem, disk: Disk, logs: map<nat, seq<Batch>>, edits: seq<VersionEdits.Edit>, k: nat, n: nat)
    requires Stores(files, disk, logs, edits) && k <= |edits| && CutBehind(files, cut, disk, logs, edits, k) && n in disk.logs
    ensures n in cut.logs && GroupsIn(cut.logs[n]) <= disk.logs[n] && disk.SyncedOf(n) <= |GroupsIn(cut.logs[n])|
  {
    hide LogHolds, GroupsIn, LogFile, Describes, VersionEdits.EditOk, ManifestFile, EditsIn;
    OneLogIsCut(files.logs[n], cut.logs[n], logs[n], disk.logs[n], disk.SyncedOf(n));
  }

  lemma LogsAreCut(files: FileSystem, cut: FileSystem, disk: Disk, logs: map<nat, seq<Batch>>, edits: seq<VersionEdits.Edit>, k: nat)
    requires Stores(files, disk, logs, edits) && k <= |edits| && CutBehind(files, cut, disk, logs, edits, k)
    ensures CutFits(disk, ImageOf(cut, disk.manifest))
  {
    hide GroupsIn, EditsIn, LogHolds, LogFile, Describes, VersionEdits.EditOk, ManifestFile;
    assert cut.logs.Keys == disk.logs.Keys && disk.tables <= cut.tables;
    hide Stores, CutBehind;
    forall n | n in disk.logs ensures GroupsIn(cut.logs[n]) <= disk.logs[n] && disk.SyncedOf(n) <= |GroupsIn(cut.logs[n])| {
      LogOfFiles(files, cut, disk, logs, edits, k, n);
    }
  }

  lemma ManifestIsCut(files: FileSystem, cut: FileSystem, disk: Disk, logs: map<nat, seq<Batch>>, edits: seq<VersionEdits.Edit>, k: nat)
    requires Stores(files, disk, logs, edits) && k <= |edits| && CutBehind(files, cut, disk, logs, edits, k)
    ensures k <= |EditsIn(cut.manifest)| <= |disk.manifest| == |edits|
    ensures AllDescribed(EditsIn(cut.manifest), ImageOf(cut, disk.manifest).manifest)
    ensures ImageOf(cut, disk.manifest).manifest == disk.manifest[..|EditsIn(cut.manifest)|]
  {
    hide LogHolds, GroupsIn, LogFile, Describes, VersionEdits.EditOk, ManifestFile, EditsIn;
    assert cut.manifest == files.manifest[..|cut.manifest|];
    CutManifestReadsWholeEdits(edits, |cut.manifest|, k);
  }

  // The image is one a crash may leave, and recovery finds the history up to
  // whole groups.
  ghost predicate RecoversTo(db: Db, image: Disk) {
    && CrashImage(db, image) && Recoverable(image, db.s.flushed, db.s.horizon, ReplayNumbersOf(db))
    && OlderKept(db, image) <= |db.s.immGroups| && |image.logs[db.logFile]| <= |LoggedGroups(db)|
    && db.s.flushed + Flatten(Records(image.logs, ReplayNumbersOf(db)))
       == Surviving(db, OlderKept(db, image), |image.logs[db.logFile]|)
  }

  lemma FittingImageRecovers(db: Db, image: Disk)
    requires DbOk(db) && CutFits(db.disk, image) && image.manifest == db.disk.manifest
    ensures RecoversTo(db, image)
  {
    hide DbOk, Recoverable, Surviving, Flatten, Records, OlderKept;
    LogFileExists(db);
    CrashIsRecoverable(db, image, OlderKept(db, image), |image.logs[db.logFile]|);
  }

  lemma LogFileExists(db: Db)
    requires DbOk(db)
    ensures db.logFile in db.disk.logs
  {
  }

  // At rest, with the MANIFEST synced: at whatever bytes the files end, what is
  // left of them can be recovered.
  lemma CutAtAnyByteIsRecoverable(db: Db, files: FileSystem, cut: FileSystem, logs: map<nat, seq<Batch>>, edits: seq<VersionEdits.Edit>)
    requires DbOk(db) && Stores(files, db.disk, logs, edits) && CutBehind(files, cut, db.disk, logs, edits, |edits|)
    ensures var image := ImageOf(cut, db.disk.manifest);
      RecoversTo(db, image) && AllDescribed(EditsIn(cut.manifest), image.manifest)
  {
    hide DbOk, EditsIn, AllDescribed, Stores, CutBehind, ImageOf, CutFits, RecoversTo;
    LogsAreCut(files, cut, db.disk, logs, edits, |edits|);
    ManifestIsCut(files, cut, db.disk, logs, edits, |edits|);
    assert db.disk.manifest[..|edits|] == db.disk.manifest;
    FittingImageRecovers(db, ImageOf(cut, db.disk.manifest));
  }

  // While the last record of the MANIFEST is being written: if it is read whole
  // the step has happened, and if it is torn at any byte it has not.
  lemma CutWhileLoggingIsRecoverable(db: Db, a: Action, files: FileSystem, cut: FileSystem,
                                     logs: map<nat, seq<Batch>>, edits: seq<VersionEdits.Edit>)
    requires DbOk(db) && EnabledOnDisk(db, a) && Possible(db.s, a) && EditOf(db.s, a).Some?
    requires Stores(files, PerformOnDisk(db, a).disk, logs, edits) && |edits| > 0
    requires CutBehind(files, cut, PerformOnDisk(db, a).disk, logs, edits, |edits| - 1)
    ensures var after := PerformOnDisk(db, a);
      var image := ImageOf(cut, after.disk.manifest);
      && AllDescribed(EditsIn(cut.manifest), image.manifest)
      && RecoversTo(if |EditsIn(cut.manifest)| == |edits| then after else db, image)
  {
    hide DbOk, EditsIn, AllDescribed, Stores, CutBehind, ImageOf, CutFits, RecoversTo, PerformOnDisk, EnabledOnDisk, EditOf, Possible;
    var after := PerformOnDisk(db, a);
    var image, n := ImageOf(cut, after.disk.manifest), |EditsIn(cut.manifest)|;
    LogsAreCut(files, cut, after.disk, logs, edits, |edits| - 1);
    ManifestIsCut(files, cut, after.disk, logs, edits, |edits| - 1);
    StepOnDiskKeepsOk(db, a);
    WholeOrTorn(db, a, image, n);
  }

  lemma WholeOrTorn(db: Db, a: Action, image: Disk, n: nat)
    requires DbOk(db) && Possible(db.s, a) && EditOf(db.s, a).Some? && DbOk(PerformOnDisk(db, a))
    requires var after := PerformOnDisk(db, a);
      CutFits(after.disk, image) && |after.disk.manifest| - 1 <= n <= |after.disk.manifest| && image.manifest == after.disk.manifest[..n]
    ensures RecoversTo(if n == |PerformOnDisk(db, a).disk.manifest| then PerformOnDisk(db, a) else db, image)
  {
    hide DbOk, CutFits, RecoversTo, PerformOnDisk, EditOf, Possible;
    var after := PerformOnDisk(db, a);
    if n == |after.disk.manifest| {
      assert after.disk.manifest[..n] == after.disk.manifest;
      FittingImageRecovers(after, image);
    } else {
      StepLogsOneEdit(db, a, image);
      FittingImageRecovers(db, image);
    }
  }

  // Only the MANIFEST and the set of tables grow.
  lemma StepLogsOneEdit(db: Db, a: Action, image: Disk)
    requires Possible(db.s, a) && EditOf(db.s, a).Some?
    ensures var after := PerformOnDisk(db, a);
      && |after.disk.manifest| == |db.disk.manifest| + 1 && after.disk.manifest[..|db.disk.manifest|] == db.disk.manifest
      && (CutFits(after.disk, image) ==> CutFits(db.disk, image))
  {
    hide Perform;
  }
}
