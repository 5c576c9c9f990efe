// Crashes at any point of any run: what recovery brings back, and that the
// reopened database is as good as one that never stopped.

module DbCrash {
  import opened Wrappers
  import opened Entries
  import opened Files
  import opened VersionBuilder
  import opened CompactionWork
  import opened LevelEdits
  import opened DbState
  import opened DbLevels
  import opened DbCompaction
  import opened DbMachine
  import opened DbDisk
  import opened DbRecovery

  // The database DB::Open starts with: empty memtables, a fresh log, and a
  // MANIFEST of one snapshot record and one edit.
  function OpenedDb(image: Disk, o: Opened, history: seq<Entry>, horizon: nat): Db {
    var s := State([], None, ApplyEdit(o.levels, ReplayEdit(o.files)), o.lastSequence, [], None, {}, o.logNumber + 1,
                   history, [], [], [], 0, horizon);
    var snapshot := ManifestRecord(SnapshotEdit(o.levels), None);
    var first := ManifestRecord(ReplayEdit(o.files), Some(Counters(o.logNumber, o.logNumber + 1, o.lastSequence)));
    Db(s, o.logNumber, o.logNumber, false, [],
       Disk(image.logs[o.logNumber := []], map[], [snapshot, first], image.tables + Numbers(o.files)))
  }

  lemma OpenedIsSafe(s: State, horizon: nat, history: seq<Entry>)
    requires s.mem == [] && s.imm == None && s.snapshots == [] && s.pending == None && s.pendingOutputs == {}
    requires s.flushed == history && s.immGroups == [] && s.memGroups == [] && s.inflight == [] && s.applied == 0
    requires s.horizon == horizon <= s.lastSequence < MAX_SEQUENCE_NUMBER
    requires LevelsOk(s.levels, history, horizon) && NumbersOk(s.levels, s.nextFile, {})
    requires IsHistory(history) && forall e :: e in history ==> e.sn <= s.lastSequence
    ensures Inv(s) && s.History() == history
  {
    assert Flatten(s.immGroups) == [] && Flatten(s.memGroups) == [];
    assert s.History() == history;
  }

  lemma ReplayNumbered(files: seq<File>, edits: seq<VersionEdit>, newFiles: seq<File>, l: nat)
    requires l < NUM_LEVELS && DistinctNumbers(newFiles) && forall f :: f in newFiles ==> f.number !in UsedAt([], edits, l)
    ensures EditNumbers(files, ReplayEdit(newFiles), edits, l, Added(0, newFiles))
  {
    NewFilesAt(0, newFiles, l);
    assert DeletedAt(ReplayEdit(newFiles), l) == {};
    AddedNumbers(files, ReplayEdit(newFiles), edits, l, 0, newFiles, Added(0, newFiles));
  }

  // The new MANIFEST describes the version with the replayed tables.
  lemma ReplayIsRecorded(levels: Levels, after: Levels, snapshot: VersionEdit, files: seq<File>, es: seq<Entry>,
                         nextFile: nat, next: nat)
    requires RecordsOk(levels, [snapshot], nextFile, {}) && after == ApplyEdit(levels, ReplayEdit(files))
    requires Edited(levels, after, NO_FILES, Added(0, files)) && NumbersOk(after, next, {}) && nextFile < next
    requires TablesHold(files, es, nextFile + 1, next) && DistinctNumbers(files)
    ensures RecordsOk(after, [snapshot, ReplayEdit(files)], next, {})
  {
    forall l: nat | l < NUM_LEVELS ensures EditNumbers(levels[l], ReplayEdit(files), [snapshot], l, Added(0, files)) {
      assert UsedLevelOk(levels, [snapshot], l, nextFile, {});
      ReplayNumbered(levels[l], [snapshot], files, l);
    }
    NewFilesInRange(0, files);
    RecordsGrow(levels, after, [snapshot], ReplayEdit(files), NO_FILES, Added(0, files), nextFile, {}, next, {});
    assert [snapshot] + [ReplayEdit(files)] == [snapshot, ReplayEdit(files)];
  }

  lemma TwoRecords(a: ManifestRecord, b: ManifestRecord)
    ensures Edits([a, b]) == [a.edit, b.edit]
    ensures b.counters.Some? ==> LastCounters([a, b]) == b.counters
  {
    assert [a, b][..1] == [a];
    assert Edits([a]) == [a.edit];
  }

  // The version part of opening: what LogAndApply installs and records.
  lemma OpenedVersion(levels: Levels, after: Levels, files: seq<File>, flushed: seq<Entry>, es: seq<Entry>, horizon: nat,
                      nextFile: nat, next: nat)
    requires LevelsOk(levels, flushed, horizon) && NumbersOk(levels, nextFile, {}) && IsHistory(flushed + es)
    requires TablesHold(files, es, nextFile + 1, next) && nextFile < next && after == ApplyEdit(levels, ReplayEdit(files))
    ensures LevelsOk(after, flushed + es, horizon) && NumbersOk(after, next, {})
    ensures RecordsOk(after, [SnapshotEdit(levels), ReplayEdit(files)], next, {})
    ensures Edited(levels, after, NO_FILES, Added(0, files))
  {
    ReplayIsEdit(levels, files, es, nextFile, next);
    ReplayKeepsLevelsOk(levels, after, flushed, es, horizon, files, nextFile, next);
    SnapshotRestates(levels);
    SnapshotRebuildsVersion(levels, SnapshotEdit(levels), nextFile);
    ReplayIsRecorded(levels, after, SnapshotEdit(levels), files, es, nextFile, next);
  }

  lemma OpenedLogs(image: Disk, numbers: seq<nat>, o: Opened, history: seq<Entry>, horizon: nat)
    requires LastCounters(image.manifest).Some? && IsOpened(image, numbers, o)
    requires IsReplayOrder(numbers, image.logs, LastCounters(image.manifest).value.logNumber)
    requires var c := LastCounters(image.manifest).value; c.logNumber <= c.nextFile || c.logNumber in numbers
    ensures LogsOk(OpenedDb(image, o, history, horizon))
  {
    var db, c := OpenedDb(image, o, history, horizon), LastCounters(image.manifest).value;
    forall n | n in db.disk.logs && n >= db.logNumber ensures n == db.logNumber {
      assert n != o.logNumber ==> n in image.logs && n >= c.logNumber && n in numbers;
    }
  }

  // A reopened database satisfies every invariant of a running one, and its
  // history is the flushed one continued by what the logs held.
  lemma OpenedIsOk(image: Disk, flushed: seq<Entry>, horizon: nat, numbers: seq<nat>, o: Opened)
    requires Recoverable(image, flushed, horizon, numbers) && IsOpened(image, numbers, o)
    ensures var db := OpenedDb(image, o, flushed + Flatten(Records(image.logs, numbers)), horizon);
      DbOk(db) && db.s.History() == flushed + Flatten(Records(image.logs, numbers))
  {
    hide LevelsOk, NumbersOk, RecordsOk, LogsOk, Edited, DbOk, VersionNumbersIn, IsHistory, TablesHold, Flatten, ApplyEdit;
    var c, es := LastCounters(image.manifest).value, Flatten(Records(image.logs, numbers));
    var db := OpenedDb(image, o, flushed + es, horizon);
    OpenedVersion(o.levels, db.s.levels, o.files, flushed, es, horizon, c.nextFile, o.logNumber);
    TwoRecords(db.disk.manifest[0], db.disk.manifest[1]);
    OpenedLogs(image, numbers, o, flushed + es, horizon);
    OpenedRest(db, o, c, flushed, es, image.tables);
  }

  lemma OpenedRest(db: Db, o: Opened, c: Counters, flushed: seq<Entry>, es: seq<Entry>, tables: set<nat>)
    requires NumbersOk(db.s.levels, o.logNumber, {}) && LevelsOk(db.s.levels, flushed + es, db.s.horizon)
    requires RecordsOk(db.s.levels, Edits(db.disk.manifest), o.logNumber, {})
    requires LastCounters(db.disk.manifest) == Some(Counters(o.logNumber, o.logNumber + 1, o.lastSequence))
    requires LogsOk(db) && Edited(o.levels, db.s.levels, NO_FILES, Added(0, o.files))
    requires VersionNumbersIn(o.levels, tables) && db.disk.tables == tables + Numbers(o.files)
    requires db.s == State([], None, db.s.levels, o.lastSequence, [], None, {}, o.logNumber + 1,
                           flushed + es, [], [], [], 0, db.s.horizon)
    requires db.logNumber == o.logNumber && db.held == [] && db.s.horizon <= c.lastSequence
    requires IsLargest(o.lastSequence, es, c.lastSequence) && IsHistory(flushed + es)
    requires forall e :: e in flushed ==> e.sn <= c.lastSequence
    requires o.lastSequence < MAX_SEQUENCE_NUMBER
    ensures DbOk(db) && db.s.History() == flushed + es
  {
    NumbersStayOk(db.s.levels, o.logNumber, o.logNumber + 1);
    OpenedIsSafe(db.s, db.s.horizon, flushed + es);
    RecordsStayOk(db.s.levels, Edits(db.disk.manifest), o.logNumber, {}, o.logNumber + 1, {});
    MoreTables(o.levels, tables, db.disk.tables);
    EditedNumbersIn(o.levels, db.s.levels, NO_FILES, Added(0, o.files), db.disk.tables);
  }

  lemma NumbersStayOk(levels: Levels, next: nat, later: nat)
    requires NumbersOk(levels, next, {}) && next <= later
    ensures NumbersOk(levels, later, {})
  {
    assert forall l :: 0 <= l < NUM_LEVELS ==> NumbersBelow(levels[l], next, {});
  }

  // ------------------------------------------------------------- crashing

  function ReplayNumbersOf(db: Db): seq<nat> {
    if db.logNumber < db.logFile then [db.logNumber, db.logFile] else [db.logFile]
  }

  // The operations recovery brings back when the log of the immutable memtable
  // keeps m groups and the newest log keeps n.
  function Surviving(db: Db, m: nat, n: nat): seq<Entry>
    requires m <= |db.s.immGroups| && n <= |LoggedGroups(db)|
  {
    db.s.flushed + Flatten(db.s.immGroups[..m]) + Flatten(LoggedGroups(db)[..n])
  }

  lemma ReplayedRecords(db: Db, image: Disk)
    requires LogsOk(db) && CrashImage(db, image)
    ensures IsReplayOrder(ReplayNumbersOf(db), image.logs, db.logNumber) && db.logNumber in ReplayNumbersOf(db)
    ensures db.logNumber in image.logs
    ensures Records(image.logs, ReplayNumbersOf(db)) == ReplayedGroups(image, db.logNumber, db.logFile)
  {
    var numbers := ReplayNumbersOf(db);
    forall n ensures n in numbers <==> n in image.logs && n >= db.logNumber {
    }
    assert RecordsUpTo(image.logs, numbers, 0) == [];
    assert RecordsUpTo(image.logs, numbers, 1) == RecordsOf(image.logs, numbers[0]);
    if |numbers| == 2 {
      assert RecordsUpTo(image.logs, numbers, 2) == RecordsUpTo(image.logs, numbers, 1) + RecordsOf(image.logs, numbers[1]);
    }
  }

  // The history with the group in flight, in the pieces a crash may cut it into.
  lemma HistoryParts(db: Db, m: nat, n: nat)
    requires LogsOk(db) && m <= |db.s.immGroups| && n <= |LoggedGroups(db)|
    ensures db.s.History() + db.s.inflight
      == Surviving(db, m, 0) + Flatten(db.s.immGroups[m..]) + Flatten(LoggedGroups(db)[..n]) + Flatten(LoggedGroups(db)[n..])
    ensures Surviving(db, m, n) == Surviving(db, m, 0) + Flatten(LoggedGroups(db)[..n])
  {
    var older, logged := db.s.immGroups, LoggedGroups(db);
    assert older == older[..m] + older[m..] && logged == logged[..n] + logged[n..];
    FlattenConcat(older[..m], older[m..]);
    FlattenConcat(logged[..n], logged[n..]);
    LoggedFlat(db);
    assert logged[..0] == [] && Flatten(logged[..0]) == [];
    FiveParts(db.s.flushed, Flatten(older[..m]), Flatten(older[m..]), Flatten(logged[..n]), Flatten(logged[n..]),
              Flatten(db.s.memGroups), db.s.inflight);
  }

  lemma FiveParts(a: seq<Entry>, b: seq<Entry>, c: seq<Entry>, d: seq<Entry>, e: seq<Entry>, f: seq<Entry>, g: seq<Entry>)
    requires f + g == d + e
    ensures (a + (b + c) + f) + g == (a + b + []) + c + d + e
    ensures a + b + d == (a + b + []) + d
  {
    assert (a + (b + c) + f) + g == a + (b + c) + (f + g);
  }

  // What survives is a prefix of the history if and only if nothing of the
  // older log was lost, or nothing of the newest one was kept.
  lemma SurvivorsArePrefixIff(db: Db, m: nat, n: nat)
    requires LogsOk(db) && HistoryOk(db.s) && m <= |db.s.immGroups| && n <= |LoggedGroups(db)|
    ensures Surviving(db, m, n) <= db.s.History() + db.s.inflight
      <==> Flatten(db.s.immGroups[m..]) == [] || Flatten(LoggedGroups(db)[..n]) == []
    ensures m == |db.s.immGroups| && n == |LoggedGroups(db)| ==> Surviving(db, m, n) == db.s.History() + db.s.inflight
  {
    var all := db.s.History() + db.s.inflight;
    NumberedHistory(db.s, all);
    HistoryParts(db, m, n);
    PrefixIff(Surviving(db, m, 0), Flatten(db.s.immGroups[m..]), Flatten(LoggedGroups(db)[..n]), Flatten(LoggedGroups(db)[n..]), all);
    if m == |db.s.immGroups| { assert db.s.immGroups[m..] == []; }
    if n == |LoggedGroups(db)| { assert LoggedGroups(db)[n..] == []; }
    assert Flatten([]) == [];
  }

  // Leaving b out of a + b + c + d, and d.
  lemma PrefixIff(a: seq<Entry>, b: seq<Entry>, c: seq<Entry>, d: seq<Entry>, all: seq<Entry>)
    requires all == a + b + c + d && IsHistory(all)
    ensures a + c <= all <==> b == [] || c == []
    ensures b == [] && d == [] ==> a + c == all
  {
    if b == [] {
      assert a + b == a && all == (a + c) + d;
    } else if c == [] {
      assert a + c == a && all == a + (b + c + d);
    } else {
      assert all[|a|] == b[0] && all[|a| + |b|] == c[0];
      assert (a + c)[|a|] == c[0];
    }
  }

  lemma NumberedHistory(s: State, h: seq<Entry>)
    requires HistoryOk(s) && h <= s.History() + s.inflight
    ensures IsHistory(h) && forall e :: e in h ==> e.sn < MAX_SEQUENCE_NUMBER
  {
    var all := s.History() + s.inflight;
    forall i, j | 0 <= i < j < |all| ensures all[i].sn < all[j].sn {
      if i < |s.History()| <= j {
        assert s.History()[i] in s.History();
        assert all[j] == s.inflight[j - |s.History()|];
      } else if i >= |s.History()| {
        assert all[i] == s.inflight[i - |s.History()|] && all[j] == s.inflight[j - |s.History()|];
      }
    }
    forall e | e in h ensures e.sn < MAX_SEQUENCE_NUMBER {
      var i :| 0 <= i < |h| && h[i] == e;
      assert all[i] == e;
      assert i < |s.History()| ==> e in s.History();
      assert i >= |s.History()| ==> e == s.inflight[i - |s.History()|];
    }
  }

  // Leaving operations out keeps the numbers ascending.
  lemma SurvivorsAreHistory(db: Db, m: nat, n: nat)
    requires LogsOk(db) && HistoryOk(db.s) && m <= |db.s.immGroups| && n <= |LoggedGroups(db)|
    ensures IsHistory(Surviving(db, m, n)) && forall e :: e in Surviving(db, m, n) ==> e.sn < MAX_SEQUENCE_NUMBER
  {
    var all := db.s.History() + db.s.inflight;
    NumberedHistory(db.s, all);
    HistoryParts(db, m, n);
    WithoutMiddle(Surviving(db, m, 0), Flatten(db.s.immGroups[m..]), Flatten(LoggedGroups(db)[..n]), Flatten(LoggedGroups(db)[n..]), all);
  }

  lemma WithoutMiddle(a: seq<Entry>, b: seq<Entry>, c: seq<Entry>, d: seq<Entry>, all: seq<Entry>)
    requires all == a + b + c + d && IsHistory(all)
    ensures IsHistory(a + c) && forall e :: e in a + c ==> e in all
  {
    forall i, j | 0 <= i < j < |a + c| ensures (a + c)[i].sn < (a + c)[j].sn {
      assert (a + c)[i] == all[if i < |a| then i else i + |b|] && (a + c)[j] == all[if j < |a| then j else j + |b|];
    }
  }

  // Whatever a crash leaves can be recovered, and holds every operation of
  // table files and whole groups of either log, at least those that were synced.
  lemma CrashIsRecoverable(db: Db, image: Disk, m: nat, n: nat)
    requires DbOk(db) && CrashImage(db, image) && m == OlderKept(db, image) && n == |image.logs[db.logFile]|
    ensures m <= |db.s.immGroups| && n <= |LoggedGroups(db)|
    ensures Recoverable(image, db.s.flushed, db.s.horizon, ReplayNumbersOf(db))
    ensures db.s.flushed + Flatten(Records(image.logs, ReplayNumbersOf(db))) == Surviving(db, m, n)
    ensures db.disk.SyncedOf(db.logFile) <= n && (db.logNumber < db.logFile ==> db.disk.SyncedOf(db.logNumber) <= m)
  {
    hide IsHistory, Flatten, ManifestOk, TablesOk, LevelsOk, NumbersOk, ApplyEdits, Edits, NeverReAdded, MemTablesOk;
    OkParts(db);
    var numbers := ReplayNumbersOf(db);
    ReplayedRecords(db, image);
    ReplayedIsPrefix(db, image, m, n);
    var es := Flatten(Records(image.logs, numbers));
    Reassociate(db.s.flushed, Flatten(db.s.immGroups[..m]), Flatten(LoggedGroups(db)[..n]));
    assert db.s.flushed + es == Surviving(db, m, n);
    SurvivorsAreHistory(db, m, n);
    PartsOfHistory(db.s.flushed, es);
    CrashKeepsVersion(db, image);
    Recovers(db, image, es);
  }

  lemma Reassociate(a: seq<Entry>, b: seq<Entry>, c: seq<Entry>)
    ensures a + (b + c) == a + b + c
  {
  }

  lemma OkParts(db: Db)
    requires DbOk(db)
    ensures LogsOk(db) && ManifestOk(db) && TablesOk(db) && HistoryOk(db.s) && (db.s.imm == None ==> db.s.immGroups == [])
    ensures LevelsOk(db.s.levels, db.s.flushed, db.s.horizon) && NumbersOk(db.s.levels, db.s.nextFile, db.s.pendingOutputs)
  {
  }

  lemma Recovers(db: Db, image: Disk, es: seq<Entry>)
    requires LogsOk(db) && ManifestOk(db) && HistoryOk(db.s) && LevelsOk(db.s.levels, db.s.flushed, db.s.horizon)
    requires image.manifest == db.disk.manifest && es == Flatten(Records(image.logs, ReplayNumbersOf(db)))
    requires IsReplayOrder(ReplayNumbersOf(db), image.logs, db.logNumber) && db.logNumber in ReplayNumbersOf(db)
    requires IsHistory(db.s.flushed + es) && IsHistory(es) && forall e :: e in db.s.flushed + es ==> e.sn < MAX_SEQUENCE_NUMBER
    requires db.s.levels == ApplyEdits(NO_FILES, Edits(image.manifest))
    requires LastCounters(image.manifest).Some? && NumbersOk(db.s.levels, LastCounters(image.manifest).value.nextFile, {})
    requires VersionNumbersIn(db.s.levels, image.tables)
    requires forall e :: e in Edits(image.manifest) ==> EditInRange(e)
    requires forall l :: 0 <= l < NUM_LEVELS ==> NeverReAdded([], Edits(image.manifest), l)
    ensures Recoverable(image, db.s.flushed, db.s.horizon, ReplayNumbersOf(db))
  {
    hide LevelsOk, NumbersOk, NeverReAdded, IsHistory, ApplyEdits, Edits, RecordsOk;
  }

  lemma CrashKeepsVersion(db: Db, image: Disk)
    requires ManifestOk(db) && TablesOk(db) && NumbersOk(db.s.levels, db.s.nextFile, db.s.pendingOutputs)
    requires image.manifest == db.disk.manifest && db.disk.tables <= image.tables
    ensures db.s.levels == ApplyEdits(NO_FILES, Edits(image.manifest))
    ensures LastCounters(image.manifest).Some? && NumbersOk(db.s.levels, LastCounters(image.manifest).value.nextFile, {})
    ensures VersionNumbersIn(db.s.levels, image.tables)
    ensures forall e :: e in Edits(image.manifest) ==> EditInRange(e)
    ensures forall l :: 0 <= l < NUM_LEVELS ==> NeverReAdded([], Edits(image.manifest), l)
  {
    MoreTables(db.s.levels, db.disk.tables, image.tables);
    forall l: nat | l < NUM_LEVELS ensures NeverReAdded([], Edits(image.manifest), l) {
      assert UsedLevelOk(db.s.levels, Edits(image.manifest), l, db.s.nextFile, db.s.pendingOutputs);
    }
  }

  // A torn last MANIFEST record is as if the step had not happened: the files
  // and logs are still enough for the version before it.
  lemma TornManifestRecord(db: Db, a: Action, image: Disk)
    requires DbOk(db) && EnabledOnDisk(db, a) && Possible(db.s, a) && EditOf(db.s, a).Some?
    requires CrashImage(PerformOnDisk(db, a), image.(manifest := PerformOnDisk(db, a).disk.manifest))
    requires image.manifest == db.disk.manifest
    ensures CrashImage(db, image)
  {
  }

  // Groups that a sync has brought to the disk are never lost, in either log.
  lemma SyncedWritesSurvive(db: Db, image: Disk, e: Entry)
    requires DbOk(db) && CrashImage(db, image)
    requires db.disk.SyncedOf(db.logFile) <= |LoggedGroups(db)|
    requires e in Flatten(LoggedGroups(db)[..db.disk.SyncedOf(db.logFile)])
      || (db.logNumber < db.logFile && db.disk.SyncedOf(db.logNumber) <= |db.s.immGroups|
          && e in Flatten(db.s.immGroups[..db.disk.SyncedOf(db.logNumber)]))
    ensures e in db.s.flushed + Flatten(Records(image.logs, ReplayNumbersOf(db)))
  {
    hide DbOk, CrashImage, Recoverable, Flatten, Records;
    NewestIsThere(db, image);
    var m, n := OlderKept(db, image), |image.logs[db.logFile]|;
    CrashIsRecoverable(db, image, m, n);
    if e in Flatten(LoggedGroups(db)[..db.disk.SyncedOf(db.logFile)]) {
      PrefixOfGroups(LoggedGroups(db), db.disk.SyncedOf(db.logFile), n);
    } else {
      PrefixOfGroups(db.s.immGroups, db.disk.SyncedOf(db.logNumber), m);
    }
  }

  lemma NewestIsThere(db: Db, image: Disk)
    requires CrashImage(db, image)
    ensures db.logFile in image.logs
  {
  }

  lemma PrefixOfGroups(groups: seq<Run>, i: nat, j: nat)
    requires i <= j <= |groups|
    ensures Flatten(groups[..i]) <= Flatten(groups[..j])
  {
    assert groups[..j] == groups[..i] + groups[i..j];
    FlattenConcat(groups[..i], groups[i..j]);
  }

  // If only the process dies, or the older log was synced to its end before the
  // memtable was switched, what survives is a prefix of the history.
  lemma WholeOlderLogSurvivesAsPrefix(db: Db, image: Disk)
    requires DbOk(db) && CrashImage(db, image) && OlderKept(db, image) == |db.s.immGroups|
    ensures db.s.flushed + Flatten(Records(image.logs, ReplayNumbersOf(db))) <= db.s.History() + db.s.inflight
  {
    hide DbOk, CrashImage, Recoverable, Flatten, Records, LogsOk, HistoryOk;
    NewestIsThere(db, image);
    var m, n := OlderKept(db, image), |image.logs[db.logFile]|;
    CrashIsRecoverable(db, image, m, n);
    OkParts(db);
    SurvivorsArePrefixIff(db, m, n);
    NothingBehind(db.s.immGroups);
  }

  lemma NothingBehind(groups: seq<Run>)
    ensures Flatten(groups[|groups|..]) == []
  {
  }

  // A crash while recovering, before CURRENT names the new MANIFEST, adds
  // tables and empty logs at most. Recovery then finds the same history.
  lemma RecoveryCanBeRepeated(image: Disk, flushed: seq<Entry>, horizon: nat, numbers: seq<nat>, newLog: nat, tables: set<nat>)
    requires Recoverable(image, flushed, horizon, numbers)
    requires newLog !in image.logs && newLog >= LastCounters(image.manifest).value.logNumber
    requires forall n :: n in numbers ==> n < newLog
    ensures var again := image.(logs := image.logs[newLog := []], tables := image.tables + tables);
      && Recoverable(again, flushed, horizon, numbers + [newLog])
      && Records(again.logs, numbers + [newLog]) == Records(image.logs, numbers)
  {
    hide LevelsOk, NumbersOk, IsHistory, Flatten, ApplyEdits, Edits, NeverReAdded, IsReplayOrder;
    var again := image.(logs := image.logs[newLog := []], tables := image.tables + tables);
    ReplayOrderGrows(numbers, image.logs, LastCounters(image.manifest).value.logNumber, newLog);
    SameRecords(image.logs, again.logs, numbers, numbers + [newLog], |numbers|);
    assert RecordsUpTo(again.logs, numbers + [newLog], |numbers| + 1) == Records(image.logs, numbers) + [];
    assert Records(again.logs, numbers + [newLog]) == Records(image.logs, numbers);
    MoreTables(ApplyEdits(NO_FILES, Edits(image.manifest)), image.tables, again.tables);
    assert forall n :: n in numbers ==> n in numbers + [newLog];
  }

  lemma ReplayOrderGrows(numbers: seq<nat>, logs: map<nat, seq<Run>>, logNumber: nat, newLog: nat)
    requires IsReplayOrder(numbers, logs, logNumber) && newLog !in logs && newLog >= logNumber
    requires forall n :: n in numbers ==> n < newLog
    ensures IsReplayOrder(numbers + [newLog], logs[newLog := []], logNumber)
    ensures forall n :: n in numbers ==> RecordsOf(logs, n) == RecordsOf(logs[newLog := []], n)
  {
    assert forall n :: n in numbers + [newLog] <==> n in numbers || n == newLog;
    assert forall i :: 0 <= i < |numbers| ==> numbers[i] in numbers;
  }

  lemma {:induction false} SameRecords(logs: map<nat, seq<Run>>, logs': map<nat, seq<Run>>, numbers: seq<nat>, numbers': seq<nat>, n: nat)
    requires n <= |numbers| <= |numbers'| && numbers == numbers'[..|numbers|]
    requires forall k :: k in numbers ==> RecordsOf(logs, k) == RecordsOf(logs', k)
    ensures RecordsUpTo(logs', numbers', n) == RecordsUpTo(logs, numbers, n)
  {
    if n > 0 {
      SameRecords(logs, logs', numbers, numbers', n - 1);
      assert numbers[n - 1] in numbers && numbers'[n - 1] == numbers[n - 1];
    }
  }

  // ----------------------------------------------------------- whole runs

  datatype Event =
    | Do(a: Action)
    | Sync                         // the leader of a sync write, behind its log record
    | HoldVersion                  // an iterator or a read references the version
    | DropVersion(index: nat)
    | CollectFiles                 // DeleteObsoleteFiles
    | Crash(image: Disk, o: Opened)

  ghost predicate Happens(db: Db, e: Event, db': Db) {
    match e
    case Do(a) => EnabledOnDisk(db, a) && Possible(db.s, a) && db' == PerformOnDisk(db, a)
    case Sync => db.logging && db.logFile in db.disk.logs && db' == SyncLog(db)
    case HoldVersion => db' == db.(held := db.held + [db.s.levels])
    case DropVersion(i) => i < |db.held| && db' == db.(held := db.held[..i] + db.held[i + 1..])
    case CollectFiles => db' == DeleteObsolete(db)
    case Crash(image, o) =>
      && CrashImage(db, image) && LastCounters(image.manifest).Some?
      && IsOpened(image, ReplayNumbersOf(db), o)
      && db' == OpenedDb(image, o, db.s.flushed + Flatten(Records(image.logs, ReplayNumbersOf(db))), db.s.horizon)
  }

  // How the history evolves: publishing appends a group, a crash may cut whole
  // groups off the end of what either log holds behind the synced ones, nothing
  // else changes it.
  ghost predicate HistoryFollows(db: Db, e: Event, db': Db) {
    match e
    case Do(a) => HistoryGrows(db.s, a, db'.s)
    case Crash(image, o) =>
      exists m, n :: IsCut(db, m, n) && db'.s.History() == Surviving(db, m, n)
    case _ => db'.s.History() == db.s.History()
  }

  ghost predicate IsCut(db: Db, m: nat, n: nat) {
    && m <= |db.s.immGroups| && db.disk.SyncedOf(db.logFile) <= n <= |LoggedGroups(db)|
    && (db.logNumber < db.logFile ==> db.disk.SyncedOf(db.logNumber) <= m)
  }

  lemma CrashStep(db: Db, image: Disk, o: Opened, db': Db)
    requires DbOk(db) && Happens(db, Crash(image, o), db')
    ensures DbOk(db') && HistoryFollows(db, Crash(image, o), db')
  {
    hide DbOk, Recoverable, IsOpened, CrashImage, Surviving, Flatten, Records;
    NewestIsThere(db, image);
    var m, n := OlderKept(db, image), |image.logs[db.logFile]|;
    CrashIsRecoverable(db, image, m, n);
    OpenedIsOk(image, db.s.flushed, db.s.horizon, ReplayNumbersOf(db), o);
    assert IsCut(db, m, n);
  }

  lemma HoldStep(db: Db, e: Event, db': Db)
    requires DbOk(db) && Happens(db, e, db') && (e.HoldVersion? || e.DropVersion?)
    ensures DbOk(db') && HistoryFollows(db, e, db')
  {
  }

  lemma EventKeepsOk(db: Db, e: Event, db': Db)
    requires DbOk(db) && Happens(db, e, db')
    ensures DbOk(db') && HistoryFollows(db, e, db')
  {
    hide DbOk;
    match e
    case Do(a) => StepOnDiskKeepsOk(db, a);
    case Sync => SyncKeepsOk(db);
    case HoldVersion => HoldStep(db, e, db');
    case DropVersion(i) => HoldStep(db, e, db');
    case CollectFiles => DeleteObsoleteKeepsOk(db);
    case Crash(image, o) => CrashStep(db, image, o, db');
  }

  ghost predicate HappensAll(db: Db, events: seq<Event>, states: seq<Db>) {
    && |states| == |events| + 1 && states[0] == db
    && forall i :: 0 <= i < |events| ==> Happens(states[i], events[i], states[i + 1])
  }

  lemma {:induction false} RunKeepsOk(db: Db, events: seq<Event>, states: seq<Db>, i: nat)
    requires DbOk(db) && HappensAll(db, events, states) && i < |states|
    ensures DbOk(states[i]) && (i > 0 ==> HistoryFollows(states[i - 1], events[i - 1], states[i]))
  {
    hide DbOk, Happens, HistoryFollows;
    if i > 0 {
      RunKeepsOk(db, events, states, i - 1);
      EventKeepsOk(states[i - 1], events[i - 1], states[i - 1 + 1]);
    }
  }

  // --------------------------------------------------------- a new database

  // DBImpl::NewDB: one MANIFEST record, no log, no table.
  function NewDbImage(): Disk {
    Disk(map[], map[], [ManifestRecord(VersionEdit({}, []), Some(Counters(0, 2, 0)))], {})
  }

  lemma NewDbIsRecoverable()
    ensures Recoverable(NewDbImage(), [], 0, [])
  {
    var image := NewDbImage();
    NoFilesIsOk();
    EmptyEditIsNoChange(NO_FILES);
    assert Edits(image.manifest) == [VersionEdit({}, [])];
    assert ApplyEdits(NO_FILES, Edits(image.manifest)) == NO_FILES;
    assert Flatten(Records(image.logs, [])) == [];
    forall l: nat | l < NUM_LEVELS ensures NeverReAdded([], Edits(image.manifest), l) {
    }
  }

  // The main theorem: start from a new database, let anything happen, any
  // number of crashes included. Get then reads the surviving history.
  lemma GetIsRightAcrossCrashes(o: Opened, events: seq<Event>, states: seq<Db>, k: UserKey, sn: nat)
    requires IsOpened(NewDbImage(), [], o)
    requires HappensAll(OpenedDb(NewDbImage(), o, [], 0), events, states)
    requires var s := states[|events|].s; sn == s.lastSequence || sn in s.snapshots
    ensures var s := states[|events|].s; DbGet(s.mem, s.imm, s.levels, k, sn) == Read(s.History(), k, sn)
  {
    hide Recoverable, IsOpened, Happens, DbOk, Inv;
    NewDbIsRecoverable();
    NewDbIsOk(o);
    RunKeepsOk(OpenedDb(NewDbImage(), o, [], 0), events, states, |events|);
    StateIsSafe(states[|events|]);
    ReadsAreRight(states[|events|].s, k, sn);
  }

  lemma NewDbIsOk(o: Opened)
    requires Recoverable(NewDbImage(), [], 0, []) && IsOpened(NewDbImage(), [], o)
    ensures DbOk(OpenedDb(NewDbImage(), o, [], 0))
  {
    hide Recoverable, IsOpened, DbOk;
    OpenedIsOk(NewDbImage(), [], 0, [], o);
    assert Flatten(Records(NewDbImage().logs, [])) == [];
    assert [] + Flatten(Records(NewDbImage().logs, [])) == [];
  }

  lemma StateIsSafe(db: Db)
    requires DbOk(db)
    ensures Inv(db.s)
  {
  }

  lemma ReadsAreRight(s: State, k: UserKey, sn: nat)
    requires Inv(s) && (sn == s.lastSequence || sn in s.snapshots)
    ensures DbGet(s.mem, s.imm, s.levels, k, sn) == Read(s.History(), k, sn)
  {
    if sn in s.snapshots {
      var i :| 0 <= i < |s.snapshots| && s.snapshots[i] == sn;
    }
    GetReadsHistory(s, k, sn);
  }
}
