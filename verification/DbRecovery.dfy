// Opening a database: replay the MANIFEST, then every log from the recorded
// number on, and start a fresh log and MANIFEST.

module DbRecovery {
  import opened Wrappers
  import opened Entries
  import opened Files
  import opened VersionBuilder
  import opened CompactionWork
  import opened LevelEdits
  import opened DbState
  import opened DbLevels
  import opened DbCompaction
  import opened DbMachine
  import opened DbDisk

  // ------------------------------------------------------ replaying the logs

  // Tables built while replaying: together they hold the replayed entries,
  // each table is newer than the one before, and their numbers are fresh.
  ghost predicate BuiltBefore(f: File, g: File) {
    f.number < g.number && forall x, y :: x in f.entries && y in g.entries ==> x.sn < y.sn
  }

  ghost predicate TablesHold(files: seq<File>, es: seq<Entry>, first: nat, next: nat) {
    && (forall f :: f in files ==> first <= f.number < next && Sorted(f.entries))
    && (forall i, j :: 0 <= i < j < |files| ==> BuiltBefore(files[i], files[j]))
    && FileEntries(files) == ToSet(es)
  }

  // A memtable that holds a stretch of the history.
  ghost predicate MemHolds(mem: Run, es: seq<Entry>) {
    Sorted(mem) && ToSet(mem) == ToSet(es)
  }

  // WriteBatchInternal::InsertInto: the batch's entries, one by one.
  method InsertInto(group: Run, mem: Run, ghost es: seq<Entry>) returns (after: Run)
    requires IsHistory(es + group) && MemHolds(mem, es)
    ensures MemHolds(after, es + group)
  {
    after := mem;
    var i := 0;
    assert es + group[..0] == es;
    while i < |group|
      invariant i <= |group| && MemHolds(after, es + group[..i])
    {
      InsertNewest(es, group, i, after);
      after := Insert(after, group[i]);
      i := i + 1;
    }
    assert group[..i] == group;
  }

  lemma InsertNewest(es: seq<Entry>, group: Run, i: nat, mem: Run)
    requires IsHistory(es + group) && i < |group| && MemHolds(mem, es + group[..i])
    ensures MemHolds(Insert(mem, group[i]), es + group[..i + 1])
  {
    var all := es + group;
    forall x | x in mem ensures x.sn < group[i].sn {
      assert x in ToSet(mem) && x in es + group[..i];
      var j :| 0 <= j < |es| + i && (es + group[..i])[j] == x;
      assert all[j] == x && all[|es| + i] == group[i];
    }
    InsertKeepsSorted(mem, group[i]);
    assert group[..i + 1] == group[..i] + [group[i]];
  }

  lemma AppendTable(files: seq<File>, es: seq<Entry>, first: nat, next: nat, f: File, more: seq<Entry>)
    requires TablesHold(files, es, first, next) && IsHistory(es + more) && first <= next
    requires f.number == next && MemHolds(f.entries, more)
    ensures TablesHold(files + [f], es + more, first, next + 1)
  {
    PartsOfHistory(es, more);
    forall g | g in files ensures BuiltBefore(g, f) {
      forall x, y | x in g.entries && y in f.entries ensures x.sn < y.sn {
        assert x in FileEntries(files) && y in ToSet(f.entries);
      }
    }
    AppendedEntries(files, f);
    assert ToSet(es + more) == ToSet(es) + ToSet(more);
  }

  lemma AppendedEntries(files: seq<File>, f: File)
    ensures FileEntries(files + [f]) == FileEntries(files) + ToSet(f.entries)
  {
    forall e ensures e in FileEntries(files + [f]) <==> e in FileEntries(files) || e in f.entries {
    }
  }

  // WriteLevel0Table without a base version: level 0, and no table at all for
  // an empty memtable.
  method WriteLevel0Table(mem: Run, files: seq<File>, next: nat, ghost first: nat, ghost es: seq<Entry>, ghost more: seq<Entry>)
    returns (files': seq<File>, next': nat)
    requires TablesHold(files, es, first, next) && IsHistory(es + more) && first <= next && MemHolds(mem, more)
    ensures TablesHold(files', es + more, first, next') && next' == next + 1
  {
    next' := next + 1;
    if |mem| > 0 {
      var size: nat :| true;
      var f := FileMeta(next, size, mem);
      assert |f.entries| > 0;
      AppendTable(files, es, first, next, f, more);
      files' := files + [f];
    } else {
      assert forall e :: e in more ==> e in ToSet(more);
      NoEntries(more);
      assert es + more == es;
      files' := files;
    }
  }

  // The largest sequence number seen, starting from a given one.
  ghost predicate IsLargest(m: nat, es: seq<Entry>, start: nat) {
    && start <= m && (forall e :: e in es ==> e.sn <= m)
    && (m == start || exists e :: e in es && e.sn == m)
  }

  lemma LargestGrows(m: nat, es: seq<Entry>, start: nat, group: Run)
    requires IsLargest(m, es, start) && IsHistory(group)
    ensures var grows := |group| > 0 && group[|group| - 1].sn > m;
      IsLargest(if grows then group[|group| - 1].sn else m, es + group, start)
  {
    assert |group| > 0 ==> group[|group| - 1] in es + group;
  }

  // RecoverLogFile: insert every record into a memtable, dump it whenever it
  // has grown too big and once more at the end.
  method RecoverLogFile(records: seq<Run>, files: seq<File>, next: nat, maxSequence: nat, ghost first: nat, ghost es: seq<Entry>)
    returns (files': seq<File>, next': nat, maxSequence': nat)
    requires TablesHold(files, es, first, next) && first <= next && IsHistory(es + Flatten(records))
    ensures TablesHold(files', es + Flatten(records), first, next') && next <= next'
    ensures IsLargest(maxSequence', Flatten(records), maxSequence)
  {
    files', next', maxSequence' := files, next, maxSequence;
    var mem: Option<Run> := None;
    ghost var done, current, read := es, [], [];
    var i := 0;
    while i < |records|
      invariant i <= |records| && first <= next <= next'
      invariant read == Flatten(records[..i]) && done + current == es + read
      invariant TablesHold(files', done, first, next')
      invariant mem == None ==> current == []
      invariant mem.Some? ==> MemHolds(mem.value, current)
      invariant IsLargest(maxSequence', read, maxSequence)
    {
      FlattenStep(records, i);
      NextRecord(es, done, current, read, records[i], Flatten(records[i + 1..]));
      LargestGrows(maxSequence', read, maxSequence, records[i]);
      read := read + records[i];
      if mem == None { mem := Some([]); }
      var grown := InsertInto(records[i], mem.value, current);
      mem := Some(grown);
      current := current + records[i];
      if |records[i]| > 0 && records[i][|records[i]| - 1].sn > maxSequence' {
        maxSequence' := records[i][|records[i]| - 1].sn;
      }
      var tooBig: bool := *;
      if tooBig {
        files', next' := WriteLevel0Table(mem.value, files', next', first, done, current);
        done, current := done + current, [];
        mem := None;
      }
      i := i + 1;
    }
    assert records[..i] == records;
    if mem.Some? {
      files', next' := WriteLevel0Table(mem.value, files', next', first, done, current);
    } else {
      assert done + current == done;
    }
  }

  lemma Regroup(a: seq<Entry>, b: seq<Entry>, c: seq<Entry>)
    ensures a + (b + c) == (a + b) + c
  {
  }

  lemma FlattenStep(records: seq<Run>, i: nat)
    requires i < |records|
    ensures Flatten(records[..i + 1]) == Flatten(records[..i]) + records[i]
    ensures Flatten(records) == (Flatten(records[..i]) + records[i]) + Flatten(records[i + 1..])
  {
    assert records[..i + 1] == records[..i] + [records[i]];
    FlattenSnoc(records[..i], records[i]);
    assert records == records[..i + 1] + records[i + 1..];
    FlattenConcat(records[..i + 1], records[i + 1..]);
  }

  lemma NextRecord(es: seq<Entry>, done: seq<Entry>, current: seq<Entry>, read: seq<Entry>, r: Run, rest: seq<Entry>)
    requires IsHistory(es + ((read + r) + rest)) && done + current == es + read
    ensures done + (current + r) == es + (read + r)
    ensures IsHistory(done + (current + r)) && IsHistory(current + r) && IsHistory(r)
  {
    Regroup(done, current, r);
    Regroup(es, read, r);
    Regroup(es, read + r, rest);
    PartsOfHistory(done + (current + r), rest);
    PartsOfHistory(done, current + r);
    PartsOfHistory(current, r);
  }

  // ------------------------------------------------- replaying the MANIFEST

  lemma {:induction false} EditsOfRecord(manifest: seq<ManifestRecord>, i: nat)
    requires i < |manifest|
    ensures Edits(manifest[..i + 1]) == Edits(manifest[..i]) + [manifest[i].edit]
    ensures LastCounters(manifest[..i + 1]) == if manifest[i].counters.Some? then manifest[i].counters else LastCounters(manifest[..i])
  {
    assert manifest[..i + 1][..i] == manifest[..i];
  }

  // The version all recorded edits build together.
  function RecordedVersion(manifest: seq<ManifestRecord>): Levels {
    seq(NUM_LEVELS, l requires 0 <= l < NUM_LEVELS => Saved(NO_FILES[l], ApplyAllAt(Edits(manifest), l)))
  }

  // VersionSet::Recover: all edits through one builder, the last counters win.
  method RecoverManifest(manifest: seq<ManifestRecord>) returns (levels: Levels, counters: Option<Counters>)
    requires forall r :: r in manifest ==> EditInRange(r.edit)
    ensures counters == LastCounters(manifest) && levels == RecordedVersion(manifest)
  {
    var builder := new Builder(NO_FILES);
    counters := None;
    var i := 0;
    while i < |manifest|
      invariant i <= |manifest| && builder.Valid()
      invariant counters == LastCounters(manifest[..i])
      invariant forall l :: 0 <= l < NUM_LEVELS ==> builder.levels[l] == ApplyAllAt(Edits(manifest[..i]), l)
    {
      EditsOfRecord(manifest, i);
      assert manifest[i] in manifest && EditInRange(manifest[i].edit);
      ghost var before := Edits(manifest[..i]);
      builder.Apply(manifest[i].edit);
      assert (before + [manifest[i].edit])[..|before|] == before;
      if manifest[i].counters.Some? { counters := manifest[i].counters; }
      i := i + 1;
    }
    assert manifest[..i] == manifest;
    levels := builder.SaveTo();
  }

  // --------------------------------------------------------- which logs

  ghost predicate IsReplayOrder(numbers: seq<nat>, logs: map<nat, seq<Run>>, logNumber: nat) {
    && (forall i, j :: 0 <= i < j < |numbers| ==> numbers[i] < numbers[j])
    && (forall n :: n in numbers <==> n in logs && n >= logNumber)
  }

  lemma SmallestOf(numbers: set<nat>) returns (n: nat)
    requires numbers != {}
    ensures n in numbers && forall m :: m in numbers ==> n <= m
  {
    var pick :| pick in numbers;
    var rest := numbers - {pick};
    assert forall x :: x in numbers ==> x == pick || x in rest;
    if rest == {} {
      n := pick;
    } else {
      var m := SmallestOf(rest);
      n := if m < pick then m else pick;
    }
  }

  // The logs not yet covered by table files, sorted by number.
  method SortLogs(logs: map<nat, seq<Run>>, logNumber: nat) returns (numbers: seq<nat>)
    ensures IsReplayOrder(numbers, logs, logNumber)
  {
    numbers := [];
    var rest := set n | n in logs && n >= logNumber;
    while rest != {}
      invariant forall n :: n in logs && n >= logNumber <==> n in numbers || n in rest
      invariant forall n, m :: n in numbers && m in rest ==> n < m
      invariant forall i, j :: 0 <= i < j < |numbers| ==> numbers[i] < numbers[j]
      decreases |rest|
    {
      ghost var least := SmallestOf(rest);
      var n :| n in rest && forall m :: m in rest ==> n <= m;
      assert forall i :: 0 <= i < |numbers| ==> numbers[i] in numbers;
      numbers := numbers + [n];
      rest := rest - {n};
    }
  }

  function RecordsOf(logs: map<nat, seq<Run>>, number: nat): seq<Run> {
    if number in logs then logs[number] else []
  }

  // The records of the first n logs.
  function RecordsUpTo(logs: map<nat, seq<Run>>, numbers: seq<nat>, n: nat): seq<Run>
    requires n <= |numbers|
  {
    if n == 0 then [] else RecordsUpTo(logs, numbers, n - 1) + RecordsOf(logs, numbers[n - 1])
  }

  function Records(logs: map<nat, seq<Run>>, numbers: seq<nat>): seq<Run> {
    RecordsUpTo(logs, numbers, |numbers|)
  }

  lemma {:induction false} AscendingIsUnique(a: seq<nat>, b: seq<nat>)
    requires forall i, j :: 0 <= i < j < |a| ==> a[i] < a[j]
    requires forall i, j :: 0 <= i < j < |b| ==> b[i] < b[j]
    requires forall n :: n in a <==> n in b
    ensures a == b
  {
    assert |a| > 0 ==> a[0] in b;
    assert |b| > 0 ==> b[0] in a;
    if |a| > 0 {
      assert a[0] == b[0];
      assert a == [a[0]] + a[1..] && b == [b[0]] + b[1..];
      forall n ensures n in a[1..] <==> n in b[1..] {
        assert n in a[1..] <==> n in a && n != a[0];
        assert n in b[1..] <==> n in b && n != b[0];
      }
      AscendingIsUnique(a[1..], b[1..]);
    }
  }

  // -------------------------------------------------------- opening

  // A disk image whose records and files recovery can read without error.
  ghost predicate Replayable(image: Disk, numbers: seq<nat>) {
    && LastCounters(image.manifest).Some?
    && IsReplayOrder(numbers, image.logs, LastCounters(image.manifest).value.logNumber)
    && (forall e :: e in Edits(image.manifest) ==> EditInRange(e))
    && (forall l :: 0 <= l < NUM_LEVELS ==> NeverReAdded([], Edits(image.manifest), l))
    && VersionNumbersIn(ApplyEdits(NO_FILES, Edits(image.manifest)), image.tables)
    && IsHistory(Flatten(Records(image.logs, numbers)))
  }

  // It describes a good version that answers for the flushed history, and its
  // logs continue that history.
  ghost predicate Recoverable(image: Disk, flushed: seq<Entry>, horizon: nat, numbers: seq<nat>) {
    && Replayable(image, numbers)
    && var c := LastCounters(image.manifest).value;
    && var levels := ApplyEdits(NO_FILES, Edits(image.manifest));
    && (c.logNumber <= c.nextFile || c.logNumber in numbers)
    && LevelsOk(levels, flushed, horizon) && NumbersOk(levels, c.nextFile, {})
    && horizon <= c.lastSequence < MAX_SEQUENCE_NUMBER && (forall e :: e in flushed ==> e.sn <= c.lastSequence)
    && IsHistory(flushed + Flatten(Records(image.logs, numbers)))
    && forall e :: e in Flatten(Records(image.logs, numbers)) ==> e.sn < MAX_SEQUENCE_NUMBER
  }

  // What recovery hands to the running database.
  datatype Opened = Opened(
    levels: Levels,           // the version the MANIFEST describes
    files: seq<File>,         // level-0 tables built from the logs
    logNumber: nat,           // the fresh log
    lastSequence: nat)

  ghost predicate IsOpened(image: Disk, numbers: seq<nat>, o: Opened)
    requires LastCounters(image.manifest).Some?
  {
    var c, records := LastCounters(image.manifest).value, Records(image.logs, numbers);
    && o.levels == ApplyEdits(NO_FILES, Edits(image.manifest))
    && TablesHold(o.files, Flatten(records), c.nextFile + 1, o.logNumber)
    && c.nextFile < o.logNumber && (forall n :: n in numbers ==> n < o.logNumber)
    && IsLargest(o.lastSequence, Flatten(records), c.lastSequence)
  }

  // The i-th log; the file counter is raised past its number.
  method RecoverLog(logs: map<nat, seq<Run>>, numbers: seq<nat>, i: nat, files: seq<File>, next: nat, maxSequence: nat,
                    ghost first: nat, ghost start: nat)
    returns (files': seq<File>, next': nat, maxSequence': nat)
    requires i < |numbers| && IsHistory(Flatten(Records(logs, numbers))) && first <= next
    requires TablesHold(files, Flatten(RecordsUpTo(logs, numbers, i)), first, next)
    requires IsLargest(maxSequence, Flatten(RecordsUpTo(logs, numbers, i)), start)
    ensures first <= next' && numbers[i] < next'
    ensures TablesHold(files', Flatten(RecordsUpTo(logs, numbers, i + 1)), first, next')
    ensures IsLargest(maxSequence', Flatten(RecordsUpTo(logs, numbers, i + 1)), start)
  {
    NextLog(logs, numbers, i);
    ghost var read, all := Flatten(RecordsUpTo(logs, numbers, i)), Flatten(RecordsUpTo(logs, numbers, i + 1));
    var records := RecordsOf(logs, numbers[i]);
    files', next', maxSequence' := RecoverLogFile(records, files, next, maxSequence, first, read);
    LargestOfBoth(maxSequence, read, start, maxSequence', Flatten(records));
    if next' <= numbers[i] {
      TablesStayHeld(files', all, first, next', numbers[i] + 1);
      next' := numbers[i] + 1;
    }
  }

  // All logs, oldest first.
  method RecoverLogs(logs: map<nat, seq<Run>>, numbers: seq<nat>, first: nat, lastSequence: nat)
    returns (files: seq<File>, next: nat, maxSequence: nat)
    requires IsHistory(Flatten(Records(logs, numbers)))
    ensures TablesHold(files, Flatten(Records(logs, numbers)), first, next) && first <= next
    ensures |numbers| > 0 ==> numbers[|numbers| - 1] < next
    ensures IsLargest(maxSequence, Flatten(Records(logs, numbers)), lastSequence)
  {
    hide TablesHold, IsLargest;
    files, next, maxSequence := [], first, lastSequence;
    NothingHeld(first, lastSequence);
    var i := 0;
    while i < |numbers|
      invariant i <= |numbers| && first <= next && (i > 0 ==> numbers[i - 1] < next)
      invariant TablesHold(files, Flatten(RecordsUpTo(logs, numbers, i)), first, next)
      invariant IsLargest(maxSequence, Flatten(RecordsUpTo(logs, numbers, i)), lastSequence)
    {
      files, next, maxSequence := RecoverLog(logs, numbers, i, files, next, maxSequence, first, lastSequence);
      i := i + 1;
    }
  }

  lemma NothingHeld(first: nat, start: nat)
    ensures TablesHold([], [], first, first) && IsLargest(start, [], start)
  {
  }

  lemma TablesStayHeld(files: seq<File>, es: seq<Entry>, first: nat, next: nat, later: nat)
    requires TablesHold(files, es, first, next) && next <= later
    ensures TablesHold(files, es, first, later)
  {
  }

  lemma NextLog(logs: map<nat, seq<Run>>, numbers: seq<nat>, i: nat)
    requires i < |numbers| && IsHistory(Flatten(Records(logs, numbers)))
    ensures Flatten(RecordsUpTo(logs, numbers, i + 1)) == Flatten(RecordsUpTo(logs, numbers, i)) + Flatten(RecordsOf(logs, numbers[i]))
    ensures IsHistory(Flatten(RecordsUpTo(logs, numbers, i + 1)))
  {
    FlattenConcat(RecordsUpTo(logs, numbers, i), RecordsOf(logs, numbers[i]));
    HistoryUpTo(logs, numbers, i + 1);
  }

  lemma LargestOfBoth(m: nat, a: seq<Entry>, start: nat, m': nat, b: seq<Entry>)
    requires IsLargest(m, a, start) && IsLargest(m', b, m)
    ensures IsLargest(m', a + b, start)
  {
    if m' != m {
      var e :| e in b && e.sn == m';
      assert e in a + b;
    } else if m != start {
      var e :| e in a && e.sn == m;
      assert e in a + b;
    }
  }

  lemma {:induction false} HistoryUpTo(logs: map<nat, seq<Run>>, numbers: seq<nat>, i: nat)
    requires i <= |numbers| && IsHistory(Flatten(Records(logs, numbers)))
    ensures IsHistory(Flatten(RecordsUpTo(logs, numbers, i)))
    decreases |numbers| - i
  {
    if i < |numbers| {
      HistoryUpTo(logs, numbers, i + 1);
      FlattenConcat(RecordsUpTo(logs, numbers, i), RecordsOf(logs, numbers[i]));
      PartsOfHistory(Flatten(RecordsUpTo(logs, numbers, i)), Flatten(RecordsOf(logs, numbers[i])));
    }
  }

  // It is the version the running database had reached edit by edit.
  lemma ReplayedVersion(manifest: seq<ManifestRecord>)
    requires forall l :: 0 <= l < NUM_LEVELS ==> NeverReAdded([], Edits(manifest), l)
    ensures RecordedVersion(manifest) == ApplyEdits(NO_FILES, Edits(manifest))
  {
    assert forall l :: 0 <= l < NUM_LEVELS ==> NO_FILES[l] == [];
    ReplayEqualsStepwise(NO_FILES, Edits(manifest));
  }

  method MissingTable(levels: Levels, tables: set<nat>) returns (missing: bool)
    ensures missing <==> !VersionNumbersIn(levels, tables)
  {
    var expected := set l, f | 0 <= l < NUM_LEVELS && f in levels[l] :: f.number;
    missing := !(expected <= tables);
    if VersionNumbersIn(levels, tables) {
      assert forall n :: n in expected ==> n in tables;
    } else {
      var l, f :| 0 <= l < NUM_LEVELS && f in levels[l] && f.number !in tables;
      assert f.number in expected;
    }
  }

  // VersionSet::Recover and the check for missing files. It fails exactly when
  // no record carries counters or a table of the version is gone.
  method RecoverVersion(image: Disk) returns (r: Option<(Levels, Counters)>)
    requires forall e :: e in image.manifest ==> EditInRange(e.edit)
    ensures r == None <==> LastCounters(image.manifest) == None || !VersionNumbersIn(RecordedVersion(image.manifest), image.tables)
    ensures r.Some? ==> r.value == (RecordedVersion(image.manifest), LastCounters(image.manifest).value)
  {
    var levels, counters := RecoverManifest(image.manifest);
    if counters == None { return None; }
    var missing := MissingTable(levels, image.tables);
    if missing { return None; }
    r := Some((levels, counters.value));
  }

  lemma EditsAreRecords(manifest: seq<ManifestRecord>)
    requires forall e :: e in Edits(manifest) ==> EditInRange(e)
    ensures forall r :: r in manifest ==> EditInRange(r.edit)
  {
    if |manifest| > 0 {
      var front, last := manifest[..|manifest| - 1], manifest[|manifest| - 1];
      assert Edits(manifest) == Edits(front) + [last.edit];
      EditsAreRecords(front);
      assert forall r :: r in manifest <==> r in front || r == last;
    }
  }

  // DBImpl::Recover and DB::Open, up to the first LogAndApply.
  method Recover(image: Disk, ghost numbers: seq<nat>) returns (r: Option<Opened>)
    requires Replayable(image, numbers)
    ensures r.Some? && IsOpened(image, numbers, r.value)
  {
    EditsAreRecords(image.manifest);
    ReplayedVersion(image.manifest);
    var v := RecoverVersion(image);
    if v == None { return None; }
    var (levels, c) := v.value;
    var logs := SortLogs(image.logs, c.logNumber);
    AscendingIsUnique(logs, numbers);
    var files, next, lastSequence := RecoverLogs(image.logs, logs, c.nextFile + 1, c.lastSequence);
    r := Some(Opened(levels, files, next, lastSequence));
    assert forall n :: n in logs ==> n <= logs[|logs| - 1];
  }

  // ------------------------------------------------- what opening restores

  // WriteSnapshot: all files of a version as one edit.
  function AllFiles(levels: Levels, n: nat): seq<(nat, File)>
    requires n <= NUM_LEVELS
  {
    if n == 0 then [] else AllFiles(levels, n - 1) + NewFiles(n - 1, levels[n - 1])
  }

  function SnapshotEdit(levels: Levels): VersionEdit {
    VersionEdit({}, AllFiles(levels, NUM_LEVELS))
  }

  method WriteSnapshot(levels: Levels) returns (edit: VersionEdit)
    ensures edit == SnapshotEdit(levels)
  {
    var newFiles: seq<(nat, File)> := [];
    var level := 0;
    while level < NUM_LEVELS
      invariant level <= NUM_LEVELS && newFiles == AllFiles(levels, level)
    {
      var i := 0;
      while i < |levels[level]|
        invariant i <= |levels[level]|
        invariant newFiles == AllFiles(levels, level) + NewFiles(level, levels[level][..i])
      {
        NewFilesLength(level, levels[level][..i + 1]);
        assert levels[level][..i + 1][..i] == levels[level][..i];
        newFiles := newFiles + [(level, levels[level][i])];
        i := i + 1;
      }
      assert levels[level][..i] == levels[level];
      level := level + 1;
    }
    edit := VersionEdit({}, newFiles);
  }

  lemma {:induction false} AddedAtConcat(a: seq<(nat, File)>, b: seq<(nat, File)>, l: nat)
    ensures AddedAt(a + b, l) == AddedAt(a, l) + AddedAt(b, l)
  {
    if |b| == 0 {
      assert a + b == a;
    } else {
      var front := b[..|b| - 1];
      assert (a + b)[..|a + b| - 1] == a + front;
      AddedAtConcat(a, front, l);
    }
  }

  lemma {:induction false} AllFilesAt(levels: Levels, n: nat, l: nat)
    requires n <= NUM_LEVELS && l < NUM_LEVELS
    ensures AddedAt(AllFiles(levels, n), l) == if l < n then levels[l] else []
  {
    if n > 0 {
      var m := n - 1;
      AllFilesAt(levels, m, l);
      AddedAtConcat(AllFiles(levels, m), NewFiles(m, levels[m]), l);
      NewFilesAt(m, levels[m], l);
    }
  }

  lemma {:induction false} AllFilesInRange(levels: Levels, n: nat)
    requires n <= NUM_LEVELS
    ensures forall f :: f in AllFiles(levels, n) ==> f.0 < NUM_LEVELS
  {
    if n > 0 {
      AllFilesInRange(levels, n - 1);
      NewFilesInRange(n - 1, levels[n - 1]);
    }
  }

  lemma NoEditsRecorded(nextFile: nat)
    ensures RecordsOk(NO_FILES, [], nextFile, {})
  {
    assert forall l :: 0 <= l < NUM_LEVELS ==> NO_FILES[l] == [];
    assert forall l: nat :: UsedAt([], [], l) == {};
  }

  // The snapshot edit restates the version, level by level.
  ghost predicate Restates(edit: VersionEdit, levels: Levels) {
    && EditInRange(edit)
    && forall l: nat :: l < NUM_LEVELS ==>
      DeletedAt(edit, l) == {} && AddedAt(edit.newFiles, l) == levels[l] && DistinctNumbers(levels[l]) && Ordered(levels[l])
  }

  lemma SnapshotRestates(levels: Levels)
    requires WellFormed(levels) && Ordered(levels[0]) && NumbersUnique(levels)
    ensures Restates(SnapshotEdit(levels), levels)
  {
    var edit := SnapshotEdit(levels);
    AllFilesInRange(levels, NUM_LEVELS);
    forall l: nat | l < NUM_LEVELS
      ensures DeletedAt(edit, l) == {} && AddedAt(edit.newFiles, l) == levels[l] && DistinctNumbers(levels[l]) && Ordered(levels[l])
    {
      AllFilesAt(levels, NUM_LEVELS, l);
      if l > 0 { SortedIsOrdered(levels[l]); }
      assert NumbersUniqueIn(levels, l, l);
      OrderedIsDistinct(levels[l]);
    }
  }

  // The snapshot record alone rebuilds the version.
  lemma SnapshotRebuildsVersion(levels: Levels, edit: VersionEdit, nextFile: nat)
    requires Restates(edit, levels) && NumbersOk(levels, nextFile, {})
    ensures ApplyEdit(NO_FILES, edit) == levels && RecordsOk(levels, [edit], nextFile, {})
  {
    SnapshotEdits(levels, edit);
    NoEditsRecorded(nextFile);
    assert ApplyEdits(NO_FILES, [edit]) == ApplyEdit(NO_FILES, edit);
    forall l: nat | l < NUM_LEVELS ensures EditNumbers(NO_FILES[l], edit, [], l, levels) {
      assert UsedAt([], [], l) == {};
    }
    RecordsGrow(NO_FILES, levels, [], edit, NO_FILES, levels, nextFile, {}, nextFile, {});
    assert [] + [edit] == [edit];
  }

  lemma SnapshotEdits(levels: Levels, edit: VersionEdit)
    requires Restates(edit, levels)
    ensures ApplyEdit(NO_FILES, edit) == levels && Edited(NO_FILES, levels, NO_FILES, levels)
  {
    var after := ApplyEdit(NO_FILES, edit);
    forall l: nat | l < NUM_LEVELS ensures after[l] == levels[l] && LevelEdit(NO_FILES[l], levels[l], NO_FILES[l], levels[l]) {
      assert NO_FILES[l] == [];
      EditedLevel(NO_FILES, edit, l);
      OrderedListsWithSameMembers(after[l], levels[l]);
    }
  }

  // The edit DB::Open logs: the replayed tables, all at level 0.
  function ReplayEdit(files: seq<File>): VersionEdit {
    VersionEdit({}, NewFiles(0, files))
  }

  lemma ReplayIsEdit(levels: Levels, files: seq<File>, es: seq<Entry>, nextFile: nat, next: nat)
    requires WellFormed(levels) && Ordered(levels[0]) && NumbersOk(levels, nextFile, {})
    requires TablesHold(files, es, nextFile + 1, next)
    ensures Edited(levels, ApplyEdit(levels, ReplayEdit(files)), NO_FILES, Added(0, files))
    ensures DistinctNumbers(files)
  {
    var edit := ReplayEdit(files);
    assert forall i, j :: 0 <= i < j < |files| ==> BuiltBefore(files[i], files[j]);
    forall l: nat | l < NUM_LEVELS ensures EditAt(levels[l], edit, l, NO_FILES[l], Added(0, files)[l]) {
      NewFilesAt(0, files, l);
      assert DeletedAt(edit, l) == {};
      assert NumbersBelow(levels[l], nextFile, {});
    }
    ApplyEditEdits(levels, edit, NO_FILES, Added(0, files));
  }

  // Files already in the version are older than replayed entries.
  lemma ReplayedIsNewer(levels: Levels, flushed: seq<Entry>, es: seq<Entry>, f: File, l: nat, g: File)
    requires l < NUM_LEVELS && g in levels[l] && Contents(levels) <= ToSet(flushed) && IsHistory(flushed + es)
    requires forall x :: x in f.entries ==> x in ToSet(es)
    ensures Newer(f.entries, g.entries)
  {
    PartsOfHistory(flushed, es);
    forall x, y | x in f.entries && y in g.entries ensures x.sn > y.sn {
      assert y in FileEntries(levels[l]);
      assert y in Contents(levels);
    }
  }

  lemma TablesByAge(files: seq<File>, es: seq<Entry>, first: nat, next: nat, f: File, g: File)
    requires TablesHold(files, es, first, next) && f in files && g in files
    ensures f.number > g.number ==> Newer(f.entries, g.entries)
    ensures f.number == g.number ==> f == g
  {
    var i :| 0 <= i < |files| && files[i] == f;
    var j :| 0 <= j < |files| && files[j] == g;
    assert i < j ==> BuiltBefore(f, g);
    assert j < i ==> BuiltBefore(g, f);
  }

  lemma ReplayedFits(levels: Levels, after: Levels, flushed: seq<Entry>, es: seq<Entry>, files: seq<File>, nextFile: nat, next: nat,
                     f: File)
    requires NumbersOk(levels, nextFile, {}) && Contents(levels) <= ToSet(flushed) && IsHistory(flushed + es)
    requires TablesHold(files, es, nextFile + 1, next) && f in files
    requires Edited(levels, after, NO_FILES, Added(0, files))
    ensures FitsAt(after, 0, f)
  {
    assert forall x :: x in f.entries ==> x in FileEntries(files);
    forall l: nat, g | l < NUM_LEVELS && g in after[l]
      ensures g in levels[l] ==> Newer(f.entries, g.entries) && g.number < f.number
      ensures g in levels[l] || (l == 0 && g in files)
    {
      assert LevelEdit(levels[l], after[l], NO_FILES[l], Added(0, files)[l]);
      if g in levels[l] {
        ReplayedIsNewer(levels, flushed, es, f, l, g);
        assert NumbersBelow(levels[l], nextFile, {});
      }
    }
    forall g | g in after[0] && g != f ensures FitsBeside(0, f, g) {
      if g !in levels[0] {
        TablesByAge(files, es, nextFile + 1, next, f, g);
        TablesByAge(files, es, nextFile + 1, next, g, f);
      }
    }
  }

  lemma ReplayNumbers(levels: Levels, after: Levels, files: seq<File>, es: seq<Entry>, nextFile: nat, next: nat)
    requires NumbersOk(levels, nextFile, {}) && TablesHold(files, es, nextFile + 1, next) && nextFile < next
    requires Edited(levels, after, NO_FILES, Added(0, files))
    ensures NumbersOk(after, next, {})
  {
    forall l: nat, g | l < NUM_LEVELS ensures g in after[l] <==> g in levels[l] || (l == 0 && g in files) {
      assert LevelEdit(levels[l], after[l], NO_FILES[l], Added(0, files)[l]);
    }
    forall l: nat | l < NUM_LEVELS ensures NumbersBelow(after[l], next, {}) {
      assert NumbersBelow(levels[l], nextFile, {});
    }
    forall j: nat, f, g | j < NUM_LEVELS && f in files && g in after[j] && f.number == g.number ensures j == 0 && f == g {
      assert NumbersBelow(levels[j], nextFile, {});
      if g in files { TablesByAge(files, es, nextFile + 1, next, f, g); }
    }
    EditKeepsNumbersUnique(levels, after, NO_FILES, Added(0, files));
  }

  lemma ReplayContents(levels: Levels, after: Levels, files: seq<File>)
    requires Edited(levels, after, NO_FILES, Added(0, files))
    ensures Contents(after) == Contents(levels) + FileEntries(files)
  {
    forall e ensures e in Contents(after) <==> e in Contents(levels) || e in FileEntries(files) {
      EditContents(levels, after, NO_FILES, Added(0, files), e);
      assert Added(0, files)[0] == files && forall l :: 0 < l < NUM_LEVELS ==> Added(0, files)[l] == [];
      if l :| 0 <= l < NUM_LEVELS && e in FileEntries(levels[l]) {
        var g :| g in levels[l] && e in g.entries;
        assert g !in NO_FILES[l];
      }
      if l, g :| 0 <= l < NUM_LEVELS && g in levels[l] && g !in NO_FILES[l] && e in g.entries {
        assert e in FileEntries(levels[l]);
      }
    }
  }

  // The version after replay answers for the flushed and the replayed history.
  lemma ReplayKeepsLevelsOk(levels: Levels, after: Levels, flushed: seq<Entry>, es: seq<Entry>, horizon: nat, files: seq<File>,
                            nextFile: nat, next: nat)
    requires LevelsOk(levels, flushed, horizon) && NumbersOk(levels, nextFile, {}) && IsHistory(flushed + es)
    requires TablesHold(files, es, nextFile + 1, next) && nextFile < next
    requires Edited(levels, after, NO_FILES, Added(0, files))
    ensures LevelsOk(after, flushed + es, horizon) && NumbersOk(after, next, {})
  {
    ReplayNumbers(levels, after, files, es, nextFile, next);
    forall f | f in files ensures FitsAt(after, 0, f) {
      ReplayedFits(levels, after, flushed, es, files, nextFile, next, f);
    }
    EditKeepsWellFormed(levels, after, NO_FILES, Added(0, files));
    ReplayContents(levels, after, files);
    AnswersWithNewer(Contents(levels), flushed, Contents(after), es, horizon);
    assert LevelEdit(levels[0], after[0], NO_FILES[0], Added(0, files)[0]);
  }
}
