// The steps that change the version: flushing a memtable, moving a file down,
// and installing a compaction that ran while the database went on.

module DbLevels {
  import opened Wrappers
  import opened Entries
  import opened Files
  import opened VersionSearch
  import opened VersionBuilder
  import opened OverlappingInputs
  import opened CompactionInputs
  import opened CompactionWork
  import opened LevelEdits
  import opened DbState

  // ------------------------------------------------------------------ flush

  function FlushEdit(level: nat, f: File): VersionEdit {
    VersionEdit({}, [(level, f)])
  }

  // CompactMemTable: the immutable memtable becomes a table file.
  function Flush(s: State, after: Levels): State {
    s.(imm := None, levels := after,
       flushed := s.flushed + Flatten(s.immGroups), immGroups := [], nextFile := s.nextFile + 1)
  }

  // An empty memtable leaves no table file.
  function FlushEmpty(s: State): State {
    s.(imm := None, flushed := s.flushed + Flatten(s.immGroups), immGroups := [], nextFile := s.nextFile + 1)
  }

  // The new file was placed past every level it could collide with.
  ghost predicate PlacedBy(levels: Levels, level: nat, f: File) {
    && level < NUM_LEVELS
    && (level > 0 ==> forall l :: 0 <= l <= level ==> NoOverlap(levels[l], f.Small().key, f.Large().key))
  }

  // It does not land among what the running compaction will put there.
  ghost predicate FlushClear(pending: Option<Pending>, level: nat, f: File) {
    pending.Some? && level == pending.value.c.level + 1 ==> ClearOfKept(f, pending.value.Merged())
  }

  lemma SingleFile(level: nat, f: File, l: nat)
    ensures AddedAt([(level, f)], l) == if l == level then [f] else []
  {
    assert [(level, f)][..0] == [];
    assert AddedAt([], l) == [];
  }

  function Added(level: nat, files: seq<File>): (r: Levels)
    requires level < NUM_LEVELS
    ensures forall l, g :: 0 <= l < NUM_LEVELS ==> (g in r[l] <==> l == level && g in files)
  {
    seq(NUM_LEVELS, l requires 0 <= l < NUM_LEVELS => if l == level then files else [])
  }

  lemma FlushIsEdit(levels: Levels, level: nat, f: File, nextFile: nat)
    requires WellFormed(levels) && Ordered(levels[0]) && level < NUM_LEVELS && f.number == nextFile
    requires forall l, g :: 0 <= l < NUM_LEVELS && g in levels[l] ==> g.number < nextFile
    ensures Edited(levels, ApplyEdit(levels, FlushEdit(level, f)), NO_FILES, Added(level, [f]))
  {
    forall l: nat | l < NUM_LEVELS ensures EditAt(levels[l], FlushEdit(level, f), l, NO_FILES[l], Added(level, [f])[l]) {
      SingleFile(level, f, l);
    }
    ApplyEditEdits(levels, FlushEdit(level, f), NO_FILES, Added(level, [f]));
  }

  // The flushed entries are newer than everything in table files.
  lemma FlushedIsNewest(s: State, l: nat, g: File)
    requires HistoryOk(s) && Contents(s.levels) <= ToSet(s.flushed)
    requires s.imm.Some? && ToSet(s.imm.value) == ToSet(Flatten(s.immGroups)) && l < NUM_LEVELS && g in s.levels[l]
    ensures Newer(s.imm.value, g.entries)
  {
    PartsOfHistory(s.flushed + Flatten(s.immGroups), Flatten(s.memGroups));
    PartsOfHistory(s.flushed, Flatten(s.immGroups));
    forall x, y | x in s.imm.value && y in g.entries && x.key == y.key ensures x.sn > y.sn {
      assert x in ToSet(s.imm.value);
      assert y in FileEntries(s.levels[l]);
      assert y in Contents(s.levels);
    }
  }

  lemma FlushedFits(s: State, level: nat, f: File, after: Levels)
    requires HistoryOk(s) && MemTablesOk(s) && WellFormed(s.levels) && Contents(s.levels) <= ToSet(s.flushed)
    requires s.imm.Some? && f.entries == s.imm.value && PlacedBy(s.levels, level, f)
    requires forall l, g :: 0 <= l < NUM_LEVELS && g in s.levels[l] ==> g.number < f.number
    requires Edited(s.levels, after, NO_FILES, Added(level, [f]))
    ensures FitsAt(after, level, f)
  {
    forall l: nat, g | l < NUM_LEVELS && g in after[l] && g != f
      ensures Newer(f.entries, g.entries) && g.number < f.number && Sorted(g.entries)
      ensures 0 < level && l <= level ==> !g.Meets(f.Small().key, f.Large().key)
    {
      assert LevelEdit(s.levels[l], after[l], NO_FILES[l], Added(level, [f])[l]);
      assert g in s.levels[l];
      FlushedIsNewest(s, l, g);
      assert AllSorted(s.levels[l]);
      assert 0 < level && l <= level ==> NoOverlap(s.levels[l], f.Small().key, f.Large().key);
    }
    forall g | g in after[level] && g != f ensures FitsBeside(level, f, g) {
    }
    forall i: nat, g | i < level && g in after[i] ensures Newer(g.entries, f.entries) {
      assert LevelEdit(s.levels[i], after[i], NO_FILES[i], Added(level, [f])[i]);
      if g != f { NoSharedKeys(g, f); }
      assert g in s.levels[i];
    }
    forall j: nat, g | level < j < NUM_LEVELS && g in after[j] ensures Newer(f.entries, g.entries) {
      assert LevelEdit(s.levels[j], after[j], NO_FILES[j], Added(level, [f])[j]);
      assert g in s.levels[j];
      FlushedIsNewest(s, j, g);
    }
  }

  // Newer entries appended to a history and to the stored set.
  lemma AnswersWithNewer(es: set<Entry>, h: seq<Entry>, es': set<Entry>, g: seq<Entry>, horizon: nat)
    requires AnswersFrom(es, h, horizon) && es <= ToSet(h) && es' == es + ToSet(g) && IsHistory(h + g)
    ensures AnswersFrom(es', h + g, horizon)
  {
    PartsOfHistory(h, g);
    forall k, sn: nat | horizon <= sn ensures Answer(es', k, sn, Read(h + g, k, sn)) {
      ReadOfConcat(h, g, k, sn);
      if Absent(ToSet(g), k, sn) {
        assert Answer(es, k, sn, Read(h, k, sn));
        if !Absent(es, k, sn) {
          var e :| IsNewest(es, k, sn, e) && Read(h, k, sn) == ResultOf(e.op);
          assert IsNewest(es', k, sn, e);
        }
      } else {
        ReadIsAnswer(g, k, sn);
        var e :| IsNewest(ToSet(g), k, sn, e) && Read(g, k, sn) == ResultOf(e.op);
        assert IsNewest(es', k, sn, e);
      }
    }
  }

  lemma FlushContents(levels: Levels, after: Levels, level: nat, f: File)
    requires level < NUM_LEVELS && Edited(levels, after, NO_FILES, Added(level, [f]))
    ensures Contents(after) == Contents(levels) + ToSet(f.entries)
  {
    forall e ensures e in Contents(after) <==> e in Contents(levels) || e in ToSet(f.entries) {
      EditContents(levels, after, NO_FILES, Added(level, [f]), e);
      assert e in f.entries ==> e in FileEntries(Added(level, [f])[level]);
      if l :| 0 <= l < NUM_LEVELS && e in FileEntries(levels[l]) {
        var g :| g in levels[l] && e in g.entries;
        assert g !in NO_FILES[l];
      }
      if l, g :| 0 <= l < NUM_LEVELS && g in levels[l] && g !in NO_FILES[l] && e in g.entries {
        assert e in FileEntries(levels[l]);
      }
    }
  }

  lemma FlushKeepsPending(levels: Levels, after: Levels, p: Pending, level: nat, f: File)
    requires PendingOk(levels, p) && level < NUM_LEVELS && Edited(levels, after, NO_FILES, Added(level, [f]))
    requires forall l, g :: 0 <= l < NUM_LEVELS && g in levels[l] ==> Newer(f.entries, g.entries)
    requires FlushClear(Some(p), level, f)
    ensures PendingOk(after, p)
  {
    hide LevelSorted, Survives, NothingUncovered, ClearOfKept;
    forall l: nat, g | l < NUM_LEVELS ensures g in after[l] <==> g in levels[l] || (l == level && g == f) {
      assert LevelEdit(levels[l], after[l], NO_FILES[l], Added(level, [f])[l]);
    }
    InputsAreNewer(levels, p, f);
    forall g, x, y | g in after[p.c.level] && g !in p.c.inputs0 && x in g.entries && Survives(p.Merged(), y) && x.key == y.key
      ensures x.sn > y.sn
    {
      if g == f { SurvivorIsInput(p.c, p.Merged(), y); }
    }
    FlushContents(levels, after, level, f);
    FlushUncoversNothing(levels, p, f);
  }

  lemma SurvivorIsInput(c: Compaction, m: Merge, y: Entry)
    requires Survives(m, y) && m.inputs == FileEntries(c.Inputs())
    ensures exists h :: h in c.Inputs() && y in h.entries
  {
  }

  lemma InputsStored(levels: Levels, c: Compaction)
    requires c.level + 1 < NUM_LEVELS && InputsPresent(levels, c)
    ensures FileEntries(c.Inputs()) <= Contents(levels)
  {
    forall e | e in FileEntries(c.Inputs()) ensures e in Contents(levels) {
      var f :| f in c.Inputs() && e in f.entries;
      assert f in c.inputs0 || f in c.inputs1;
      assert f in c.inputs0 ==> e in FileEntries(levels[c.level]);
      assert f in c.inputs1 ==> e in FileEntries(levels[c.level + 1]);
    }
  }

  lemma FlushUncoversNothing(levels: Levels, p: Pending, f: File)
    requires PendingOk(levels, p)
    requires forall l, g :: 0 <= l < NUM_LEVELS && g in levels[l] ==> Newer(f.entries, g.entries)
    ensures NothingUncovered(Contents(levels) + ToSet(f.entries), p.Merged())
  {
    InputsStored(levels, p.c);
    forall x, y | x in ToSet(f.entries) && y in Contents(levels) && x.key == y.key ensures x.sn > y.sn {
      var l :| 0 <= l < NUM_LEVELS && y in FileEntries(levels[l]);
      var g :| g in levels[l] && y in g.entries;
    }
    NewerUncoverNothing(Contents(levels), ToSet(f.entries), p.Merged());
  }

  lemma InputsAreNewer(levels: Levels, p: Pending, f: File)
    requires PendingOk(levels, p)
    requires forall l, g :: 0 <= l < NUM_LEVELS && g in levels[l] ==> Newer(f.entries, g.entries)
    ensures forall g :: g in p.c.Inputs() ==> Newer(f.entries, g.entries)
  {
    forall g | g in p.c.Inputs() ensures Newer(f.entries, g.entries) {
      assert g in p.c.inputs0 || g in p.c.inputs1;
      assert g in levels[p.c.level] || g in levels[p.c.level + 1];
    }
  }

  lemma FlushNumbers(levels: Levels, after: Levels, level: nat, f: File, nextFile: nat, pendingOutputs: set<nat>)
    requires NumbersOk(levels, nextFile, pendingOutputs) && level < NUM_LEVELS && f.number == nextFile
    requires Edited(levels, after, NO_FILES, Added(level, [f]))
    ensures NumbersOk(after, nextFile + 1, pendingOutputs)
  {
    forall l: nat, g | l < NUM_LEVELS ensures g in after[l] <==> g in levels[l] || (l == level && g == f) {
      assert LevelEdit(levels[l], after[l], NO_FILES[l], Added(level, [f])[l]);
    }
    forall l: nat | l < NUM_LEVELS ensures NumbersBelow(after[l], nextFile + 1, pendingOutputs) {
      assert NumbersBelow(levels[l], nextFile, pendingOutputs);
    }
    forall j: nat, g | j < NUM_LEVELS && g in after[j] && g.number == f.number ensures j == level && g == f {
      assert NumbersBelow(levels[j], nextFile, pendingOutputs);
    }
    EditKeepsNumbersUnique(levels, after, NO_FILES, Added(level, [f]));
  }

  lemma FlushKeepsLevelsOk(s: State, level: nat, f: File, after: Levels)
    requires Inv(s) && s.imm.Some? && f.entries == s.imm.value && f.number == s.nextFile
    requires PlacedBy(s.levels, level, f) && Edited(s.levels, after, NO_FILES, Added(level, [f]))
    ensures LevelsOk(after, s.flushed + Flatten(s.immGroups), s.horizon)
  {
    forall l: nat, g | l < NUM_LEVELS && g in s.levels[l] ensures g.number < f.number {
      assert NumbersBelow(s.levels[l], s.nextFile, s.pendingOutputs);
    }
    FlushedFits(s, level, f, after);
    FlushNumbers(s.levels, after, level, f, s.nextFile, s.pendingOutputs);
    EditKeepsWellFormed(s.levels, after, NO_FILES, Added(level, [f]));
    FlushContents(s.levels, after, level, f);
    PartsOfHistory(s.flushed + Flatten(s.immGroups), Flatten(s.memGroups));
    AnswersWithNewer(Contents(s.levels), s.flushed, Contents(after), Flatten(s.immGroups), s.horizon);
    assert LevelEdit(s.levels[0], after[0], NO_FILES[0], Added(level, [f])[0]);
  }

  // Flushing keeps every invariant, also while a compaction is running,
  // unless the table lands among what that compaction keeps.
  lemma FlushKeepsInv(s: State, level: nat, f: File, after: Levels)
    requires Inv(s) && s.imm.Some? && f.entries == s.imm.value && f.number == s.nextFile
    requires PlacedBy(s.levels, level, f) && FlushClear(s.pending, level, f)
    requires Edited(s.levels, after, NO_FILES, Added(level, [f]))
    ensures Inv(Flush(s, after)) && Flush(s, after).History() == s.History()
  {
    var s' := Flush(s, after);
    assert Flatten(s'.immGroups) == [] && s'.History() == s.History();
    FlushKeepsLevelsOk(s, level, f, after);
    FlushNumbers(s.levels, after, level, f, s.nextFile, s.pendingOutputs);
    if s.pending.Some? {
      forall l, g | 0 <= l < NUM_LEVELS && g in s.levels[l] ensures Newer(f.entries, g.entries) { FlushedIsNewest(s, l, g); }
      FlushKeepsPending(s.levels, after, s.pending.value, level, f);
    }
  }

  lemma FlushEmptyKeepsInv(s: State)
    requires Inv(s) && s.imm == Some([])
    ensures Inv(FlushEmpty(s)) && FlushEmpty(s).History() == s.History()
  {
    var i := Flatten(s.immGroups);
    assert forall e :: e in i ==> e in ToSet(i);
    NoEntries(i);
    var s' := FlushEmpty(s);
    assert s'.flushed == s.flushed && Flatten(s'.immGroups) == [];
    assert s'.History() == s.History();
  }

  // All user keys before, or all behind, those of a set of files.
  ghost predicate KeysBeside(g: File, files: seq<File>) {
    || (forall f :: f in files ==> g.Large().key < f.Small().key)
    || (forall f :: f in files ==> f.Large().key < g.Small().key)
  }

  // A gap-free compaction leaves no room for a flushed table among its files.
  lemma GapFreeIsBeside(levels: Levels, c: Compaction, level: nat, f: File)
    requires c.level + 1 < NUM_LEVELS && InputsPresent(levels, c) && GapFree(c.Inputs())
    requires Sorted(f.entries) && PlacedBy(levels, level, f) && level > c.level
    ensures KeysBeside(f, c.Inputs())
  {
    WithinBounds(f, f.Large());
    var a, b := f.Small().key, f.Large().key;
    forall g | g in c.Inputs() ensures ApartFrom(a, b, g) {
      assert g in c.inputs0 || g in c.inputs1;
      assert NoOverlap(levels[c.level], a, b) && NoOverlap(levels[c.level + 1], a, b);
    }
    assert ApartFromAll(a, b, c.Inputs());
  }

  lemma GapFreeIsClear(levels: Levels, p: Pending, level: nat, f: File)
    requires PendingOk(levels, p) && Sorted(f.entries) && PlacedBy(levels, level, f)
    requires GapFree(p.c.Inputs()) && AllSorted(p.c.Inputs())
    ensures FlushClear(Some(p), level, f)
  {
    if level == p.c.level + 1 {
      GapFreeIsBeside(levels, p.c, level, f);
      forall y | Survives(p.Merged(), y) ensures exists g :: g in p.c.Inputs() && y in g.entries && g.Covers(y.key) {
        SurvivorIsInput(p.c, p.Merged(), y);
        var g :| g in p.c.Inputs() && y in g.entries;
        WithinBounds(g, y);
      }
    }
  }

  // ------------------------------------------------------ what may be picked

  // The next file starts with older entries of the user key this file ends in.
  predicate SharesKeyAfter(f: File, g: File) {
    f.Large().key == g.Small().key && Before(f.Large(), g.Small())
  }

  ghost predicate ClosedAtBoundary(files: seq<File>, inputs: seq<File>) {
    forall f, g :: f in inputs && g in files && g !in inputs ==> !SharesKeyAfter(f, g)
  }

  // No input file is cut off from a neighbour that continues its last user
  // key. (At level 0 the inputs are closed under overlap already.)
  ghost predicate BoundaryClosed(levels: Levels, c: Compaction)
    requires c.level + 1 < NUM_LEVELS
  {
    && (c.level > 0 ==> ClosedAtBoundary(levels[c.level], c.inputs0))
    && ClosedAtBoundary(levels[c.level + 1], c.inputs1)
  }

  // Files outside a compaction, at its two levels, are newer than what it merges.
  ghost predicate OutsideIsNewer(levels: Levels, c: Compaction)
    requires c.level + 1 < NUM_LEVELS
  {
    && (forall g, f :: g in levels[c.level] && g !in c.inputs0 && f in c.inputs0 ==> Newer(g.entries, f.entries))
    && (forall g, f :: g in levels[c.level + 1] && g !in c.inputs1 && f in c.Inputs() ==> Newer(g.entries, f.entries))
  }

  // What a merge of these inputs needs of the files left behind: they hold
  // nothing older of a key that survives, and no value that a dropped deletion
  // was hiding.
  ghost predicate MergeIsSafe(levels: Levels, c: Compaction, oldest: nat)
    requires c.level + 1 < NUM_LEVELS
  {
    var m := Merge(FileEntries(c.Inputs()), oldest, levels, c.level);
    KeptIsOlder(levels[c.level], c.inputs0, m) && NothingUncovered(Contents(levels), m)
  }

  lemma ClosedMeansNewer(files: seq<File>, inputs: seq<File>, f: File, g: File)
    requires LevelSorted(files) && f in inputs && f in files && g in files && g !in inputs
    requires ClosedAtBoundary(files, inputs)
    ensures Newer(g.entries, f.entries)
  {
    SeparatedInLevel(files, f, g);
    forall x, y | x in g.entries && y in f.entries && x.key == y.key ensures x.sn > y.sn {
      WithinBounds(g, x);
      WithinBounds(f, y);
      assert !SharesKeyAfter(f, g);
    }
  }

  lemma NoKeysInCommon(g: File, f: File)
    requires Sorted(g.entries) && Sorted(f.entries) && !g.Meets(f.Small().key, f.Large().key)
    ensures Newer(g.entries, f.entries)
  {
    NoSharedKeys(g, f);
  }

  lemma ChosenBounds(levels: Levels, c: Compaction) returns (lo: Entry, hi: Entry)
    requires ChosenFrom(levels, c)
    ensures AreBounds(c.inputs0, lo, hi)
    ensures c.inputs1 == Overlapping(levels[c.level + 1], Some(lo.key), Some(hi.key))
  {
    lo, hi :| AreBounds(c.inputs0, lo, hi)
      && c.inputs1 == Overlapping(levels[c.level + 1], Some(lo.key), Some(hi.key));
  }

  lemma ChosenInputs(levels: Levels, c: Compaction)
    requires ChosenFrom(levels, c)
    ensures InputsPresent(levels, c)
    ensures forall g, f :: g in levels[c.level + 1] && g !in c.inputs1 && f in c.inputs0 ==> !g.Meets(f.Small().key, f.Large().key)
  {
    var lo, hi := ChosenBounds(levels, c);
    forall g, f | g in levels[c.level + 1] && g !in c.inputs1 && f in c.inputs0 ensures !g.Meets(f.Small().key, f.Large().key) {
      assert !InRange(g, Some(lo.key), Some(hi.key));
    }
  }

  // Recency of what stays behind, from a boundary-closed choice.
  lemma ClosedChoiceIsNewer(levels: Levels, c: Compaction)
    requires WellFormed(levels) && ChosenFrom(levels, c) && BoundaryClosed(levels, c)
    ensures OutsideIsNewer(levels, c)
  {
    ChosenInputs(levels, c);
    forall g, f | g in levels[c.level] && g !in c.inputs0 && f in c.inputs0 ensures Newer(g.entries, f.entries) {
      if c.level == 0 { NoKeysInCommon(g, f); } else { ClosedMeansNewer(levels[c.level], c.inputs0, f, g); }
    }
    forall g, f | g in levels[c.level + 1] && g !in c.inputs1 && f in c.Inputs() ensures Newer(g.entries, f.entries) {
      if f in c.inputs1 {
        ClosedMeansNewer(levels[c.level + 1], c.inputs1, f, g);
      } else {
        assert LevelSorted(levels[c.level + 1]);
        assert AllSorted(levels[c.level]);
        NoKeysInCommon(g, f);
      }
    }
  }

  lemma ChosenFilesBeside(files: seq<File>, f: File, g: File, lo: Entry, hi: Entry)
    requires LevelSorted(files) && f in files && g in files && lo.key <= hi.key
    requires InRange(f, Some(lo.key), Some(hi.key)) && !InRange(g, Some(lo.key), Some(hi.key))
    ensures g.Large().key < lo.key ==> Before(g.Large(), f.Small())
    ensures hi.key < g.Small().key ==> Before(f.Large(), g.Small())
  {
    SeparatedInLevel(files, f, g);
    WithinBounds(f, f.Large());
    WithinBounds(g, g.Large());
  }

  // Entirely before or entirely behind a set of files.
  ghost predicate Beside(g: File, files: seq<File>) {
    (forall f :: f in files ==> Before(g.Large(), f.Small())) || (forall f :: f in files ==> Before(f.Large(), g.Small()))
  }

  lemma OneUnchosenIsBeside(files: seq<File>, inputs0: seq<File>, inputs1: seq<File>, lo: Entry, hi: Entry, g: File)
    requires LevelSorted(files) && AllSorted(inputs0) && AreBounds(inputs0, lo, hi)
    requires inputs1 == Overlapping(files, Some(lo.key), Some(hi.key))
    requires g in files && g !in inputs1
    ensures Beside(g, inputs0 + inputs1)
  {
    BoundsMeetRange(inputs0, lo, hi);
    forall f | f in inputs0 + inputs1
      ensures g.Large().key < lo.key ==> Before(g.Large(), f.Small())
      ensures hi.key < g.Small().key ==> Before(f.Large(), g.Small())
    {
      if f in inputs1 {
        ChosenFilesBeside(files, f, g, lo, hi);
      } else {
        assert f in inputs0;
      }
    }
  }

  // A level + 1 file that was not chosen lies beside all inputs, and so beside
  // whatever survives of them.
  lemma UnchosenIsClear(levels: Levels, c: Compaction, oldest: nat)
    requires WellFormed(levels) && ChosenFrom(levels, c)
    ensures NeighboursClear(levels[c.level + 1], c.inputs1, Merge(FileEntries(c.Inputs()), oldest, levels, c.level))
  {
    var m := Merge(FileEntries(c.Inputs()), oldest, levels, c.level);
    var lo, hi := ChosenBounds(levels, c);
    ChosenAreSorted(levels, c);
    forall g | g in levels[c.level + 1] && g !in c.inputs1 ensures ClearOfKept(g, m) {
      OneUnchosenIsBeside(levels[c.level + 1], c.inputs0, c.inputs1, lo, hi, g);
      BesideIsClear(g, c, m);
    }
  }

  lemma ChosenAreSorted(levels: Levels, c: Compaction)
    requires WellFormed(levels) && ChosenFrom(levels, c)
    ensures AllSorted(c.inputs0) && AllSorted(c.Inputs()) && LevelSorted(levels[c.level + 1])
  {
    ChosenInputs(levels, c);
    assert AllSorted(levels[c.level]) && AllSorted(levels[c.level + 1]);
    forall f | f in c.Inputs() ensures Sorted(f.entries) {
      assert f in c.inputs0 || f in c.inputs1;
    }
  }

  lemma BesideIsClear(g: File, c: Compaction, m: Merge)
    requires m.inputs == FileEntries(c.Inputs()) && AllSorted(c.Inputs()) && Beside(g, c.Inputs())
    ensures ClearOfKept(g, m)
  {
    forall y | Survives(m, y) ensures exists f :: f in c.Inputs() && !Before(y, f.Small()) && !Before(f.Large(), y) {
      SurvivorIsInput(c, m, y);
      var f :| f in c.Inputs() && y in f.entries;
      WithinBounds(f, y);
    }
  }

  function BeginCompaction(s: State, c: Compaction): State {
    s.(pending := Some(Pending(c, s.levels, SmallestSnapshot(s))))
  }

  lemma BeginCompactionKeepsInv(s: State, c: Compaction)
    requires Inv(s) && s.pending == None
    requires ChosenFrom(s.levels, c) && MergeIsSafe(s.levels, c, SmallestSnapshot(s))
    ensures Inv(BeginCompaction(s, c))
  {
    hide PendingOk, MergeIsSafe, ChosenFrom;
    PickedIsOk(s.levels, c, SmallestSnapshot(s));
    SmallestSnapshotIsOldest(s);
  }

  lemma ChosenLevel(levels: Levels, c: Compaction)
    requires ChosenFrom(levels, c)
    ensures c.level + 1 < NUM_LEVELS
  {
  }

  lemma PickedIsOk(levels: Levels, c: Compaction, oldest: nat)
    requires WellFormed(levels) && ChosenFrom(levels, c) && MergeIsSafe(levels, c, oldest)
    ensures PendingOk(levels, Pending(c, levels, oldest))
  {
    hide LevelSorted, AllSorted, AllNewer, NumberedByAge, Survives, NothingUncovered, ClearOfKept, KeptIsOlder, ChosenFrom;
    ChosenInputs(levels, c);
    UnchosenIsClear(levels, c, oldest);
    ChosenLevel(levels, c);
  }

  // Enough for a safe merge, and easily checked: no input is cut off from a
  // neighbour that goes on with its last user key.
  lemma ClosedMergeIsSafe(levels: Levels, c: Compaction, oldest: nat)
    requires WellFormed(levels) && ChosenFrom(levels, c) && BoundaryClosed(levels, c)
    ensures MergeIsSafe(levels, c, oldest)
  {
    hide BoundaryClosed, LevelSorted;
    var m := Merge(FileEntries(c.Inputs()), oldest, levels, c.level);
    ClosedChoiceIsNewer(levels, c);
    ChosenInputs(levels, c);
    forall g, x, y | g in levels[c.level] && g !in c.inputs0 && x in g.entries && Survives(m, y) && x.key == y.key
      ensures x.sn > y.sn
    {
      SurvivorIsInput(c, m, y);
      var f :| f in c.Inputs() && y in f.entries;
      assert f in c.inputs0 || f in c.inputs1;
      assert AllNewer(levels[c.level], levels[c.level + 1]);
    }
    forall d, x | d in m.inputs && Obsolete(m, d) && x in Contents(levels) && x !in m.inputs && x.key == d.key
      ensures x.sn > d.sn
    {
      OtherIsNewer(levels, c, d, x);
    }
    NewerOutsideUncoversNothing(Contents(levels), m);
  }

  // Beside a dropped deletion, only newer entries of its key are stored.
  lemma OtherIsNewer(levels: Levels, c: Compaction, d: Entry, x: Entry)
    requires WellFormed(levels) && c.level + 1 < NUM_LEVELS && InputsPresent(levels, c) && OutsideIsNewer(levels, c)
    requires d in FileEntries(c.Inputs()) && IsBaseLevel(levels, c.level, d.key)
    requires x in Contents(levels) && x !in FileEntries(c.Inputs()) && x.key == d.key
    ensures x.sn > d.sn
  {
    hide LevelSorted, AllSorted;
    var f :| f in c.Inputs() && d in f.entries;
    var l :| 0 <= l < NUM_LEVELS && x in FileEntries(levels[l]);
    var g :| g in levels[l] && x in g.entries;
    if l >= c.level + 2 {
      CoversOwn(levels, l, g, x);
    } else {
      assert g !in c.inputs0 && g !in c.inputs1 by { assert g !in c.Inputs(); }
      OutsideFileIsNewer(levels, c, l, g, f);
    }
  }

  lemma CoversOwn(levels: Levels, l: nat, g: File, x: Entry)
    requires WellFormed(levels) && l < NUM_LEVELS && g in levels[l] && x in g.entries
    ensures g.Covers(x.key)
  {
    assert AllSorted(levels[l]) by { assert l > 0 ==> LevelSorted(levels[l]); }
    WithinBounds(g, x);
  }

  lemma OutsideFileIsNewer(levels: Levels, c: Compaction, l: nat, g: File, f: File)
    requires WellFormed(levels) && c.level + 1 < NUM_LEVELS && InputsPresent(levels, c) && OutsideIsNewer(levels, c)
    requires l <= c.level + 1 && g in levels[l] && g !in c.inputs0 && g !in c.inputs1 && f in c.Inputs()
    ensures Newer(g.entries, f.entries)
  {
    hide LevelSorted, AllSorted, Newer;
    assert f in c.inputs0 || f in c.inputs1;
    assert l < c.level ==> AllNewer(levels[l], levels[c.level]);
    assert l < c.level + 1 ==> AllNewer(levels[l], levels[c.level + 1]);
  }

  // ------------------------------------------------------------ trivial move

  function MoveEdit(level: nat, f: File): VersionEdit {
    VersionEdit({(level, f.number)}, [(level + 1, f)])
  }

  lemma MoveEditAt(levels: Levels, level: nat, f: File, l: nat)
    requires NumbersUnique(levels) && level + 1 < NUM_LEVELS && f in levels[level] && l < NUM_LEVELS
    ensures EditAt(levels[l], MoveEdit(level, f), l, Added(level, [f])[l], Added(level + 1, [f])[l])
  {
    var edit := MoveEdit(level, f);
    SingleFile(level + 1, f, l);
    assert NumbersUniqueIn(levels, level, l);
    assert (level, f.number) in edit.deletedFiles;
    assert DeletedAt(edit, l) == if l == level then {f.number} else {};
    forall g | g in levels[l] ensures g.number in DeletedAt(edit, l) <==> g in Added(level, [f])[l] {
    }
    assert FreshAt(Numbers(levels[l]), AddedAt(edit.newFiles, l));
  }

  lemma MoveIsEdit(levels: Levels, level: nat, f: File)
    requires WellFormed(levels) && Ordered(levels[0]) && NumbersUnique(levels)
    requires level + 1 < NUM_LEVELS && f in levels[level]
    ensures Edited(levels, ApplyEdit(levels, MoveEdit(level, f)), Added(level, [f]), Added(level + 1, [f]))
  {
    forall l: nat | l < NUM_LEVELS
      ensures EditAt(levels[l], MoveEdit(level, f), l, Added(level, [f])[l], Added(level + 1, [f])[l])
    {
      MoveEditAt(levels, level, f, l);
    }
    ApplyEditEdits(levels, MoveEdit(level, f), Added(level, [f]), Added(level + 1, [f]));
  }

  // Membership after the move, level by level.
  ghost predicate Moved(before: Levels, after: Levels, level: nat, f: File) {
    forall l, g :: 0 <= l < NUM_LEVELS ==>
      (g in after[l] <==> (l == level + 1 && g == f) || (g in before[l] && !(l == level && g == f)))
  }

  lemma MoveMembers(before: Levels, after: Levels, level: nat, f: File)
    requires level + 1 < NUM_LEVELS && Edited(before, after, Added(level, [f]), Added(level + 1, [f]))
    ensures Moved(before, after, level, f)
    ensures forall l :: 0 <= l < NUM_LEVELS ==> Ordered(after[l])
  {
    forall l: nat | l < NUM_LEVELS
      ensures Ordered(after[l])
      ensures forall g :: g in after[l] <==> (l == level + 1 && g == f) || (g in before[l] && !(l == level && g == f))
    {
      assert LevelEdit(before[l], after[l], Added(level, [f])[l], Added(level + 1, [f])[l]);
    }
  }

  lemma MovedFits(levels: Levels, after: Levels, level: nat, f: File)
    requires WellFormed(levels) && level + 1 < NUM_LEVELS && f in levels[level] && Moved(levels, after, level, f)
    requires forall g :: g in levels[level] && g != f ==> Newer(g.entries, f.entries)
    requires forall g :: g in levels[level + 1] ==> !g.Meets(f.Small().key, f.Large().key)
    ensures FitsAt(after, level + 1, f)
  {
    var l1 := level + 1;
    assert AllSorted(levels[level]) && AllSorted(levels[l1]);
    forall g | g in after[l1] && g != f ensures FitsBeside(l1, f, g) {
      assert g in levels[l1] && !g.Meets(f.Small().key, f.Large().key);
      WithinBounds(g, g.Large());
      WithinBounds(f, f.Large());
    }
    forall i: nat, g | i < l1 && g in after[i] ensures Newer(g.entries, f.entries) {
      assert i < level ==> AllNewer(levels[i], levels[level]);
    }
    forall j: nat, g | l1 < j < NUM_LEVELS && g in after[j] ensures Newer(f.entries, g.entries) {
      assert AllNewer(levels[level], levels[j]);
    }
  }

  lemma MoveNumbers(levels: Levels, after: Levels, level: nat, f: File)
    requires NumbersUnique(levels) && level + 1 < NUM_LEVELS && f in levels[level] && Moved(levels, after, level, f)
    ensures NumbersUnique(after)
  {
    forall i: nat, j: nat | i < NUM_LEVELS && j < NUM_LEVELS ensures NumbersUniqueIn(after, i, j) {
      assert NumbersUniqueIn(levels, i, j) && NumbersUniqueIn(levels, level, j) && NumbersUniqueIn(levels, i, level);
    }
  }

  lemma ClosedMoveFits(levels: Levels, after: Levels, c: Compaction, f: File)
    requires WellFormed(levels) && ChosenFrom(levels, c) && c.inputs0 == [f] && c.inputs1 == []
    requires BoundaryClosed(levels, c) && Moved(levels, after, c.level, f)
    ensures f in levels[c.level] && FitsAt(after, c.level + 1, f)
  {
    ClosedChoiceIsNewer(levels, c);
    ChosenInputs(levels, c);
    assert f in c.inputs0;
    forall g | g in levels[c.level] && g != f ensures Newer(g.entries, f.entries) {
      assert g !in c.inputs0;
    }
    MovedFits(levels, after, c.level, f);
  }

  lemma ClosedMoveKeepsWellFormed(levels: Levels, after: Levels, c: Compaction, f: File)
    requires WellFormed(levels) && NumbersUnique(levels)
    requires ChosenFrom(levels, c) && c.inputs0 == [f] && c.inputs1 == [] && BoundaryClosed(levels, c)
    requires Edited(levels, after, Added(c.level, [f]), Added(c.level + 1, [f]))
    ensures WellFormed(after)
  {
    MoveMembers(levels, after, c.level, f);
    ClosedMoveFits(levels, after, c, f);
    MoveNumbers(levels, after, c.level, f);
    EditKeepsWellFormed(levels, after, Added(c.level, [f]), Added(c.level + 1, [f]));
  }

  // Moving a file down is safe exactly when its neighbour does not continue
  // its last user key with older entries.
  lemma TrivialMoveIsSafeIff(levels: Levels, after: Levels, c: Compaction, f: File)
    requires WellFormed(levels) && NumbersUnique(levels)
    requires ChosenFrom(levels, c) && c.inputs0 == [f] && c.inputs1 == []
    requires Edited(levels, after, Added(c.level, [f]), Added(c.level + 1, [f]))
    ensures WellFormed(after) <==> BoundaryClosed(levels, c)
  {
    if BoundaryClosed(levels, c) {
      ClosedMoveKeepsWellFormed(levels, after, c, f);
    } else {
      MoveMembers(levels, after, c.level, f);
      var g :| g in levels[c.level] && g !in c.inputs0 && SharesKeyAfter(f, g);
      NeighbourLeftBehind(after, c.level, f, g);
    }
  }

  lemma NeighbourLeftBehind(after: Levels, level: nat, f: File, g: File)
    requires level + 1 < NUM_LEVELS && g in after[level] && f in after[level + 1] && SharesKeyAfter(f, g)
    ensures !WellFormed(after)
  {
    assert g.Small() in g.entries && f.Large() in f.entries;
    assert !Newer(g.entries, f.entries);
    assert !AllNewer(after[level], after[level + 1]);
  }

  lemma MoveContents(levels: Levels, after: Levels, level: nat, f: File)
    requires level + 1 < NUM_LEVELS && f in levels[level] && Moved(levels, after, level, f)
    ensures Contents(after) == Contents(levels)
  {
    forall e ensures e in Contents(after) <==> e in Contents(levels) {
      if l :| 0 <= l < NUM_LEVELS && e in FileEntries(after[l]) {
        var g :| g in after[l] && e in g.entries;
        assert e in FileEntries(levels[if g == f then level else l]);
      }
      if l :| 0 <= l < NUM_LEVELS && e in FileEntries(levels[l]) {
        var g :| g in levels[l] && e in g.entries;
        assert e in FileEntries(after[if g == f && l == level then level + 1 else l]);
      }
    }
  }

  function Move(s: State, after: Levels): State {
    s.(levels := after)
  }

  lemma MoveKeepsInv(s: State, c: Compaction, f: File, after: Levels)
    requires Inv(s) && s.pending == None
    requires ChosenFrom(s.levels, c) && c.inputs0 == [f] && c.inputs1 == [] && BoundaryClosed(s.levels, c)
    requires Edited(s.levels, after, Added(c.level, [f]), Added(c.level + 1, [f]))
    ensures Inv(Move(s, after)) && Move(s, after).History() == s.History()
  {
    TrivialMoveIsSafeIff(s.levels, after, c, f);
    MoveMembers(s.levels, after, c.level, f);
    MoveContents(s.levels, after, c.level, f);
    MoveNumbers(s.levels, after, c.level, f);
    forall l: nat | l < NUM_LEVELS ensures NumbersBelow(after[l], s.nextFile, s.pendingOutputs) {
      assert NumbersBelow(s.levels[l], s.nextFile, s.pendingOutputs);
      assert NumbersBelow(s.levels[c.level], s.nextFile, s.pendingOutputs);
    }
  }

  // ------------------------------------------------ installing a compaction

  function RunsOf(outs: seq<File>): seq<Run> {
    if |outs| == 0 then [] else RunsOf(outs[..|outs| - 1]) + [outs[|outs| - 1].entries]
  }

  ghost predicate EntriesFrom(outs: seq<File>, kept: Run) {
    && AllSorted(outs)
    && (forall f, g :: f in outs && g in outs && f != g ==> Separated(f, g))
    && (forall e :: e in kept <==> e in FileEntries(outs))
  }

  lemma SortedConcat(a: Run, b: Run)
    requires Sorted(a + b)
    ensures Sorted(a) && Sorted(b)
    ensures forall x, y :: x in a && y in b ==> Before(x, y)
  {
    var ab := a + b;
    assert forall i :: 0 <= i < |a| ==> ab[i] == a[i];
    assert forall i :: 0 <= i < |b| ==> ab[|a| + i] == b[i];
    forall x, y | x in a && y in b ensures Before(x, y) {
      var i :| 0 <= i < |a| && a[i] == x;
      var j :| 0 <= j < |b| && b[j] == y;
      assert Before(ab[i], ab[|a| + j]);
    }
  }

  // Cutting a sorted run into files gives sorted files in order.
  lemma {:induction false} CutIsSeparated(outs: seq<File>)
    requires Sorted(Flatten(RunsOf(outs)))
    ensures EntriesFrom(outs, Flatten(RunsOf(outs)))
  {
    if |outs| > 0 {
      var front, last := outs[..|outs| - 1], outs[|outs| - 1];
      assert outs == front + [last];
      FlattenSnoc(RunsOf(front), last.entries);
      SortedConcat(Flatten(RunsOf(front)), last.entries);
      CutIsSeparated(front);
      forall f | f in front ensures Separated(f, last) {
        assert f.Large() in f.entries && f.Large() in FileEntries(front);
        assert last.Small() in last.entries;
      }
      forall e ensures e in Flatten(RunsOf(outs)) <==> e in FileEntries(outs) {
        assert e in FileEntries(outs) <==> e in FileEntries(front) || e in last.entries;
      }
    }
  }

  // The merged input of a compaction: every entry of its files, in order.
  ghost predicate IsMergedInput(c: Compaction, input: Run) {
    Sorted(input) && ToSet(input) == FileEntries(c.Inputs())
  }

  lemma NewerThanMerged(g: File, files: seq<File>, o: File)
    requires forall f :: f in files ==> Newer(g.entries, f.entries)
    requires forall y :: y in o.entries ==> y in FileEntries(files)
    ensures Newer(g.entries, o.entries)
  {
    forall x, y | x in g.entries && y in o.entries && x.key == y.key ensures x.sn > y.sn {
      var f :| f in files && y in f.entries;
    }
  }

  lemma MergedIsNewer(files: seq<File>, o: File, g: File)
    requires forall f :: f in files ==> Newer(f.entries, g.entries)
    requires forall y :: y in o.entries ==> y in FileEntries(files)
    ensures Newer(o.entries, g.entries)
  {
    forall x, y | x in o.entries && y in g.entries && x.key == y.key ensures x.sn > y.sn {
      var f :| f in files && x in f.entries;
    }
  }

  lemma NotInOtherLevel(levels: Levels, i: nat, f: File, j: nat, g: File, e: Entry)
    requires WellFormed(levels) && i < j < NUM_LEVELS && f in levels[i] && g in levels[j]
    ensures e in f.entries ==> e !in g.entries
  {
    assert AllNewer(levels[i], levels[j]);
  }

  lemma NotInOtherFile(levels: Levels, l: nat, f: File, g: File, e: Entry)
    requires WellFormed(levels) && l < NUM_LEVELS && f in levels[l] && g in levels[l] && f != g
    ensures e in f.entries ==> e !in g.entries
  {
    if l == 0 {
      DifferentNumbers(levels[0], f, g);
    } else if e in f.entries {
      SeparatedInLevel(levels[l], f, g);
      assert AllSorted(levels[l]);
      WithinBounds(f, e);
      forall x | x in g.entries ensures x != e { WithinBounds(g, x); }
    }
  }

  // An entry is stored in one file only.
  lemma OneFilePerEntry(levels: Levels, i: nat, f: File, j: nat, g: File, e: Entry)
    requires WellFormed(levels) && i < NUM_LEVELS && j < NUM_LEVELS
    requires f in levels[i] && g in levels[j] && e in f.entries && e in g.entries
    ensures i == j && f == g
  {
    hide WellFormed;
    if i < j {
      NotInOtherLevel(levels, i, f, j, g, e);
    } else if j < i {
      NotInOtherLevel(levels, j, g, i, f, e);
    } else if f != g {
      NotInOtherFile(levels, i, f, g, e);
    }
  }

  lemma DifferentNumbers(files: seq<File>, f: File, g: File)
    requires DistinctNumbers(files) && f in files && g in files && f != g
    ensures f.number != g.number
  {
    var i :| 0 <= i < |files| && files[i] == f;
    var j :| 0 <= j < |files| && files[j] == g;
    assert i < j || j < i;
  }
}
