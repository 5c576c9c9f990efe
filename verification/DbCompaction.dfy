// Installing a finished compaction: its inputs leave two levels, its outputs
// arrive in the deeper one, and no reader can tell.

module DbCompaction {
  import opened Wrappers
  import opened Entries
  import opened Files
  import opened VersionBuilder
  import opened OverlappingInputs
  import opened CompactionInputs
  import opened CompactionWork
  import opened LevelEdits
  import opened DbState
  import opened DbLevels

  function NewFiles(level: nat, outs: seq<File>): seq<(nat, File)> {
    if |outs| == 0 then [] else NewFiles(level, outs[..|outs| - 1]) + [(level, outs[|outs| - 1])]
  }

  lemma {:induction false} NewFilesAt(level: nat, outs: seq<File>, l: nat)
    ensures AddedAt(NewFiles(level, outs), l) == if l == level then outs else []
  {
    if |outs| > 0 {
      var front := outs[..|outs| - 1];
      NewFilesAt(level, front, l);
      assert NewFiles(level, outs)[..|outs| - 1] == NewFiles(level, front) by { NewFilesLength(level, outs); }
      NewFilesLength(level, outs);
      assert outs == front + [outs[|outs| - 1]];
    }
  }

  lemma {:induction false} NewFilesLength(level: nat, outs: seq<File>)
    ensures |NewFiles(level, outs)| == |outs|
    ensures |outs| > 0 ==> NewFiles(level, outs)[..|outs| - 1] == NewFiles(level, outs[..|outs| - 1])
  {
    if |outs| > 0 { NewFilesLength(level, outs[..|outs| - 1]); }
  }

  // AddInputDeletions and the AddFile calls of InstallCompactionResults.
  function InstallEdit(c: Compaction, outs: seq<File>): VersionEdit {
    VersionEdit((set f | f in c.inputs0 :: (c.level, f.number)) + (set f | f in c.inputs1 :: (c.level + 1, f.number)),
                NewFiles(c.level + 1, outs))
  }

  function Removed(c: Compaction): (r: Levels)
    requires c.level + 1 < NUM_LEVELS
    ensures forall l, g :: 0 <= l < NUM_LEVELS ==>
      (g in r[l] <==> (l == c.level && g in c.inputs0) || (l == c.level + 1 && g in c.inputs1))
  {
    NO_FILES[c.level := c.inputs0][c.level + 1 := c.inputs1]
  }

  ghost predicate OutputNumbers(levels: Levels, outs: seq<File>, pendingOutputs: set<nat>) {
    DistinctNumbers(outs) && forall f :: f in outs ==> f.number in pendingOutputs
  }

  lemma OutputsAreFresh(files: seq<File>, c: Compaction, outs: seq<File>, nextFile: nat, pendingOutputs: set<nat>, l: nat)
    requires NumbersBelow(files, nextFile, pendingOutputs) && c.level + 1 < NUM_LEVELS && l < NUM_LEVELS
    requires DistinctNumbers(outs) && forall f :: f in outs ==> f.number in pendingOutputs
    ensures FreshAt(Numbers(files), AddedAt(InstallEdit(c, outs).newFiles, l))
    ensures forall f :: f in AddedAt(InstallEdit(c, outs).newFiles, l) <==> f in Added(c.level + 1, outs)[l]
  {
    hide NewFiles, AddedAt;
    NewFilesAt(c.level + 1, outs, l);
    assert forall f :: f in outs ==> f.number !in Numbers(files);
  }

  lemma DeletedAreInputs(levels: Levels, c: Compaction, outs: seq<File>, l: nat, g: File)
    requires NumbersUnique(levels) && c.level + 1 < NUM_LEVELS && InputsPresent(levels, c) && l < NUM_LEVELS
    requires g in levels[l]
    ensures g.number in DeletedAt(InstallEdit(c, outs), l) <==> g in Removed(c)[l]
  {
    DeletedByInstall(c, outs, l);
    assert NumbersUniqueIn(levels, c.level, l) && NumbersUniqueIn(levels, c.level + 1, l);
    NumberIdentifies(levels, c.level, c.inputs0, l, g);
    NumberIdentifies(levels, c.level + 1, c.inputs1, l, g);
  }

  lemma DeletedByInstall(c: Compaction, outs: seq<File>, l: nat)
    ensures DeletedAt(InstallEdit(c, outs), l)
      == (if l == c.level then Numbers(c.inputs0) else {}) + (if l == c.level + 1 then Numbers(c.inputs1) else {})
  {
    var edit := InstallEdit(c, outs);
    forall n ensures (l, n) in edit.deletedFiles
      <==> (l == c.level && n in Numbers(c.inputs0)) || (l == c.level + 1 && n in Numbers(c.inputs1))
    {
    }
    assert forall n :: n in DeletedAt(edit, l) <==> (l, n) in edit.deletedFiles;
  }

  lemma InstallIsEdit(levels: Levels, c: Compaction, outs: seq<File>, nextFile: nat, pendingOutputs: set<nat>)
    requires WellFormed(levels) && Ordered(levels[0])
    requires NumbersOk(levels, nextFile, pendingOutputs) && OutputNumbers(levels, outs, pendingOutputs)
    requires c.level + 1 < NUM_LEVELS && InputsPresent(levels, c)
    ensures Edited(levels, ApplyEdit(levels, InstallEdit(c, outs)), Removed(c), Added(c.level + 1, outs))
  {
    forall l: nat | l < NUM_LEVELS
      ensures EditAt(levels[l], InstallEdit(c, outs), l, Removed(c)[l], Added(c.level + 1, outs)[l])
    {
      assert NumbersBelow(levels[l], nextFile, pendingOutputs);
      OutputsAreFresh(levels[l], c, outs, nextFile, pendingOutputs, l);
      forall g | g in levels[l] ensures g.number in DeletedAt(InstallEdit(c, outs), l) <==> g in Removed(c)[l] {
        DeletedAreInputs(levels, c, outs, l, g);
      }
    }
    ApplyEditEdits(levels, InstallEdit(c, outs), Removed(c), Added(c.level + 1, outs));
  }

  // Membership after the installation, level by level.
  ghost predicate Installed(before: Levels, after: Levels, c: Compaction, outs: seq<File>)
    requires c.level + 1 < NUM_LEVELS
  {
    forall l, g :: 0 <= l < NUM_LEVELS ==> (g in after[l] <==> (l == c.level + 1 && g in outs) || StaysIn(before, c, l, g))
  }

  ghost predicate StaysIn(before: Levels, c: Compaction, l: nat, g: File)
    requires l < NUM_LEVELS
  {
    && g in before[l]
    && !(l == c.level && g in c.inputs0)
    && !(l == c.level + 1 && g in c.inputs1)
  }

  lemma InstallMembers(before: Levels, after: Levels, c: Compaction, outs: seq<File>)
    requires c.level + 1 < NUM_LEVELS && Edited(before, after, Removed(c), Added(c.level + 1, outs))
    ensures Installed(before, after, c, outs)
    ensures forall l :: 0 <= l < NUM_LEVELS ==> Ordered(after[l])
  {
    forall l: nat | l < NUM_LEVELS
      ensures Ordered(after[l])
      ensures forall g :: g in after[l] <==> (l == c.level + 1 && g in outs) || StaysIn(before, c, l, g)
    {
      assert LevelEdit(before[l], after[l], Removed(c)[l], Added(c.level + 1, outs)[l]);
    }
  }

  // The outputs hold what the merge kept of the inputs.
  ghost predicate IsOutput(p: Pending, input: Run, outs: seq<File>) {
    && IsMergedInput(p.c, input)
    && Flatten(RunsOf(outs)) == Kept(input, |input|, p.smallestSnapshot, p.base, p.c.level)
  }

  lemma OutputEntries(p: Pending, input: Run, outs: seq<File>)
    requires IsOutput(p, input, outs) && p.smallestSnapshot < MAX_SEQUENCE_NUMBER
    ensures EntriesFrom(outs, Flatten(RunsOf(outs)))
    ensures forall y :: y in FileEntries(outs) <==> Survives(p.Merged(), y)
    ensures forall o, y :: o in outs && y in o.entries ==> Survives(p.Merged(), y)
  {
    KeptIsSorted(input, |input|, p.smallestSnapshot, p.base, p.c.level);
    KeptIsSurvivors(p.Merged(), input);
    CutIsSeparated(outs);
    forall o, y | o in outs && y in o.entries ensures Survives(p.Merged(), y) {
      assert y in FileEntries(outs);
    }
  }

  lemma InputsSorted(levels: Levels, c: Compaction)
    requires WellFormed(levels) && c.level + 1 < NUM_LEVELS && InputsPresent(levels, c)
    ensures AllSorted(c.Inputs())
  {
    assert AllSorted(levels[c.level]) && AllSorted(levels[c.level + 1]);
    forall f | f in c.Inputs() ensures Sorted(f.entries) {
      assert f in c.inputs0 || f in c.inputs1;
    }
  }

  lemma OutputBesideNeighbour(m: Merge, o: File, g: File)
    requires ClearOfKept(g, m) && forall y :: y in o.entries ==> Survives(m, y)
    ensures Separated(o, g)
  {
    assert o.Small() in o.entries && o.Large() in o.entries;
  }

  lemma OutputBehindLevel(levels: Levels, p: Pending, o: File, g: File)
    requires PendingOk(levels, p) && g in levels[p.c.level] && g !in p.c.inputs0
    requires forall y :: y in o.entries ==> Survives(p.Merged(), y)
    ensures Newer(g.entries, o.entries)
  {
  }

  // The inputs stand between the levels above and below them.
  lemma InputsInOrder(levels: Levels, c: Compaction, l: nat, g: File)
    requires WellFormed(levels) && c.level + 1 < NUM_LEVELS && InputsPresent(levels, c) && l < NUM_LEVELS && g in levels[l]
    ensures l < c.level ==> forall f :: f in c.Inputs() ==> Newer(g.entries, f.entries)
    ensures l > c.level + 1 ==> forall f :: f in c.Inputs() ==> Newer(f.entries, g.entries)
  {
    hide Newer, LevelSorted, AllSorted;
    assert l < c.level ==> AllNewer(levels[l], levels[c.level]) && AllNewer(levels[l], levels[c.level + 1]);
    assert l > c.level + 1 ==> AllNewer(levels[c.level], levels[l]) && AllNewer(levels[c.level + 1], levels[l]);
    forall f | f in c.Inputs()
      ensures l < c.level ==> Newer(g.entries, f.entries)
      ensures l > c.level + 1 ==> Newer(f.entries, g.entries)
    {
      assert f in c.inputs0 || f in c.inputs1;
    }
  }

  lemma OutputAgainst(levels: Levels, p: Pending, o: File, l: nat, g: File)
    requires WellFormed(levels) && PendingOk(levels, p) && l < NUM_LEVELS && StaysIn(levels, p.c, l, g)
    requires forall y :: y in o.entries ==> Survives(p.Merged(), y)
    ensures InOrder(l, g, p.c.level + 1, o)
  {
    hide WellFormed, Newer, NothingUncovered;
    if l == p.c.level {
      OutputBehindLevel(levels, p, o, g);
    } else if l == p.c.level + 1 {
      OutputBesideNeighbour(p.Merged(), o, g);
    } else {
      assert forall y :: y in o.entries ==> y in FileEntries(p.c.Inputs());
      InputsInOrder(levels, p.c, l, g);
      if l < p.c.level {
        NewerThanMerged(g, p.c.Inputs(), o);
      } else {
        MergedIsNewer(p.c.Inputs(), o, g);
      }
    }
  }

  lemma OutputFits(levels: Levels, after: Levels, p: Pending, outs: seq<File>, o: File)
    requires WellFormed(levels) && PendingOk(levels, p) && Installed(levels, after, p.c, outs)
    requires EntriesFrom(outs, Flatten(RunsOf(outs))) && o in outs
    requires forall y :: y in o.entries ==> Survives(p.Merged(), y)
    ensures FitsAt(after, p.c.level + 1, o)
  {
    hide WellFormed, PendingOk, Survives;
    InputsArePresent(levels, p);
    var l1 := p.c.level + 1;
    forall l: nat, g | l < NUM_LEVELS && g in after[l] && !(l == l1 && g == o) ensures InOrder(l, g, l1, o) {
      if l == l1 && g in outs {
        assert Separated(o, g);
      } else {
        OutputAgainst(levels, p, o, l, g);
      }
    }
    FitsFrom(after, l1, o);
  }

  lemma InstallNumbers(levels: Levels, after: Levels, c: Compaction, outs: seq<File>, nextFile: nat, pendingOutputs: set<nat>)
    requires NumbersOk(levels, nextFile, pendingOutputs) && OutputNumbers(levels, outs, pendingOutputs)
    requires c.level + 1 < NUM_LEVELS && Installed(levels, after, c, outs)
    ensures NumbersOk(after, nextFile, pendingOutputs - Numbers(outs))
  {
    forall i: nat, j: nat | i < NUM_LEVELS && j < NUM_LEVELS ensures NumbersUniqueIn(after, i, j) {
      assert NumbersUniqueIn(levels, i, j);
      assert NumbersBelow(levels[i], nextFile, pendingOutputs) && NumbersBelow(levels[j], nextFile, pendingOutputs);
      forall f, g | f in after[i] && g in after[j] && f.number == g.number ensures i == j && f == g {
        assert f in outs || StaysIn(levels, c, i, f);
        assert g in outs || StaysIn(levels, c, j, g);
      }
    }
    forall l: nat | l < NUM_LEVELS ensures NumbersBelow(after[l], nextFile, pendingOutputs - Numbers(outs)) {
      assert NumbersBelow(levels[l], nextFile, pendingOutputs);
    }
  }

  lemma InstallFits(levels: Levels, after: Levels, p: Pending, input: Run, outs: seq<File>)
    requires WellFormed(levels) && PendingOk(levels, p) && IsOutput(p, input, outs) && p.smallestSnapshot < MAX_SEQUENCE_NUMBER
    requires Edited(levels, after, Removed(p.c), Added(p.c.level + 1, outs)) && NumbersUnique(after)
    ensures WellFormed(after)
  {
    hide WellFormed, PendingOk, IsOutput, Survives, NumbersUnique;
    InputsArePresent(levels, p);
    InstallMembers(levels, after, p.c, outs);
    OutputEntries(p, input, outs);
    forall o | o in outs ensures FitsAt(after, p.c.level + 1, o) {
      OutputFits(levels, after, p, outs, o);
    }
    EditKeepsWellFormed(levels, after, Removed(p.c), Added(p.c.level + 1, outs));
  }

  lemma InstallKeepsWellFormed(levels: Levels, after: Levels, p: Pending, input: Run, outs: seq<File>,
                               nextFile: nat, pendingOutputs: set<nat>)
    requires WellFormed(levels) && PendingOk(levels, p) && IsOutput(p, input, outs) && p.smallestSnapshot < MAX_SEQUENCE_NUMBER
    requires NumbersOk(levels, nextFile, pendingOutputs) && OutputNumbers(levels, outs, pendingOutputs)
    requires Edited(levels, after, Removed(p.c), Added(p.c.level + 1, outs))
    ensures WellFormed(after)
  {
    hide WellFormed, PendingOk, IsOutput, Edited;
    InputsArePresent(levels, p);
    InstallMembers(levels, after, p.c, outs);
    InstallNumbers(levels, after, p.c, outs, nextFile, pendingOutputs);
    InstallFits(levels, after, p, input, outs);
  }

  lemma StoredAfter(levels: Levels, after: Levels, p: Pending, input: Run, outs: seq<File>, e: Entry)
    requires WellFormed(levels) && p.c.level + 1 < NUM_LEVELS && InputsPresent(levels, p.c) && IsMergedInput(p.c, input)
    requires Installed(levels, after, p.c, outs) && e in Contents(after)
    ensures e in FileEntries(outs) || (e in Contents(levels) && e !in input)
  {
    hide WellFormed;
    var l :| 0 <= l < NUM_LEVELS && e in FileEntries(after[l]);
    var g :| g in after[l] && e in g.entries;
    if StaysIn(levels, p.c, l, g) {
      assert e in FileEntries(levels[l]);
      if e in input { StoredInOneInput(levels, p.c, input, l, g, e); }
    } else {
      assert g in outs;
    }
  }

  lemma StoredInOneInput(levels: Levels, c: Compaction, input: Run, l: nat, g: File, e: Entry)
    requires WellFormed(levels) && c.level + 1 < NUM_LEVELS && InputsPresent(levels, c) && IsMergedInput(c, input)
    requires l < NUM_LEVELS && g in levels[l] && e in g.entries && e in input
    ensures (l == c.level && g in c.inputs0) || (l == c.level + 1 && g in c.inputs1)
  {
    hide WellFormed;
    assert e in ToSet(input);
    var f :| f in c.Inputs() && e in f.entries;
    assert f in c.inputs0 || f in c.inputs1;
    var i := if f in c.inputs0 then c.level else c.level + 1;
    OneFilePerEntry(levels, i, f, l, g, e);
  }

  lemma StaysStored(levels: Levels, after: Levels, c: Compaction, input: Run, outs: seq<File>, e: Entry)
    requires c.level + 1 < NUM_LEVELS && IsMergedInput(c, input) && Installed(levels, after, c, outs)
    requires e in Contents(levels) && e !in input
    ensures e in Contents(after)
  {
    var l :| 0 <= l < NUM_LEVELS && e in FileEntries(levels[l]);
    var g :| g in levels[l] && e in g.entries;
    StoredOutsideInput(c, input, g, e);
    assert StaysIn(levels, c, l, g);
    assert e in FileEntries(after[l]);
  }

  lemma OutputsAreStored(levels: Levels, after: Levels, c: Compaction, outs: seq<File>, e: Entry)
    requires c.level + 1 < NUM_LEVELS && Installed(levels, after, c, outs) && e in FileEntries(outs)
    ensures e in Contents(after)
  {
    var o :| o in outs && e in o.entries;
    assert o in after[c.level + 1];
    assert e in FileEntries(after[c.level + 1]);
  }

  // An entry outside the inputs is stored nowhere else, so removing the input
  // files and adding the outputs is what the merge did to the stored set.
  lemma ContentsAfter(levels: Levels, after: Levels, p: Pending, input: Run, outs: seq<File>)
    requires WellFormed(levels) && p.c.level + 1 < NUM_LEVELS && InputsPresent(levels, p.c) && IsOutput(p, input, outs)
    requires Installed(levels, after, p.c, outs) && p.smallestSnapshot < MAX_SEQUENCE_NUMBER
    ensures Contents(after)
      == AfterMerge(Contents(levels), input, Kept(input, |input|, p.smallestSnapshot, p.base, p.c.level))
  {
    hide WellFormed, Kept, Installed;
    var kept := Flatten(RunsOf(outs));
    OutputEntries(p, input, outs);
    InputsAreStored(levels, p.c, input);
    KeptMembers(input, |input|, p.smallestSnapshot, p.base, p.c.level);
    assert forall e :: e in kept ==> e in ToSet(input) && e in FileEntries(outs);
    forall e ensures e in Contents(after) <==> e in Contents(levels) && (e !in input || e in kept) {
      if e in Contents(after) { StoredAfter(levels, after, p, input, outs, e); }
      if e in Contents(levels) && e !in input { StaysStored(levels, after, p.c, input, outs, e); }
      if e in FileEntries(outs) { OutputsAreStored(levels, after, p.c, outs, e); }
    }
  }

  lemma InstallContents(levels: Levels, after: Levels, p: Pending, input: Run, outs: seq<File>)
    requires WellFormed(levels) && PendingOk(levels, p) && IsOutput(p, input, outs)
    requires Installed(levels, after, p.c, outs) && p.smallestSnapshot < MAX_SEQUENCE_NUMBER
    ensures Contents(after) == AfterMerge(Contents(levels), input, Flatten(RunsOf(outs)))
  {
    hide WellFormed;
    InputsArePresent(levels, p);
    ContentsAfter(levels, after, p, input, outs);
  }

  lemma InputsAreStored(levels: Levels, c: Compaction, input: Run)
    requires c.level + 1 < NUM_LEVELS && InputsPresent(levels, c) && IsMergedInput(c, input)
    ensures ToSet(input) <= Contents(levels)
  {
    InputsStored(levels, c);
  }

  lemma InputsArePresent(levels: Levels, p: Pending)
    requires PendingOk(levels, p)
    ensures p.c.level + 1 < NUM_LEVELS && InputsPresent(levels, p.c)
  {
  }

  lemma StoredOutsideInput(c: Compaction, input: Run, g: File, e: Entry)
    requires IsMergedInput(c, input) && e in g.entries && e !in input
    ensures g !in c.inputs0 && g !in c.inputs1
  {
    assert e !in ToSet(input);
    assert g in c.inputs0 || g in c.inputs1 ==> g in c.Inputs();
  }

  lemma InstallKeepsAnswers(s: State, after: Levels, input: Run, outs: seq<File>)
    requires Inv(s) && s.pending.Some? && IsOutput(s.pending.value, input, outs)
    requires Installed(s.levels, after, s.pending.value.c, outs)
    ensures Contents(after) <= ToSet(s.flushed)
    ensures AnswersFrom(Contents(after), s.flushed, s.pending.value.smallestSnapshot)
  {
    hide WellFormed, Survives;
    var p, all := s.pending.value, Contents(s.levels);
    InstallContents(s.levels, after, p, input, outs);
    InputsAreStored(s.levels, p.c, input);
    StoredIsUnique(s);
    MergeKeepsReadsIff(all, p.Merged(), input);
    forall k, sn: nat | p.smallestSnapshot <= sn ensures Answer(Contents(after), k, sn, Read(s.flushed, k, sn)) {
      assert Answer(all, k, sn, Read(s.flushed, k, sn));
    }
  }

  lemma StoredIsUnique(s: State)
    requires HistoryOk(s) && Contents(s.levels) <= ToSet(s.flushed)
    ensures UniqueNumbers(Contents(s.levels))
  {
    PartsOfHistory(s.flushed + Flatten(s.immGroups), Flatten(s.memGroups));
    PartsOfHistory(s.flushed, Flatten(s.immGroups));
  }

  function Install(s: State, after: Levels, outs: seq<File>): State
    requires s.pending.Some?
  {
    s.(levels := after, pending := None, horizon := s.pending.value.smallestSnapshot,
       pendingOutputs := s.pendingOutputs - Numbers(outs))
  }

  // A compaction that ran while writes, flushes and snapshots went on changes
  // no read at or above the oldest snapshot it started from.
  lemma InstallKeepsInv(s: State, after: Levels, input: Run, outs: seq<File>)
    requires Inv(s) && s.pending.Some? && IsOutput(s.pending.value, input, outs)
    requires OutputNumbers(s.levels, outs, s.pendingOutputs)
    requires Edited(s.levels, after, Removed(s.pending.value.c), Added(s.pending.value.c.level + 1, outs))
    ensures Inv(Install(s, after, outs)) && Install(s, after, outs).History() == s.History()
  {
    var p := s.pending.value;
    InstallMembers(s.levels, after, p.c, outs);
    InstallKeepsWellFormed(s.levels, after, p, input, outs, s.nextFile, s.pendingOutputs);
    InstallKeepsAnswers(s, after, input, outs);
    InstallNumbers(s.levels, after, p.c, outs, s.nextFile, s.pendingOutputs);
  }

  // A failed compaction leaves everything but the allocated numbers alone.
  function Abandon(s: State, outputs: set<nat>): State {
    s.(pending := None, pendingOutputs := s.pendingOutputs - outputs)
  }

  // OpenCompactionOutputFile: allocate a number.
  function OpenOutput(s: State): State {
    s.(pendingOutputs := s.pendingOutputs + {s.nextFile}, nextFile := s.nextFile + 1)
  }

  lemma OutputStepsKeepInv(s: State, outputs: set<nat>)
    requires Inv(s)
    ensures Inv(Abandon(s, outputs)) && Inv(OpenOutput(s))
  {
    assert forall l :: 0 <= l < NUM_LEVELS ==> NumbersBelow(s.levels[l], s.nextFile, s.pendingOutputs);
  }

  // ----------------------------------------------------- exactly when safe

  // The entries of some runs in internal key order, as the merging iterator
  // over them yields them.
  function AddRun(acc: Run, r: Run): Run {
    if |r| == 0 then acc
    else
      var front, e := AddRun(acc, r[..|r| - 1]), r[|r| - 1];
      if e in front then front else Insert(front, e)
  }

  function MergedRuns(files: seq<File>): Run {
    if |files| == 0 then [] else AddRun(MergedRuns(files[..|files| - 1]), files[|files| - 1].entries)
  }

  lemma {:induction false} AddRunSorted(acc: Run, r: Run)
    requires Sorted(acc) && UniqueNumbers(ToSet(acc) + ToSet(r))
    ensures Sorted(AddRun(acc, r)) && ToSet(AddRun(acc, r)) == ToSet(acc) + ToSet(r)
  {
    if |r| > 0 {
      var rest, e := r[..|r| - 1], r[|r| - 1];
      assert forall x :: x in r <==> x in rest || x == e;
      AddRunSorted(acc, rest);
      var front := AddRun(acc, rest);
      assert forall x :: x in front <==> x in ToSet(front);
      if e !in front { InsertKeepsSorted(front, e); }
    }
  }

  lemma {:induction false} MergedRunsSorted(files: seq<File>, all: set<Entry>)
    requires UniqueNumbers(all) && FileEntries(files) <= all
    ensures Sorted(MergedRuns(files)) && ToSet(MergedRuns(files)) == FileEntries(files)
  {
    if |files| > 0 {
      var front, last := files[..|files| - 1], files[|files| - 1];
      assert files == front + [last];
      FilesOfMore(front, last);
      MergedRunsSorted(front, all);
      AddRunSorted(MergedRuns(front), last.entries);
    }
  }

  lemma FilesOfMore(files: seq<File>, f: File)
    ensures FileEntries(files + [f]) == FileEntries(files) + ToSet(f.entries)
  {
    forall e ensures e in FileEntries(files + [f]) <==> e in FileEntries(files) || e in f.entries {
    }
  }

  // Merging these inputs keeps levels well formed and every read from the
  // oldest snapshot on, if and only if the files left behind hold nothing older
  // of a key that survives and no value that a dropped deletion was hiding.
  lemma MergeIsSafeIff(levels: Levels, c: Compaction, oldest: nat, input: Run, outs: seq<File>, after: Levels,
                       nextFile: nat, pendingOutputs: set<nat>)
    requires WellFormed(levels) && UniqueNumbers(Contents(levels)) && ChosenFrom(levels, c) && oldest < MAX_SEQUENCE_NUMBER
    requires IsOutput(Pending(c, levels, oldest), input, outs)
    requires NumbersOk(levels, nextFile, pendingOutputs) && OutputNumbers(levels, outs, pendingOutputs)
    requires Edited(levels, after, Removed(c), Added(c.level + 1, outs))
    ensures WellFormed(after) && SameAnswers(Contents(levels), Contents(after), oldest) <==> MergeIsSafe(levels, c, oldest)
  {
    hide WellFormed, UniqueNumbers, SameAnswers, Edited, PendingOk, ChosenFrom, NothingUncovered, KeptIsOlder;
    var p := Pending(c, levels, oldest);
    ChosenInputs(levels, c);
    ChosenLevel(levels, c);
    InstallMembers(levels, after, c, outs);
    if MergeIsSafe(levels, c, oldest) {
      PickedIsOk(levels, c, oldest);
      InstallKeepsWellFormed(levels, after, p, input, outs, nextFile, pendingOutputs);
    }
    if WellFormed(after) { WellFormedMeansOlder(levels, after, p, input, outs); }
    ContentsAfter(levels, after, p, input, outs);
    InputsAreStored(levels, c, input);
    MergeKeepsReadsIff(Contents(levels), p.Merged(), input);
  }

  lemma WellFormedMeansOlder(levels: Levels, after: Levels, p: Pending, input: Run, outs: seq<File>)
    requires p.c.level + 1 < NUM_LEVELS && Installed(levels, after, p.c, outs) && WellFormed(after)
    requires IsOutput(p, input, outs) && p.smallestSnapshot < MAX_SEQUENCE_NUMBER
    ensures KeptIsOlder(levels[p.c.level], p.c.inputs0, p.Merged())
  {
    OutputEntries(p, input, outs);
    assert AllNewer(after[p.c.level], after[p.c.level + 1]);
    forall g, x, y | g in levels[p.c.level] && g !in p.c.inputs0 && x in g.entries && Survives(p.Merged(), y) && x.key == y.key
      ensures x.sn > y.sn
    {
      assert y in FileEntries(outs);
      var o :| o in outs && y in o.entries;
      assert StaysIn(levels, p.c, p.c.level, g);
      assert o in after[p.c.level + 1] && g in after[p.c.level];
    }
  }

  ghost predicate InstalledAs(levels: Levels, after: Levels, c: Compaction, outs: seq<File>)
    requires c.level + 1 < NUM_LEVELS
  {
    Edited(levels, after, Removed(c), Added(c.level + 1, outs)) && NumbersUnique(after)
  }

  // However the running compaction is cut into files, installing it keeps the
  // levels well formed.
  ghost predicate EveryInstallFits(levels: Levels, p: Pending)
    requires p.c.level + 1 < NUM_LEVELS
  {
    forall input, outs, after :: IsOutput(p, input, outs) && InstalledAs(levels, after, p.c, outs) ==> WellFormed(after)
  }

  // A table may be flushed beside a running compaction if and only if it does
  // not land, one level below its inputs, among what it keeps.
  lemma FlushIsSafeIff(levels: Levels, flushed: Levels, p: Pending, level: nat, f: File, nextFile: nat, pendingOutputs: set<nat>)
    requires WellFormed(levels) && PendingOk(levels, p) && p.smallestSnapshot < MAX_SEQUENCE_NUMBER
    requires level < NUM_LEVELS && Edited(levels, flushed, NO_FILES, Added(level, [f]))
    requires forall l, g :: 0 <= l < NUM_LEVELS && g in levels[l] ==> Newer(f.entries, g.entries)
    requires WellFormed(flushed) && Ordered(flushed[0]) && NumbersOk(flushed, nextFile, pendingOutputs)
    requires UniqueNumbers(Contents(flushed))
    ensures p.c.level + 1 < NUM_LEVELS && (EveryInstallFits(flushed, p) <==> FlushClear(Some(p), level, f))
  {
    hide WellFormed, PendingOk, UniqueNumbers, NumbersUnique, Edited, ClearOfKept, IsOutput;
    InputsArePresent(levels, p);
    if FlushClear(Some(p), level, f) {
      FlushKeepsPending(levels, flushed, p, level, f);
      forall input, outs, after | IsOutput(p, input, outs) && InstalledAs(flushed, after, p.c, outs) ensures WellFormed(after) {
        InstallFits(flushed, after, p, input, outs);
      }
    } else if EveryInstallFits(flushed, p) {
      FlushedStays(levels, flushed, p, level, f);
      OneOutputCollides(flushed, p, f, nextFile, pendingOutputs);
    }
  }

  lemma FlushedStays(levels: Levels, flushed: Levels, p: Pending, level: nat, f: File)
    requires level < NUM_LEVELS && Edited(levels, flushed, NO_FILES, Added(level, [f])) && PendingOk(levels, p)
    requires forall l, g :: 0 <= l < NUM_LEVELS && g in levels[l] ==> Newer(f.entries, g.entries)
    ensures f in flushed[level] && InputsPresent(flushed, p.c) && f !in p.c.Inputs()
  {
    hide Newer;
    forall l: nat, g | l < NUM_LEVELS ensures g in flushed[l] <==> g in levels[l] || (l == level && g == f) {
      assert LevelEdit(levels[l], flushed[l], NO_FILES[l], Added(level, [f])[l]);
    }
    NotNewerThanItself(f);
  }

  lemma NotNewerThanItself(f: File)
    ensures !Newer(f.entries, f.entries)
  {
    assert f.entries[0] in f.entries;
  }

  // A single output file spans a table that is not clear of it.
  lemma OneOutputCollides(levels: Levels, p: Pending, f: File, nextFile: nat, pendingOutputs: set<nat>)
    requires WellFormed(levels) && Ordered(levels[0]) && NumbersOk(levels, nextFile, pendingOutputs)
    requires UniqueNumbers(Contents(levels)) && p.c.level + 1 < NUM_LEVELS && InputsPresent(levels, p.c) && p.smallestSnapshot < MAX_SEQUENCE_NUMBER
    requires EveryInstallFits(levels, p) && f in levels[p.c.level + 1] && f !in p.c.Inputs()
    ensures ClearOfKept(f, p.Merged())
  {
    hide WellFormed, UniqueNumbers, NumbersUnique, ClearOfKept, Edited, Survives, Kept, IsOutput, ApplyEdit, InstallEdit, Ordered;
    var input := MergedRuns(p.c.Inputs());
    InputsStored(levels, p.c);
    MergedRunsSorted(p.c.Inputs(), Contents(levels));
    var kept := Kept(input, |input|, p.smallestSnapshot, p.base, p.c.level);
    KeptIsSurvivors(p.Merged(), input);
    KeptIsSorted(input, |input|, p.smallestSnapshot, p.base, p.c.level);
    if |kept| == 0 {
      ClearOfNothing(f, p.Merged());
    } else {
      var o: File := FileMeta(nextFile, 0, kept);
      var after := ApplyEdit(levels, InstallEdit(p.c, [o]));
      OneOutput(levels, p, o, nextFile, pendingOutputs);
      OneFileIsOutput(p, input, o);
      assert InstalledAs(levels, after, p.c, [o]);
      assert WellFormed(after);
      BesideOutput(after, p.c.level + 1, p.Merged(), o, f);
    }
  }

  lemma OneFileIsOutput(p: Pending, input: Run, o: File)
    requires IsMergedInput(p.c, input) && o.entries == Kept(input, |input|, p.smallestSnapshot, p.base, p.c.level)
    ensures IsOutput(p, input, [o])
  {
    assert RunsOf([o]) == [o.entries] by { assert [o][..0] == []; }
    assert Flatten([o.entries]) == o.entries by { assert [o.entries][..0] == []; }
  }

  lemma ClearOfNothing(f: File, m: Merge)
    requires forall y :: !Survives(m, y)
    ensures ClearOfKept(f, m)
  {
  }

  lemma OneOutput(levels: Levels, p: Pending, o: File, nextFile: nat, pendingOutputs: set<nat>)
    requires WellFormed(levels) && Ordered(levels[0]) && NumbersOk(levels, nextFile, pendingOutputs) && o.number == nextFile
    requires p.c.level + 1 < NUM_LEVELS && InputsPresent(levels, p.c)
    ensures var after := ApplyEdit(levels, InstallEdit(p.c, [o]));
      && Edited(levels, after, Removed(p.c), Added(p.c.level + 1, [o])) && NumbersUnique(after) && o in after[p.c.level + 1]
      && (forall f :: f in levels[p.c.level + 1] && f !in p.c.Inputs() ==> f in after[p.c.level + 1] && f != o)
  {
    hide WellFormed, Ordered;
    var more := pendingOutputs + {nextFile};
    assert NumbersOk(levels, nextFile + 1, more) by {
      assert forall l :: 0 <= l < NUM_LEVELS ==> NumbersBelow(levels[l], nextFile, pendingOutputs);
    }
    InstallIsEdit(levels, p.c, [o], nextFile + 1, more);
    var after := ApplyEdit(levels, InstallEdit(p.c, [o]));
    InstallMembers(levels, after, p.c, [o]);
    InstallNumbers(levels, after, p.c, [o], nextFile + 1, more);
    forall f | f in levels[p.c.level + 1] && f !in p.c.Inputs() ensures f in after[p.c.level + 1] && f != o {
      assert NumbersBelow(levels[p.c.level + 1], nextFile, pendingOutputs);
      assert StaysIn(levels, p.c, p.c.level + 1, f);
    }
  }

  lemma BesideOutput(after: Levels, l: nat, m: Merge, o: File, f: File)
    requires 1 <= l < NUM_LEVELS && WellFormed(after) && o in after[l] && f in after[l] && o != f
    requires forall y :: Survives(m, y) <==> y in o.entries
    ensures ClearOfKept(f, m)
  {
    SeparatedInLevel(after[l], o, f);
    assert AllSorted(after[l]);
    forall y | y in o.entries ensures (y == o.Small() || Before(o.Small(), y)) && (y == o.Large() || Before(y, o.Large())) {
      WithinBounds(o, y);
    }
  }
}
