// NewInternalIterator and NewIterator: what the iterators over memtables,
// table files and levels show together, read against the write history.

module DbScan {
  import opened Wrappers
  import opened Entries
  import opened Files
  import opened CompactionWork
  import opened DbState
  import opened DbLevels
  import opened DbCompaction
  import opened DbMachine
  import opened Cursors
  import Merger
  import DbIter

  // ---------------------------------------------------- the merged sources

  // The levels from l on, each as one concatenation, without the empty ones.
  function DeepSources(levels: Levels, l: nat): seq<Run>
    requires 1 <= l <= NUM_LEVELS
    decreases NUM_LEVELS - l
  {
    if l == NUM_LEVELS then []
    else (if levels[l] == [] then [] else [Flatten(RunsOf(levels[l]))]) + DeepSources(levels, l + 1)
  }

  // The memtables, every file of level 0, and the deeper levels.
  function Sources(mem: Run, imm: Option<Run>, levels: Levels): seq<Run> {
    [mem] + (if imm.Some? then [imm.value] else []) + (RunsOf(levels[0]) + DeepSources(levels, 1))
  }

  ghost function RunEntries(runs: seq<Run>): set<Entry> {
    set r, e | r in runs && e in r :: e
  }

  ghost predicate AllRunsSorted(runs: seq<Run>) {
    forall i :: 0 <= i < |runs| ==> Sorted(runs[i])
  }

  // No entry is in two of the runs.
  ghost predicate AllApart(runs: seq<Run>) {
    forall i, j, e :: 0 <= i < j < |runs| && e in runs[i] ==> e !in runs[j]
  }

  // Runs that a merging iterator can merge.
  ghost predicate Mergeable(runs: seq<Run>) {
    AllRunsSorted(runs) && AllApart(runs)
  }

  lemma MergeableConcat(a: seq<Run>, b: seq<Run>)
    requires Mergeable(a) && Mergeable(b) && RunEntries(a) !! RunEntries(b)
    ensures Mergeable(a + b)
  {
    var ab := a + b;
    forall i, j, e | 0 <= i < j < |ab| && e in ab[i] ensures e !in ab[j] {
      if i < |a| <= j {
        assert a[i] in a && b[j - |a|] in b;
        assert e in RunEntries(a);
      } else if j < |a| {
        assert e in a[i];
      } else {
        assert e in b[i - |a|];
      }
    }
  }

  lemma EntriesOfConcat(a: seq<Run>, b: seq<Run>)
    ensures RunEntries(a + b) == RunEntries(a) + RunEntries(b)
  {
  }

  lemma OneRun(r: Run)
    requires Sorted(r)
    ensures Mergeable([r]) && RunEntries([r]) == ToSet(r)
  {
    assert r in [r];
  }

  lemma NoRuns()
    ensures Mergeable([]) && RunEntries([]) == {}
  {
  }

  // ---------------------------------------------------------- table files

  lemma {:induction false} RunsOfFiles(files: seq<File>)
    ensures |RunsOf(files)| == |files| && forall i :: 0 <= i < |files| ==> RunsOf(files)[i] == files[i].entries
  {
    if |files| > 0 { RunsOfFiles(files[..|files| - 1]); }
  }

  lemma FilesAreSources(files: seq<File>)
    ensures RunEntries(RunsOf(files)) == FileEntries(files)
  {
    RunsOfFiles(files);
    var runs := RunsOf(files);
    forall e ensures e in RunEntries(runs) <==> e in FileEntries(files) {
      if e in FileEntries(files) {
        var f :| f in files && e in f.entries;
        var i :| 0 <= i < |files| && files[i] == f;
        assert runs[i] in runs;
      }
      if e in RunEntries(runs) {
        var r :| r in runs && e in r;
        var i :| 0 <= i < |runs| && runs[i] == r;
        assert files[i] in files;
      }
    }
  }

  lemma Level0IsMergeable(levels: Levels)
    requires WellFormed(levels)
    ensures Mergeable(RunsOf(levels[0]))
  {
    var files := levels[0];
    RunsOfFiles(files);
    forall i | 0 <= i < |files| ensures Sorted(RunsOf(files)[i]) { assert files[i] in files; }
    forall i, j, e | 0 <= i < j < |files| && e in files[i].entries ensures e !in files[j].entries {
      assert files[i] in files && files[j] in files;
      NotInOtherFile(levels, 0, files[i], files[j], e);
    }
  }

  // The files of a deeper level make one sorted run.
  lemma {:induction false} LevelIsSorted(files: seq<File>)
    requires LevelSorted(files)
    ensures Sorted(Flatten(RunsOf(files))) && ToSet(Flatten(RunsOf(files))) == FileEntries(files)
  {
    if |files| > 0 {
      var front, last := files[..|files| - 1], files[|files| - 1];
      assert files == front + [last];
      assert forall f :: f in front ==> f in files;
      LevelIsSorted(front);
      FilesOfMore(front, last);
      FlattenSnoc(RunsOf(front), last.entries);
      var a, b := Flatten(RunsOf(front)), last.entries;
      forall x, y | x in a && y in b ensures Before(x, y) { InEarlierFile(files, x, y); }
      ConcatIsSorted(a, b);
    }
  }

  lemma InEarlierFile(files: seq<File>, x: Entry, y: Entry)
    requires LevelSorted(files) && |files| > 0
    requires x in FileEntries(files[..|files| - 1]) && y in files[|files| - 1].entries
    ensures Before(x, y)
  {
    var f :| f in files[..|files| - 1] && x in f.entries;
    var i :| 0 <= i < |files| - 1 && files[i] == f;
    assert Before(files[i].Large(), files[|files| - 1].Small());
    WithinBounds(f, x);
    WithinBounds(files[|files| - 1], y);
  }

  lemma ConcatIsSorted(a: Run, b: Run)
    requires Sorted(a) && Sorted(b) && forall x, y :: x in a && y in b ==> Before(x, y)
    ensures Sorted(a + b) && ToSet(a + b) == ToSet(a) + ToSet(b)
  {
  }

  ghost function ContentsFrom(levels: Levels, l: nat): set<Entry> {
    set j, e | l <= j < NUM_LEVELS && e in FileEntries(levels[j]) :: e
  }

  lemma LevelsApart(levels: Levels, i: nat, j: nat)
    requires WellFormed(levels) && i < j < NUM_LEVELS
    ensures FileEntries(levels[i]) !! FileEntries(levels[j])
  {
    forall e | e in FileEntries(levels[i]) ensures e !in FileEntries(levels[j]) {
      var f :| f in levels[i] && e in f.entries;
      forall g | g in levels[j] ensures e !in g.entries { NotInOtherLevel(levels, i, f, j, g, e); }
    }
  }

  lemma {:induction false} DeepIsMergeable(levels: Levels, l: nat)
    requires WellFormed(levels) && 1 <= l <= NUM_LEVELS
    ensures Mergeable(DeepSources(levels, l)) && RunEntries(DeepSources(levels, l)) == ContentsFrom(levels, l)
    decreases NUM_LEVELS - l
  {
    hide WellFormed, Mergeable, FileEntries;
    if l == NUM_LEVELS {
      NoRuns();
    } else {
      DeepIsMergeable(levels, l + 1);
      OneMoreLevel(levels, l);
      var first := if levels[l] == [] then [] else [Flatten(RunsOf(levels[l]))];
      LevelSource(levels, l, first);
      forall j: nat | l < j < NUM_LEVELS ensures FileEntries(levels[l]) !! FileEntries(levels[j]) { LevelsApart(levels, l, j); }
      MergeableConcat(first, DeepSources(levels, l + 1));
      EntriesOfConcat(first, DeepSources(levels, l + 1));
    }
  }

  lemma OneMoreLevel(levels: Levels, l: nat)
    requires l < NUM_LEVELS
    ensures ContentsFrom(levels, l) == FileEntries(levels[l]) + ContentsFrom(levels, l + 1)
  {
    hide FileEntries;
    forall e ensures e in ContentsFrom(levels, l) <==> e in FileEntries(levels[l]) || e in ContentsFrom(levels, l + 1) {
    }
  }

  lemma LevelSource(levels: Levels, l: nat, first: seq<Run>)
    requires WellFormed(levels) && 1 <= l < NUM_LEVELS
    requires first == if levels[l] == [] then [] else [Flatten(RunsOf(levels[l]))]
    ensures Mergeable(first) && RunEntries(first) == FileEntries(levels[l])
  {
    assert LevelSorted(levels[l]);
    LevelIsSorted(levels[l]);
    if levels[l] == [] {
      NoRuns();
      assert FileEntries(levels[l]) == {};
    } else {
      OneRun(first[0]);
    }
  }

  lemma LevelsAreMergeable(levels: Levels)
    requires WellFormed(levels)
    ensures var runs := RunsOf(levels[0]) + DeepSources(levels, 1);
      Mergeable(runs) && RunEntries(runs) == Contents(levels)
  {
    hide WellFormed, Mergeable, FileEntries, RunsOf;
    Level0IsMergeable(levels);
    FilesAreSources(levels[0]);
    DeepIsMergeable(levels, 1);
    forall j: nat | 0 < j < NUM_LEVELS ensures FileEntries(levels[0]) !! FileEntries(levels[j]) { LevelsApart(levels, 0, j); }
    MergeableConcat(RunsOf(levels[0]), DeepSources(levels, 1));
    EntriesOfConcat(RunsOf(levels[0]), DeepSources(levels, 1));
    assert ContentsFrom(levels, 0) == Contents(levels);
    OneMoreLevel(levels, 0);
  }

  // ------------------------------------------------------- the whole state

  // Every entry there is.
  ghost function AllEntries(s: State): set<Entry> {
    ToSet(s.mem) + (if s.imm.Some? then ToSet(s.imm.value) else {}) + Contents(s.levels)
  }

  lemma PlacesApart(s: State)
    requires Inv(s)
    ensures ToSet(s.mem) !! Contents(s.levels)
    ensures s.imm.Some? ==> ToSet(s.mem) !! ToSet(s.imm.value) && ToSet(s.imm.value) !! Contents(s.levels)
  {
    var m, i := Flatten(s.memGroups), Flatten(s.immGroups);
    PartsOfHistory(s.flushed + i, m);
    PartsOfHistory(s.flushed, i);
    forall x | x in ToSet(s.mem) ensures x !in s.flushed + i {
      if x in ToSet(s.inflight[..s.applied]) {
        assert forall y :: y in s.flushed + i ==> y in s.History() && y.sn <= s.lastSequence;
      }
    }
    assert forall x :: x in ToSet(i) ==> x in s.flushed + i;
  }

  // The iterators that the code collects can be merged, and the merge is all
  // there is.
  lemma SourcesAreMergeable(s: State)
    requires Inv(s)
    ensures Mergeable(Sources(s.mem, s.imm, s.levels)) && RunEntries(Sources(s.mem, s.imm, s.levels)) == AllEntries(s)
  {
    hide WellFormed, Mergeable, RunEntries, RunsOf, DeepSources, Contents, HistoryOk, CompactionOk, NumbersOk, AnswersFrom;
    PlacesApart(s);
    LevelsAreMergeable(s.levels);
    var deep := RunsOf(s.levels[0]) + DeepSources(s.levels, 1);
    OneRun(s.mem);
    if s.imm.Some? {
      OneRun(s.imm.value);
      EntriesOfConcat([s.mem], [s.imm.value]);
      MergeableConcat([s.mem], [s.imm.value]);
      EntriesOfConcat([s.mem] + [s.imm.value], deep);
      MergeableConcat([s.mem] + [s.imm.value], deep);
    } else {
      assert [s.mem] + [] == [s.mem];
      EntriesOfConcat([s.mem], deep);
      MergeableConcat([s.mem], deep);
    }
  }

  lemma AnswersWithUnpublished(es: set<Entry>, tooNew: set<Entry>, k: UserKey, sn: nat, r: Option<Value>)
    requires forall e :: e in tooNew ==> e.sn > sn
    ensures Answer(es + tooNew, k, sn, r) <==> Answer(es, k, sn, r)
  {
    assert forall e :: IsNewest(es + tooNew, k, sn, e) <==> IsNewest(es, k, sn, e);
  }

  // All entries together answer like the history.
  lemma AllAnswer(s: State, k: UserKey, sn: nat)
    requires Inv(s) && s.horizon <= sn <= s.lastSequence
    ensures Answer(AllEntries(s), k, sn, Read(s.History(), k, sn))
  {
    hide Answer, WellFormed, Read, NumbersOk, CompactionOk;
    var m, i, tooNew := Flatten(s.memGroups), Flatten(s.immGroups), ToSet(s.inflight[..s.applied]);
    PartsOfHistory(s.flushed + i, m);
    AnswersWithNewer(Contents(s.levels), s.flushed, Contents(s.levels) + ToSet(i), i, s.horizon);
    StoredInHistory(Contents(s.levels), s.flushed, i);
    AnswersWithNewer(Contents(s.levels) + ToSet(i), s.flushed + i, Contents(s.levels) + ToSet(i) + ToSet(m), m, s.horizon);
    assert AllEntries(s) == Contents(s.levels) + ToSet(i) + ToSet(m) + tooNew;
    AnswersWithUnpublished(Contents(s.levels) + ToSet(i) + ToSet(m), tooNew, k, sn, Read(s.History(), k, sn));
  }

  lemma StoredInHistory(es: set<Entry>, h: seq<Entry>, g: seq<Entry>)
    requires es <= ToSet(h)
    ensures es + ToSet(g) <= ToSet(h + g)
  {
  }

  lemma AllAreUnique(s: State)
    requires Inv(s)
    ensures UniqueNumbers(AllEntries(s))
  {
    PartsOfHistory(s.History(), []);
    assert s.History() + [] == s.History();
    forall x | x in AllEntries(s) ensures x in ToSet(s.History()) || x in ToSet(s.inflight) {
    }
    assert forall x :: x in ToSet(s.History()) ==> x.sn <= s.lastSequence;
    assert forall x :: x in ToSet(s.inflight) ==> x.sn > s.lastSequence;
  }

  // A database iterator shows exactly the keys that a read of the history
  // finds, with those values, each once and in ascending order.
  lemma ScanReadsHistory(s: State, merged: Run, sn: nat)
    requires Inv(s) && s.horizon <= sn <= s.lastSequence
    requires Sorted(merged) && ToSet(merged) == AllEntries(s)
    ensures forall k, v :: DbIter.Pair(k, v) in DbIter.View(merged, sn) <==> Read(s.History(), k, sn) == Some(v)
    ensures var view := DbIter.View(merged, sn); forall i, j :: 0 <= i < j < |view| ==> view[i].key < view[j].key
  {
    hide DbIter.View, Inv, AllEntries;
    AllAreUnique(s);
    forall k, v ensures DbIter.Pair(k, v) in DbIter.View(merged, sn) <==> Read(s.History(), k, sn) == Some(v) {
      DbIter.ViewIsAnswers(merged, sn, k, v);
      AllAnswer(s, k, sn);
      OnlyAnswer(AllEntries(s), k, sn, Read(s.History(), k, sn), Some(v));
    }
    ViewAscends(merged, sn);
  }

  lemma OnlyAnswer(es: set<Entry>, k: UserKey, sn: nat, r: Option<Value>, r': Option<Value>)
    requires UniqueNumbers(es) && Answer(es, k, sn, r)
    ensures Answer(es, k, sn, r') <==> r == r'
  {
    if Answer(es, k, sn, r') { AnswerIsUnique(es, k, sn, r, r'); }
  }

  lemma ViewAscends(merged: Run, sn: nat)
    requires Sorted(merged)
    ensures var view := DbIter.View(merged, sn); forall i, j :: 0 <= i < j < |view| ==> view[i].key < view[j].key
  {
    DbIter.ViewIsOrdered(merged, sn, |merged|);
  }

  // The same in every state any run reaches, at the last sequence number and
  // at every live snapshot.
  lemma ScanIsRightInEveryReachableState(actions: seq<Action>, t: State, merged: Run, sn: nat)
    requires RunsTo(Empty(), actions, t) && (sn == t.lastSequence || sn in t.snapshots)
    requires Sorted(merged) && ToSet(merged) == AllEntries(t)
    ensures forall k, v :: DbIter.Pair(k, v) in DbIter.View(merged, sn) <==> Read(t.History(), k, sn) == Some(v)
    ensures var view := DbIter.View(merged, sn); forall i, j :: 0 <= i < j < |view| ==> view[i].key < view[j].key
  {
    hide Inv, AllEntries, DbIter.View;
    EmptyIsSafe();
    RunIsSafe(Empty(), actions, t);
    LiveIsReadable(t, sn);
    ScanReadsHistory(t, merged, sn);
  }

  // ------------------------------------------------------- the iterators

  // Version::AddIterators: every file of level 0 by itself, then one
  // concatenation for each deeper level that is not empty.
  method AddIterators(levels: Levels) returns (list: seq<Run>)
    ensures list == RunsOf(levels[0]) + DeepSources(levels, 1)
  {
    list := [];
    var i := 0;
    while i < |levels[0]|
      invariant i <= |levels[0]| && list == RunsOf(levels[0][..i])
    {
      assert levels[0][..i + 1][..i] == levels[0][..i];
      list := list + [levels[0][i].entries];
      i := i + 1;
    }
    assert levels[0][..i] == levels[0];
    hide RunsOf, DeepSources, Flatten;
    var level := 1;
    while level < NUM_LEVELS
      invariant 1 <= level <= NUM_LEVELS
      invariant list + DeepSources(levels, level) == RunsOf(levels[0]) + DeepSources(levels, 1)
    {
      NextDeepSource(list, levels, level);
      if |levels[level]| > 0 {
        list := list + [Flatten(RunsOf(levels[level]))];
      }
      level := level + 1;
    }
    NoDeepSource(list, levels);
  }

  lemma NextDeepSource(list: seq<Run>, levels: Levels, level: nat)
    requires 1 <= level < NUM_LEVELS
    ensures list + DeepSources(levels, level)
      == (if |levels[level]| > 0 then list + [Flatten(RunsOf(levels[level]))] else list) + DeepSources(levels, level + 1)
  {
    hide Flatten, RunsOf;
    if |levels[level]| > 0 { Associative(list, [Flatten(RunsOf(levels[level]))], DeepSources(levels, level + 1)); }
  }

  lemma Associative(a: seq<Run>, b: seq<Run>, c: seq<Run>)
    ensures a + (b + c) == a + b + c
  {
  }

  lemma NoDeepSource(list: seq<Run>, levels: Levels)
    ensures list + DeepSources(levels, NUM_LEVELS) == list
  {
  }

  // Each in an iterator of its own, under a merging iterator.
  method NewInternalIterator(mem: Run, imm: Option<Run>, levels: Levels, ghost s: State) returns (iter: Merger.MergingIterator)
    requires Inv(s) && mem == s.mem && imm == s.imm && levels == s.levels
    ensures fresh(iter) && iter.IsMerge() && iter.current == None
    ensures ToSet(iter.merged) == AllEntries(s)
  {
    hide Inv, Mergeable, RunEntries, AllEntries, DeepSources, RunsOf;
    var list := [mem];
    if imm.Some? { list := list + [imm.value]; }
    var tables := AddIterators(levels);
    list := list + tables;
    assert list == Sources(mem, imm, levels);
    SourcesAreMergeable(s);
    AllAreUnique(s);
    ghost var merged := MergeAll(list);
    MergeAllSorted(list, AllEntries(s));
    var children := NewCursors(list);
    iter := new Merger.MergingIterator(children, merged);
    ChildrenMerge(iter, list);
  }

  method NewCursors(list: seq<Run>) returns (children: seq<RunCursor>)
    ensures fresh(children) && |children| == |list|
    ensures forall i :: 0 <= i < |list| ==> children[i].list == list[i]
    ensures forall i, j :: 0 <= i < j < |children| ==> children[i] != children[j]
  {
    children := [];
    var i := 0;
    while i < |list|
      invariant i <= |list| && fresh(children) && |children| == i
      invariant forall j :: 0 <= j < i ==> children[j].list == list[j]
      invariant forall j, k :: 0 <= j < k < i ==> children[j] != children[k]
    {
      var child := new RunCursor(list[i]);
      children := children + [child];
      i := i + 1;
    }
  }

  ghost function MergeAll(runs: seq<Run>): Run {
    if |runs| == 0 then [] else AddRun(MergeAll(runs[..|runs| - 1]), runs[|runs| - 1])
  }

  lemma {:induction false} MergeAllSorted(runs: seq<Run>, all: set<Entry>)
    requires UniqueNumbers(all) && RunEntries(runs) <= all
    ensures Sorted(MergeAll(runs)) && ToSet(MergeAll(runs)) == RunEntries(runs)
  {
    if |runs| > 0 {
      var front, last := runs[..|runs| - 1], runs[|runs| - 1];
      assert runs == front + [last];
      EntriesOfConcat(front, [last]);
      assert RunEntries([last]) == ToSet(last) by { assert last in [last]; }
      MergeAllSorted(front, all);
      AddRunSorted(MergeAll(front), last);
    }
  }

  lemma ChildrenMerge(iter: Merger.MergingIterator, list: seq<Run>)
    requires Mergeable(list) && Sorted(iter.merged) && ToSet(iter.merged) == RunEntries(list)
    requires |iter.children| == |list| && forall i :: 0 <= i < |list| ==> iter.children[i].list == list[i]
    requires forall i, j :: 0 <= i < j < |iter.children| ==> iter.children[i] != iter.children[j]
    ensures iter.IsMerge()
  {
    forall i | 0 <= i < |list| ensures Merger.PartOf(list[i], iter.merged) {
      forall j | 0 <= j < |list[i]| ensures list[i][j] in iter.merged {
        assert list[i] in list && list[i][j] in list[i];
        assert list[i][j] in RunEntries(list);
      }
    }
    forall e | e in iter.merged ensures exists i :: 0 <= i < |list| && e in list[i] {
      assert e in RunEntries(list);
    }
  }
}
