// Where the conditions of the machine matter: whole runs, from an empty
// database on, in which the code meets none of them and a read goes wrong.

module CodeRuns {
  import opened Wrappers
  import opened Entries
  import opened Files
  import opened VersionBuilder
  import opened CompactionInputs
  import opened CompactionWork
  import opened DbState
  import opened DbLevels
  import opened DbCompaction
  import opened DbMachine

  // When the code itself takes the step: a flush looks at the version only, and
  // a move or a pick only at the files it chooses.
  ghost predicate EnabledInCode(s: State, a: Action) {
    match a
    case FlushMem(level, f) =>
      s.imm.Some? && f.entries == s.imm.value && f.number == s.nextFile && PlacedBy(s.levels, level, f)
    case MoveFile(c, f) => s.pending == None && ChosenFrom(s.levels, c) && c.inputs0 == [f] && c.inputs1 == []
    case PickInputs(c) => s.pending == None && ChosenFrom(s.levels, c)
    case _ => Enabled(s, a)
  }

  ghost predicate RunsInCode(s: State, actions: seq<Action>, t: State)
    decreases |actions|
  {
    if |actions| == 0 then s == t
    else EnabledInCode(s, actions[0]) && RunsInCode(Perform(s, actions[0]), actions[1..], t)
  }

  lemma {:induction false} RunThenRun(s: State, xs: seq<Action>, m: State, ys: seq<Action>, t: State)
    requires RunsInCode(s, xs, m) && RunsInCode(m, ys, t)
    ensures RunsInCode(s, xs + ys, t)
    decreases |xs|
  {
    if |xs| == 0 {
      assert xs + ys == ys;
    } else {
      RunThenRun(Perform(s, xs[0]), xs[1..], m, ys, t);
      assert (xs + ys)[1..] == xs[1..] + ys;
    }
  }

  lemma OneAction(s: State, a: Action)
    requires EnabledInCode(s, a)
    ensures RunsInCode(s, [a], Perform(s, a))
  {
    assert [a][1..] == [];
    assert RunsInCode(Perform(s, a), [], Perform(s, a));
  }

  // ------------------------------------- a group that goes to a table file

  function InsertAll(r: Run, group: Run): Run
    decreases group
  {
    if |group| == 0 then r else InsertAll(Insert(r, group[0]), group[1..])
  }

  function Inserts(n: nat): seq<Action> {
    if n == 0 then [] else [InsertNext] + Inserts(n - 1)
  }

  // Written, switched away from, and flushed to the level.
  function Store(group: Run, level: nat, f: File): seq<Action> {
    [BeginWrite(group)] + Inserts(|group|) + [PublishWrite] + [SwitchMem] + [FlushMem(level, f)]
  }

  function Stored(s: State, group: Run, level: nat, f: File): State {
    s.(levels := ApplyEdit(s.levels, FlushEdit(level, f)), lastSequence := s.lastSequence + |group|,
       flushed := s.flushed + group, nextFile := s.nextFile + 2)
  }

  // No write is under way and the memtables are empty.
  predicate Quiet(s: State) {
    s.mem == [] && s.imm == None && s.immGroups == [] && s.memGroups == [] && s.inflight == [] && s.applied == 0
  }

  lemma {:induction false} InsertsRun(s: State, n: nat)
    requires s.applied + n == |s.inflight|
    ensures RunsInCode(s, Inserts(n), s.(mem := InsertAll(s.mem, s.inflight[s.applied..]), applied := |s.inflight|))
    decreases n
  {
    if n > 0 {
      var rest := s.inflight[s.applied..];
      InsertsRun(ApplyNext(s), n - 1);
      assert rest[1..] == s.inflight[s.applied + 1..];
      OneAction(s, InsertNext);
      RunThenRun(s, [InsertNext], ApplyNext(s), Inserts(n - 1),
                 s.(mem := InsertAll(s.mem, rest), applied := |s.inflight|));
    }
  }

  lemma WriteRuns(s: State, group: Run)
    requires Quiet(s) && NumberedAfter(group, s.lastSequence)
    ensures RunsInCode(s, [BeginWrite(group)] + Inserts(|group|) + [PublishWrite],
      s.(mem := InsertAll([], group), lastSequence := s.lastSequence + |group|, memGroups := [group]))
  {
    hide InsertAll, Inserts, RunsInCode, NumberedAfter, Flatten;
    var begun := BeginGroup(s, group);
    var inserted := begun.(mem := InsertAll([], group), applied := |group|);
    OneAction(s, BeginWrite(group));
    assert group[0..] == group;
    InsertsRun(begun, |group|);
    RunThenRun(s, [BeginWrite(group)], begun, Inserts(|group|), inserted);
    OneAction(inserted, PublishWrite);
    PublishedIs(s, inserted, group);
    RunThenRun(s, [BeginWrite(group)] + Inserts(|group|), inserted, [PublishWrite], Perform(inserted, PublishWrite));
  }

  lemma PublishedIs(s: State, inserted: State, group: Run)
    requires Quiet(s) && inserted == s.(mem := InsertAll([], group), inflight := group, applied := |group|)
    ensures Perform(inserted, PublishWrite)
      == s.(mem := InsertAll([], group), lastSequence := s.lastSequence + |group|, memGroups := [group])
  {
    hide InsertAll;
  }

  lemma StoreRuns(s: State, group: Run, level: nat, f: File)
    requires Quiet(s) && NumberedAfter(group, s.lastSequence)
    requires f.entries == InsertAll([], group) && f.number == s.nextFile + 1 && PlacedBy(s.levels, level, f)
    ensures RunsInCode(s, Store(group, level, f), Stored(s, group, level, f)) && Quiet(Stored(s, group, level, f))
  {
    hide InsertAll, Inserts, ApplyEdit, PlacedBy;
    var xs := [BeginWrite(group)] + Inserts(|group|) + [PublishWrite];
    var written := s.(mem := InsertAll([], group), lastSequence := s.lastSequence + |group|, memGroups := [group]);
    WriteRuns(s, group);
    var switched := Perform(written, SwitchMem);
    OneAction(written, SwitchMem);
    RunThenRun(s, xs, written, [SwitchMem], switched);
    OneAction(switched, FlushMem(level, f));
    RunThenRun(s, xs + [SwitchMem], switched, [FlushMem(level, f)], Perform(switched, FlushMem(level, f)));
    FlattenOne(group);
  }

  lemma FlattenOne(group: Run)
    ensures Flatten([group]) == group
  {
    assert [group][..0] == [];
  }

  // --------------------------------------------------- what an edit leaves

  ghost predicate GivesAt(files: seq<File>, edit: VersionEdit, l: nat, after: seq<File>) {
    && Ordered(files) && Ordered(after) && FreshAt(Numbers(files), AddedAt(edit.newFiles, l))
    && forall g :: g in after <==> g in AddedAt(edit.newFiles, l) || (g in files && g.number !in DeletedAt(edit, l))
  }

  lemma EditGives(levels: Levels, edit: VersionEdit, after: Levels)
    requires forall l :: 0 <= l < NUM_LEVELS ==> GivesAt(levels[l], edit, l, after[l])
    ensures ApplyEdit(levels, edit) == after
  {
    hide ApplyEdit;
    var done := ApplyEdit(levels, edit);
    forall l: nat | l < NUM_LEVELS ensures done[l] == after[l] {
      assert GivesAt(levels[l], edit, l, after[l]);
      EditedLevel(levels, edit, l);
      OrderedListsWithSameMembers(done[l], after[l]);
    }
  }

  lemma FlushGives(levels: Levels, level: nat, f: File, after: seq<File>)
    requires level < NUM_LEVELS && (forall l :: 0 <= l < NUM_LEVELS ==> Ordered(levels[l])) && Ordered(after)
    requires f.number !in Numbers(levels[level]) && forall g :: g in after <==> g == f || g in levels[level]
    ensures ApplyEdit(levels, FlushEdit(level, f)) == levels[level := after]
  {
    hide ApplyEdit;
    forall l: nat | l < NUM_LEVELS ensures GivesAt(levels[l], FlushEdit(level, f), l, levels[level := after][l]) {
      SingleFile(level, f, l);
      assert DeletedAt(FlushEdit(level, f), l) == {};
    }
    EditGives(levels, FlushEdit(level, f), levels[level := after]);
  }

  lemma MoveGives(levels: Levels, level: nat, f: File, left: seq<File>, after: seq<File>)
    requires level + 1 < NUM_LEVELS && (forall l :: 0 <= l < NUM_LEVELS ==> Ordered(levels[l]))
    requires Ordered(left) && Ordered(after) && f.number !in Numbers(levels[level + 1])
    requires forall g :: g in left <==> g in levels[level] && g.number != f.number
    requires forall g :: g in after <==> g == f || g in levels[level + 1]
    ensures ApplyEdit(levels, MoveEdit(level, f)) == levels[level := left][level + 1 := after]
  {
    hide ApplyEdit;
    var all := levels[level := left][level + 1 := after];
    var edit := MoveEdit(level, f);
    forall l: nat | l < NUM_LEVELS ensures GivesAt(levels[l], edit, l, all[l]) {
      SingleFile(level + 1, f, l);
      assert (level, f.number) in edit.deletedFiles;
      assert DeletedAt(edit, l) == if l == level then {f.number} else {};
    }
    EditGives(levels, edit, all);
  }

  lemma InstallGives(levels: Levels, c: Compaction, outs: seq<File>, left: seq<File>, after: seq<File>)
    requires c.level + 1 < NUM_LEVELS && (forall l :: 0 <= l < NUM_LEVELS ==> Ordered(levels[l]))
    requires Ordered(left) && Ordered(after) && DistinctNumbers(outs)
    requires forall f :: f in outs ==> f.number !in Numbers(levels[c.level + 1])
    requires forall g :: g in left <==> g in levels[c.level] && g.number !in Numbers(c.inputs0)
    requires forall g :: g in after <==> g in outs || (g in levels[c.level + 1] && g.number !in Numbers(c.inputs1))
    ensures ApplyEdit(levels, InstallEdit(c, outs)) == levels[c.level := left][c.level + 1 := after]
  {
    hide ApplyEdit, InstallEdit;
    var all := levels[c.level := left][c.level + 1 := after];
    forall l: nat | l < NUM_LEVELS ensures GivesAt(levels[l], InstallEdit(c, outs), l, all[l]) {
      InstallAdds(c, outs, l);
      DeletedByInstall(c, outs, l);
    }
    EditGives(levels, InstallEdit(c, outs), all);
  }

  lemma InstallAdds(c: Compaction, outs: seq<File>, l: nat)
    ensures AddedAt(InstallEdit(c, outs).newFiles, l) == if l == c.level + 1 then outs else []
  {
    NewFilesAt(c.level + 1, outs, l);
  }

  // ----------------------------------------------------- a whole compaction

  function Allocated(first: nat, n: nat): set<nat> {
    if n == 0 then {} else Allocated(first, n - 1) + {first + n - 1}
  }

  function Outputs(n: nat): seq<Action> {
    if n == 0 then [] else Outputs(n - 1) + [AllocateOutput]
  }

  lemma {:induction false} OutputsRun(s: State, n: nat)
    ensures RunsInCode(s, Outputs(n),
      s.(pendingOutputs := s.pendingOutputs + Allocated(s.nextFile, n), nextFile := s.nextFile + n))
  {
    if n == 0 {
      assert s.pendingOutputs + Allocated(s.nextFile, 0) == s.pendingOutputs;
    } else {
      OutputsRun(s, n - 1);
      var t := s.(pendingOutputs := s.pendingOutputs + Allocated(s.nextFile, n - 1), nextFile := s.nextFile + n - 1);
      OneAction(t, AllocateOutput);
      RunThenRun(s, Outputs(n - 1), t, [AllocateOutput], Perform(t, AllocateOutput));
      assert t.pendingOutputs + {t.nextFile} == s.pendingOutputs + Allocated(s.nextFile, n);
    }
  }

  function Begun(s: State, c: Compaction, n: nat): State {
    s.(pending := Some(Pending(c, s.levels, SmallestSnapshot(s))),
       pendingOutputs := s.pendingOutputs + Allocated(s.nextFile, n), nextFile := s.nextFile + n)
  }

  lemma PickRuns(s: State, c: Compaction, n: nat)
    requires s.pending == None && ChosenFrom(s.levels, c)
    ensures RunsInCode(s, [PickInputs(c)] + Outputs(n), Begun(s, c, n))
  {
    hide ChosenFrom, Outputs;
    OneAction(s, PickInputs(c));
    OutputsRun(BeginCompaction(s, c), n);
    RunThenRun(s, [PickInputs(c)], BeginCompaction(s, c), Outputs(n), Begun(s, c, n));
  }

  lemma FinishRuns(s: State, input: Run, outs: seq<File>)
    requires s.pending.Some? && IsOutput(s.pending.value, input, outs) && OutputNumbers(s.levels, outs, s.pendingOutputs)
    ensures RunsInCode(s, [FinishCompaction(input, outs)],
                       Install(s, ApplyEdit(s.levels, InstallEdit(s.pending.value.c, outs)), outs))
  {
    hide ApplyEdit, InstallEdit, IsOutput;
    OneAction(s, FinishCompaction(input, outs));
  }

  // ---------------------------------------------- the same, level by level

  lemma StoreGives(s: State, group: Run, level: nat, f: File, after: seq<File>)
    requires Quiet(s) && NumberedAfter(group, s.lastSequence) && level < NUM_LEVELS
    requires f.entries == InsertAll([], group) && f.number == s.nextFile + 1 && PlacedBy(s.levels, level, f)
    requires (forall l :: 0 <= l < NUM_LEVELS ==> Ordered(s.levels[l])) && Ordered(after)
    requires f.number !in Numbers(s.levels[level]) && forall g :: g in after <==> g == f || g in s.levels[level]
    ensures RunsInCode(s, Store(group, level, f),
      s.(levels := s.levels[level := after], lastSequence := s.lastSequence + |group|, flushed := s.flushed + group,
         nextFile := s.nextFile + 2))
  {
    hide RunsInCode, Store, ApplyEdit, InsertAll, Ordered;
    FlushGives(s.levels, level, f, after);
    StoreRuns(s, group, level, f);
  }

  lemma MoveRuns(s: State, c: Compaction, f: File, left: seq<File>, after: seq<File>)
    requires s.pending == None && ChosenFrom(s.levels, c) && c.inputs0 == [f] && c.inputs1 == [] && c.level + 1 < NUM_LEVELS
    requires (forall l :: 0 <= l < NUM_LEVELS ==> Ordered(s.levels[l])) && Ordered(left) && Ordered(after)
    requires f.number !in Numbers(s.levels[c.level + 1])
    requires forall g :: g in left <==> g in s.levels[c.level] && g.number != f.number
    requires forall g :: g in after <==> g == f || g in s.levels[c.level + 1]
    ensures RunsInCode(s, [MoveFile(c, f)], s.(levels := s.levels[c.level := left][c.level + 1 := after]))
  {
    hide RunsInCode, ApplyEdit, Ordered, ChosenFrom;
    MoveGives(s.levels, c.level, f, left, after);
    OneAction(s, MoveFile(c, f));
  }

  lemma FinishGives(s: State, input: Run, outs: seq<File>, left: seq<File>, after: seq<File>)
    requires s.pending.Some? && IsOutput(s.pending.value, input, outs) && OutputNumbers(s.levels, outs, s.pendingOutputs)
    requires s.pending.value.c.level + 1 < NUM_LEVELS
    requires (forall l :: 0 <= l < NUM_LEVELS ==> Ordered(s.levels[l])) && Ordered(left) && Ordered(after)
    requires forall f :: f in outs ==> f.number !in Numbers(s.levels[s.pending.value.c.level + 1])
    requires forall g :: g in left <==> g in s.levels[s.pending.value.c.level] && g.number !in Numbers(s.pending.value.c.inputs0)
    requires forall g :: g in after <==>
      g in outs || (g in s.levels[s.pending.value.c.level + 1] && g.number !in Numbers(s.pending.value.c.inputs1))
    ensures RunsInCode(s, [FinishCompaction(input, outs)],
      s.(levels := s.levels[s.pending.value.c.level := left][s.pending.value.c.level + 1 := after], pending := None,
         horizon := s.pending.value.smallestSnapshot, pendingOutputs := s.pendingOutputs - Numbers(outs)))
  {
    hide RunsInCode, ApplyEdit, Ordered, IsOutput, InstallEdit;
    InstallGives(s.levels, s.pending.value.c, outs, left, after);
    FinishRuns(s, input, outs);
  }

  function Compact(c: Compaction, input: Run, outs: seq<File>): seq<Action> {
    [PickInputs(c)] + Outputs(|outs|) + [FinishCompaction(input, outs)]
  }

  // The state after a compaction that nothing came between.
  function Compacted(s: State, c: Compaction, n: nat, left: seq<File>, after: seq<File>): State
    requires c.level + 1 < NUM_LEVELS
  {
    s.(levels := s.levels[c.level := left][c.level + 1 := after], horizon := SmallestSnapshot(s), nextFile := s.nextFile + n)
  }

  lemma BegunOutputs(s: State, c: Compaction, outs: seq<File>)
    requires s.pendingOutputs == {} && DistinctNumbers(outs) && Numbers(outs) == Allocated(s.nextFile, |outs|)
    ensures Begun(s, c, |outs|).pendingOutputs == Numbers(outs) && OutputNumbers(s.levels, outs, Numbers(outs))
    ensures Numbers(outs) - Numbers(outs) == {}
  {
  }

  lemma FinishBegun(s: State, c: Compaction, begun: State, input: Run, outs: seq<File>, left: seq<File>, after: seq<File>)
    requires s.pending == None && IsOutput(Pending(c, s.levels, SmallestSnapshot(s)), input, outs)
    requires c.level + 1 < NUM_LEVELS && s.pendingOutputs == {} && OutputNumbers(s.levels, outs, Numbers(outs))
    requires begun == s.(pending := Some(Pending(c, s.levels, SmallestSnapshot(s))), pendingOutputs := Numbers(outs),
                         nextFile := s.nextFile + |outs|)
    requires (forall l :: 0 <= l < NUM_LEVELS ==> Ordered(s.levels[l])) && Ordered(left) && Ordered(after)
    requires forall f :: f in outs ==> f.number !in Numbers(s.levels[c.level + 1])
    requires forall g :: g in left <==> g in s.levels[c.level] && g.number !in Numbers(c.inputs0)
    requires forall g :: g in after <==> g in outs || (g in s.levels[c.level + 1] && g.number !in Numbers(c.inputs1))
    ensures RunsInCode(begun, [FinishCompaction(input, outs)], Compacted(s, c, |outs|, left, after))
  {
    hide RunsInCode, Ordered, IsOutput, SmallestSnapshot, OutputNumbers, Numbers;
    FinishGives(begun, input, outs, left, after);
    assert Numbers(outs) - Numbers(outs) == {};
  }

  lemma CompactGives(s: State, c: Compaction, input: Run, outs: seq<File>, left: seq<File>, after: seq<File>)
    requires s.pending == None && ChosenFrom(s.levels, c) && IsOutput(Pending(c, s.levels, SmallestSnapshot(s)), input, outs)
    requires c.level + 1 < NUM_LEVELS && s.pendingOutputs == {} && DistinctNumbers(outs)
    requires Numbers(outs) == Allocated(s.nextFile, |outs|)
    requires (forall l :: 0 <= l < NUM_LEVELS ==> Ordered(s.levels[l])) && Ordered(left) && Ordered(after)
    requires forall f :: f in outs ==> f.number !in Numbers(s.levels[c.level + 1])
    requires forall g :: g in left <==> g in s.levels[c.level] && g.number !in Numbers(c.inputs0)
    requires forall g :: g in after <==> g in outs || (g in s.levels[c.level + 1] && g.number !in Numbers(c.inputs1))
    ensures RunsInCode(s, Compact(c, input, outs), Compacted(s, c, |outs|, left, after))
  {
    hide RunsInCode, Ordered, ChosenFrom, IsOutput, Allocated, Outputs, SmallestSnapshot, DistinctNumbers, OutputNumbers, Numbers;
    PickRuns(s, c, |outs|);
    BegunOutputs(s, c, outs);
    FinishBegun(s, c, Begun(s, c, |outs|), input, outs, left, after);
    hide Begun, Compacted;
    RunThenRun(s, [PickInputs(c)] + Outputs(|outs|), Begun(s, c, |outs|), [FinishCompaction(input, outs)],
               Compacted(s, c, |outs|, left, after));
  }
}

module DbLimits {
  import opened Wrappers
  import opened Entries
  import opened Files
  import opened VersionSearch
  import opened VersionBuilder
  import opened OverlappingInputs
  import opened CompactionInputs
  import opened CompactionWork
  import opened LevelEdits
  import opened DbState
  import opened DbLevels
  import opened DbCompaction
  import opened DbMachine
  import opened CodeRuns

  function Table(number: nat, entries: Run): File
    requires |entries| > 0
  {
    FileMeta(number, |entries|, entries)
  }

  // Levels 1, 2 and 3 only.
  function Three(one: seq<File>, two: seq<File>, three: seq<File>): (r: Levels)
    ensures r[1] == one && r[2] == two && r[3] == three
    ensures r[0] == [] && forall l :: 4 <= l < NUM_LEVELS ==> r[l] == []
  {
    [[], one, two, three, [], [], []]
  }

  lemma ThreeWith(one: seq<File>, two: seq<File>, three: seq<File>, files: seq<File>)
    ensures Three(one, two, three)[1 := files] == Three(files, two, three)
    ensures Three(one, two, three)[2 := files] == Three(one, files, three)
    ensures Three(one, two, three)[3 := files] == Three(one, two, files)
    ensures NO_FILES == Three([], [], [])
  {
  }

  // Everything written is in table files and nothing is running.
  function Rest(levels: Levels, snapshots: seq<nat>, flushed: seq<Entry>, nextFile: nat, horizon: nat): State {
    State([], None, levels, |flushed|, snapshots, None, {}, nextFile, flushed, [], [], [], 0, horizon)
  }

  // ------------------------------------------------------- small evaluations

  lemma InsertOne(a: Entry)
    ensures InsertAll([], [a]) == [a]
  {
    assert [a][1..] == [];
    assert Insert([], a) == [a];
  }

  lemma InsertTwo(a: Entry, b: Entry)
    requires Before(a, b)
    ensures InsertAll([], [a, b]) == [a, b]
  {
    assert [a, b][1..] == [b] && [b][1..] == [];
    assert Insert([], a) == [a];
    assert SeekIndex([a][1..], b.key, b.sn) == 0;
    assert SeekIndex([a], b.key, b.sn) == 1;
    assert Insert([a], b) == [a, b];
    assert InsertAll([], [a, b]) == InsertAll([a], [b]) == InsertAll([a, b], []);
  }

  lemma OverlapOne(f: File, lo: Option<UserKey>, hi: Option<UserKey>)
    ensures Overlapping([f], lo, hi) == if InRange(f, lo, hi) then [f] else []
  {
    assert [f][..0] == [];
    assert Overlapping([], lo, hi) == [];
  }

  lemma OverlapTwo(f: File, g: File, lo: Option<UserKey>, hi: Option<UserKey>)
    ensures Overlapping([f, g], lo, hi) == (if InRange(f, lo, hi) then [f] else []) + (if InRange(g, lo, hi) then [g] else [])
  {
    assert [f, g][..1] == [f];
    OverlapOne(f, lo, hi);
  }

  lemma BoundsOfOne(f: File)
    requires Sorted(f.entries)
    ensures AreBounds([f], f.Small(), f.Large())
  {
    assert f in [f];
  }

  lemma BoundsOfTwo(f: File, g: File)
    requires Before(f.Small(), g.Small()) && Before(f.Large(), g.Large())
    ensures AreBounds([f, g], f.Small(), g.Large())
  {
    assert f in [f, g] && g in [f, g];
  }

  lemma RunsOfOne(f: File)
    ensures RunsOf([f]) == [f.entries] && Flatten(RunsOf([f])) == f.entries
  {
    assert [f][..0] == [];
    FlattenOne(f.entries);
  }

  lemma RunsOfTwo(f: File, g: File)
    ensures Flatten(RunsOf([f, g])) == f.entries + g.entries
  {
    RunsOfOne(f);
    assert [f, g][..1] == [f];
    FlattenSnoc([f.entries], g.entries);
  }

  lemma TwoAllocated(outs: seq<File>, first: nat)
    requires |outs| == 2 && outs[0].number == first && outs[1].number == first + 1
    ensures Numbers(outs) == Allocated(first, 2)
  {
    assert outs[0] in outs && outs[1] in outs;
    assert Allocated(first, 1) == {first};
  }

  lemma OneAllocated(f: File)
    ensures Numbers([f]) == Allocated(f.number, 1)
  {
    assert f in [f];
    assert Allocated(f.number, 0) == {};
  }

  lemma EntriesOfOne(f: File)
    ensures FileEntries([f]) == ToSet(f.entries)
  {
    assert f in [f];
  }

  lemma EntriesOfTwo(f: File, g: File)
    ensures FileEntries([f, g]) == ToSet(f.entries) + ToSet(g.entries)
  {
    assert f in [f, g] && g in [f, g];
    forall e ensures e in FileEntries([f, g]) <==> e in f.entries || e in g.entries {
    }
  }

  // ------------------------------------------- a user key over two files

  const OLD: Entry := Entry(2.0, 1, Put("old"))
  const ONE: Entry := Entry(1.0, 2, Put("one"))
  const GONE: Entry := Entry(2.0, 3, Deletion)
  const UNO: Entry := Entry(1.0, 4, Put("uno"))

  function F1(): File { Table(3, [OLD]) }
  function F2(): File { Table(5, [ONE, GONE]) }
  function F3(): File { Table(6, [ONE, GONE]) }
  function F4(): File { Table(7, [OLD]) }
  function Split(): Compaction { Compaction(1, [F2()], [F1()], []) }

  // A value, a snapshot that still needs it, a deletion that hides it; and a
  // compaction that puts the two into neighbouring files of level 2.
  function SplitKey(): seq<Action> {
    Store([OLD], 2, F1()) + [TakeSnapshot] + Store([ONE, GONE], 1, F2())
    + Compact(Split(), [ONE, GONE, OLD], [F3(), F4()])
  }

  function KeyIsSplit(): State {
    Rest(Three([], [F3(), F4()], []), [1], [OLD, ONE, GONE], 8, 1)
  }

  lemma FirstValueRuns()
    ensures RunsInCode(Empty(), Store([OLD], 2, F1()) + [TakeSnapshot], Rest(Three([], [F1()], []), [1], [OLD], 4, 0))
  {
    hide RunsInCode, Store;
    InsertOne(OLD);
    StoreGives(Empty(), [OLD], 2, F1(), [F1()]);
    var stored := Rest(Three([], [F1()], []), [], [OLD], 4, 0);
    ThreeWith([], [], [], [F1()]);
    assert [] + [OLD] == [OLD];
    OneAction(stored, TakeSnapshot);
    assert [] + [1] == [1];
    RunThenRun(Empty(), Store([OLD], 2, F1()), stored, [TakeSnapshot], stored.(snapshots := [1]));
  }

  lemma DeletionRuns()
    ensures RunsInCode(Rest(Three([], [F1()], []), [1], [OLD], 4, 0), Store([ONE, GONE], 1, F2()),
                       Rest(Three([F2()], [F1()], []), [1], [OLD, ONE, GONE], 6, 0))
  {
    hide RunsInCode, Store;
    var s := Rest(Three([], [F1()], []), [1], [OLD], 4, 0);
    InsertTwo(ONE, GONE);
    StoreGives(s, [ONE, GONE], 1, F2(), [F2()]);
    ThreeWith([], [F1()], [], [F2()]);
    assert [OLD] + [ONE, GONE] == [OLD, ONE, GONE];
  }

  lemma SplitIsChosen()
    ensures ChosenFrom(Three([F2()], [F1()], []), Split())
  {
    BoundsOfOne(F2());
    OverlapOne(F1(), Some(1.0), Some(2.0));
    ChosenWitness(Three([F2()], [F1()], []), Split(), ONE, GONE);
  }

  lemma SplitIsOutput()
    ensures IsOutput(Pending(Split(), Three([F2()], [F1()], []), 1), [ONE, GONE, OLD], [F3(), F4()])
  {
    var base, input := Three([F2()], [F1()], []), [ONE, GONE, OLD];
    assert Split().Inputs() == [F2(), F1()];
    EntriesOfTwo(F2(), F1());
    RunsOfTwo(F3(), F4());
    assert Kept(input, 0, 1, base, 1) == [];
    assert Kept(input, 1, 1, base, 1) == [ONE];
    assert Kept(input, 2, 1, base, 1) == [ONE, GONE];
    assert Kept(input, 3, 1, base, 1) == [ONE, GONE, OLD];
  }

  lemma SplitRuns()
    ensures RunsInCode(Rest(Three([F2()], [F1()], []), [1], [OLD, ONE, GONE], 6, 0),
      Compact(Split(), [ONE, GONE, OLD], [F3(), F4()]), KeyIsSplit())
  {
    hide RunsInCode, ChosenFrom, IsOutput, Compact;
    var s := Rest(Three([F2()], [F1()], []), [1], [OLD, ONE, GONE], 6, 0);
    var outs := [F3(), F4()];
    SplitIsChosen();
    SplitIsOutput();
    TwoAllocated(outs, 6);
    CompactGives(s, Split(), [ONE, GONE, OLD], outs, [], outs);
    ThreeWith([F2()], [F1()], [], []);
    ThreeWith([], [F1()], [], outs);
  }

  lemma SplitKeyRuns()
    ensures RunsInCode(Empty(), SplitKey(), KeyIsSplit())
  {
    hide RunsInCode, Store, Compact;
    FirstValueRuns();
    DeletionRuns();
    SplitRuns();
    var xs, ys := Store([OLD], 2, F1()) + [TakeSnapshot], Store([ONE, GONE], 1, F2());
    var zs := Compact(Split(), [ONE, GONE, OLD], [F3(), F4()]);
    var m, n := Rest(Three([], [F1()], []), [1], [OLD], 4, 0), Rest(Three([F2()], [F1()], []), [1], [OLD, ONE, GONE], 6, 0);
    RunThenRun(Empty(), xs, m, ys, n);
    RunThenRun(Empty(), xs + ys, n, zs, KeyIsSplit());
    assert SplitKey() == xs + ys + zs;
  }

  // ------------------------------------------------------------- reading

  lemma EmptyLevel(levels: Levels, l: nat, k: UserKey, sn: nat)
    requires l < NUM_LEVELS && levels[l] == []
    ensures SearchLevel(levels, l, k, sn) == None
  {
    assert l == 0 ==> CoveringNewestFirst([], k) == [];
  }

  lemma SearchDeepLevels(levels: Levels, k: UserKey, sn: nat)
    requires levels[0] == [] && levels[1] == []
    ensures SearchLevel(levels, 2, k, sn).Some? ==> SearchFrom(levels, 0, k, sn) == ResultOf(SearchLevel(levels, 2, k, sn).value)
    ensures SearchLevel(levels, 2, k, sn) == None && (forall l :: 3 <= l < NUM_LEVELS ==> levels[l] == []) ==>
      SearchFrom(levels, 0, k, sn) == None
  {
    EmptyLevel(levels, 0, k, sn);
    EmptyLevel(levels, 1, k, sn);
    assert SearchFrom(levels, 0, k, sn) == SearchFrom(levels, 1, k, sn) == SearchFrom(levels, 2, k, sn);
    if SearchLevel(levels, 2, k, sn) == None && forall l :: 3 <= l < NUM_LEVELS ==> levels[l] == [] {
      NothingBelow(levels, 3, k, sn);
    }
  }

  lemma {:induction false} NothingBelow(levels: Levels, from: nat, k: UserKey, sn: nat)
    requires from <= NUM_LEVELS && forall l :: from <= l < NUM_LEVELS ==> levels[l] == []
    ensures SearchFrom(levels, from, k, sn) == None
    decreases NUM_LEVELS - from
  {
    if from < NUM_LEVELS {
      EmptyLevel(levels, from, k, sn);
      NothingBelow(levels, from + 1, k, sn);
    }
  }

  lemma GetAtRest(s: State, k: UserKey, sn: nat)
    requires s.mem == [] && s.imm == None && s.memGroups == [] && s.immGroups == []
    ensures DbGet(s.mem, s.imm, s.levels, k, sn) == SearchFrom(s.levels, 0, k, sn) && s.History() == s.flushed
  {
  }

  // ----------------------------------------------- moving half a split key

  function MoveHalf(): Compaction { Compaction(2, [F3()], [], []) }

  function HalfIsMoved(): State {
    Rest(Three([], [F4()], [F3()]), [1], [OLD, ONE, GONE], 8, 1)
  }

  // The deletion moves below the value that it hides: the run ends with a read
  // of a deleted key that finds the value.
  lemma MovingHalfASplitKeyReadsStale()
    ensures RunsInCode(Empty(), SplitKey() + [MoveFile(MoveHalf(), F3())], HalfIsMoved())
    ensures MoveHalf().IsTrivialMove() && !BoundaryClosed(KeyIsSplit().levels, MoveHalf())
    ensures var t := HalfIsMoved();
      DbGet(t.mem, t.imm, t.levels, 2.0, t.lastSequence) == Some("old") && Read(t.History(), 2.0, t.lastSequence) == None
  {
    hide RunsInCode, SplitKey, ChosenFrom, BoundaryClosed;
    var s := KeyIsSplit();
    SplitKeyRuns();
    HalfIsChosen();
    MoveRuns(s, MoveHalf(), F3(), [F4()], [F3()]);
    ThreeWith([], [F3(), F4()], [], [F4()]);
    ThreeWith([], [F4()], [], [F3()]);
    RunThenRun(Empty(), SplitKey(), s, [MoveFile(MoveHalf(), F3())], HalfIsMoved());
    HalfReads();
  }

  lemma HalfIsChosen()
    ensures ChosenFrom(KeyIsSplit().levels, MoveHalf()) && !BoundaryClosed(KeyIsSplit().levels, MoveHalf())
  {
    BoundsOfOne(F3());
    ChosenWitness(KeyIsSplit().levels, MoveHalf(), ONE, GONE);
    assert SharesKeyAfter(F3(), F4());
  }

  lemma HalfReads()
    ensures var t := HalfIsMoved();
      DbGet(t.mem, t.imm, t.levels, 2.0, t.lastSequence) == Some("old") && Read(t.History(), 2.0, t.lastSequence) == None
  {
    var t := HalfIsMoved();
    GetAtRest(t, 2.0, 3);
    assert SeekIndex([OLD], 2.0, 3) == 0;
    assert SearchLevel(t.levels, 2, 2.0, 3) == Some(Put("old"));
    SearchDeepLevels(t.levels, 2.0, 3);
  }

  // ------------------------------------------- merging half a split key

  function F5(): File { Table(9, [UNO]) }
  function F6(): File { Table(10, [UNO]) }
  function MergeHalf(): Compaction { Compaction(1, [F5()], [F3()], []) }

  function HalfIsMerged(): State {
    Rest(Three([], [F6(), F4()], []), [], [OLD, ONE, GONE, UNO], 11, 4)
  }

  // Without the snapshot, a compaction of the first half drops the deletion:
  // nothing two levels down holds its key, but the other half does.
  function MergeRun(): seq<Action> {
    SplitKey() + [DropSnapshot(0)] + Store([UNO], 1, F5())
    + Compact(MergeHalf(), [UNO, ONE, GONE], [F6()])
  }

  function BeforeMerge(): State {
    Rest(Three([F5()], [F3(), F4()], []), [], [OLD, ONE, GONE, UNO], 10, 1)
  }

  lemma UnoRuns(s: State)
    requires s == KeyIsSplit().(snapshots := [])
    ensures RunsInCode(s, Store([UNO], 1, F5()), BeforeMerge())
  {
    hide RunsInCode, Store;
    InsertOne(UNO);
    StoreGives(s, [UNO], 1, F5(), [F5()]);
    ThreeWith([], [F3(), F4()], [], [F5()]);
    assert [OLD, ONE, GONE] + [UNO] == [OLD, ONE, GONE, UNO];
  }

  lemma BeforeMergeRuns()
    ensures RunsInCode(Empty(), SplitKey() + [DropSnapshot(0)] + Store([UNO], 1, F5()), BeforeMerge())
  {
    hide RunsInCode, SplitKey, Store;
    SplitKeyRuns();
    OneAction(KeyIsSplit(), DropSnapshot(0));
    var s := KeyIsSplit().(snapshots := []);
    assert [1][..0] + [1][1..] == [];
    RunThenRun(Empty(), SplitKey(), KeyIsSplit(), [DropSnapshot(0)], s);
    UnoRuns(s);
    RunThenRun(Empty(), SplitKey() + [DropSnapshot(0)], s, Store([UNO], 1, F5()), BeforeMerge());
  }

  lemma MergeIsChosen()
    ensures ChosenFrom(BeforeMerge().levels, MergeHalf())
  {
    BoundsOfOne(F5());
    OverlapTwo(F3(), F4(), Some(1.0), Some(1.0));
    ChosenWitness(BeforeMerge().levels, MergeHalf(), UNO, UNO);
  }

  lemma MergeHalfEntries()
    ensures FileEntries(MergeHalf().Inputs()) == {UNO, ONE, GONE}
  {
    assert MergeHalf().Inputs() == [F5(), F3()];
    EntriesOfTwo(F5(), F3());
  }

  lemma MergeIsOutput()
    ensures IsOutput(Pending(MergeHalf(), BeforeMerge().levels, 4), [UNO, ONE, GONE], [F6()])
  {
    hide Kept, FileEntries;
    var base, input := BeforeMerge().levels, [UNO, ONE, GONE];
    MergeHalfEntries();
    RunsOfOne(F6());
    MergeKeeps(base, input);
  }

  lemma MergeKeeps(base: Levels, input: Run)
    requires base == BeforeMerge().levels && input == [UNO, ONE, GONE]
    ensures Kept(input, 3, 4, base, 1) == [UNO]
  {
    assert IsBaseLevel(base, 1, 2.0);
    assert Dropped(input, 2, 4, base, 1) && Dropped(input, 1, 4, base, 1) && !Dropped(input, 0, 4, base, 1);
    hide Dropped;
    assert Kept(input, 1, 4, base, 1) == [UNO];
    assert Kept(input, 2, 4, base, 1) == [UNO];
  }

  lemma MergingHalfRuns()
    ensures RunsInCode(Empty(), MergeRun(), HalfIsMerged())
  {
    hide RunsInCode, SplitKey, Store, Compact, ChosenFrom, IsOutput;
    var s, c := BeforeMerge(), MergeHalf();
    BeforeMergeRuns();
    MergeIsChosen();
    MergeIsOutput();
    OneAllocated(F6());
    CompactGives(s, c, [UNO, ONE, GONE], [F6()], [], [F6(), F4()]);
    ThreeWith([F5()], [F3(), F4()], [], []);
    ThreeWith([], [F3(), F4()], [], [F6(), F4()]);
    RunThenRun(Empty(), SplitKey() + [DropSnapshot(0)] + Store([UNO], 1, F5()), s, Compact(c, [UNO, ONE, GONE], [F6()]), HalfIsMerged());
  }

  lemma MergingHalfASplitKeyReadsStale()
    ensures RunsInCode(Empty(), MergeRun(), HalfIsMerged())
    ensures !MergeIsSafe(BeforeMerge().levels, MergeHalf(), SmallestSnapshot(BeforeMerge()))
    ensures var t := HalfIsMerged();
      DbGet(t.mem, t.imm, t.levels, 2.0, t.lastSequence) == Some("old") && Read(t.History(), 2.0, t.lastSequence) == None
  {
    hide RunsInCode, MergeRun, MergeIsSafe;
    MergingHalfRuns();
    MergeUncovers();
    MergedReads();
  }

  lemma MergedReads()
    ensures var t := HalfIsMerged();
      DbGet(t.mem, t.imm, t.levels, 2.0, t.lastSequence) == Some("old") && Read(t.History(), 2.0, t.lastSequence) == None
  {
    var t := HalfIsMerged();
    GetAtRest(t, 2.0, 4);
    assert SeekIndex([OLD], 2.0, 4) == 0;
    assert FirstAtOrAfter(t.levels[2], 2.0, 4) == 1 by { assert t.levels[2][1..] == [F4()]; }
    assert SearchLevel(t.levels, 2, 2.0, 4) == Some(Put("old"));
    SearchDeepLevels(t.levels, 2.0, 4);
    assert [OLD, ONE, GONE, UNO][..3] == [OLD, ONE, GONE];
  }

  lemma MergeUncovers()
    ensures !MergeIsSafe(BeforeMerge().levels, MergeHalf(), 4)
  {
    var levels, c := BeforeMerge().levels, MergeHalf();
    var m := Merge(FileEntries(c.Inputs()), 4, levels, 1);
    assert c.Inputs() == [F5(), F3()];
    EntriesOfTwo(F5(), F3());
    EntriesOfTwo(F3(), F4());
    StoredBeforeMerge(levels);
    assert IsBaseLevel(levels, 1, 2.0);
    assert Uncovers(Contents(levels), m, GONE, OLD);
  }

  lemma StoredBeforeMerge(levels: Levels)
    requires levels == BeforeMerge().levels
    ensures Contents(levels) == {UNO, ONE, GONE, OLD}
  {
    EntriesOfTwo(F3(), F4());
    EntriesOfOne(F5());
    assert FileEntries(levels[2]) == {ONE, GONE, OLD};
    forall e ensures e in Contents(levels) <==> e in FileEntries(levels[1]) || e in FileEntries(levels[2]) {
      if l :| 0 <= l < NUM_LEVELS && e in FileEntries(levels[l]) {
        assert l != 1 && l != 2 ==> levels[l] == [];
      }
    }
  }

  // ----------------------------- a flush into the gap of a manual compaction

  const P: Entry := Entry(1.0, 1, Put("p"))
  const Q: Entry := Entry(3.0, 2, Put("q"))
  const A: Entry := Entry(1.0, 3, Put("a"))
  const B: Entry := Entry(3.0, 4, Put("b"))
  const X: Entry := Entry(2.0, 5, Put("x"))

  function G1(): File { Table(3, [P]) }
  function G2(): File { Table(5, [Q]) }
  function G3(): File { Table(7, [A]) }
  function G4(): File { Table(9, [B]) }
  function G5(): File { Table(12, [X]) }
  function G6(): File { Table(10, [A, B]) }
  function Manual(): Compaction { Compaction(1, [G3(), G4()], [G1(), G2()], []) }

  // A manual compaction of all of level 1; while it merges, a table with the
  // key between its files goes to level 2.
  function GapRun(): seq<Action> {
    GapFiles() + ([PickInputs(Manual())] + Outputs(1)) + Store([X], 2, G5()) + [FinishCompaction([A, P, B, Q], [G6()])]
  }

  function GapFiles(): seq<Action> {
    Store([P], 2, G1()) + Store([Q], 2, G2()) + Store([A], 1, G3()) + Store([B], 1, G4())
  }

  function BeforeManual(): State {
    Rest(Three([G3(), G4()], [G1(), G2()], []), [], [P, Q, A, B], 10, 0)
  }

  function GapIsFilled(): State {
    Rest(Three([], [G6(), G5()], []), [], [P, Q, A, B, X], 13, 4)
  }

  lemma FirstBottomRuns()
    ensures RunsInCode(Empty(), Store([P], 2, G1()), Rest(Three([], [G1()], []), [], [P], 4, 0))
  {
    hide RunsInCode, Store;
    InsertOne(P);
    StoreGives(Empty(), [P], 2, G1(), [G1()]);
    ThreeWith([], [], [], [G1()]);
    assert [] + [P] == [P];
  }

  lemma SecondBottomRuns()
    ensures RunsInCode(Rest(Three([], [G1()], []), [], [P], 4, 0), Store([Q], 2, G2()), Rest(Three([], [G1(), G2()], []), [], [P, Q], 6, 0))
  {
    hide RunsInCode, Store;
    var s := Rest(Three([], [G1()], []), [], [P], 4, 0);
    InsertOne(Q);
    StoreGives(s, [Q], 2, G2(), [G1(), G2()]);
    ThreeWith([], [G1()], [], [G1(), G2()]);
    assert [P] + [Q] == [P, Q];
  }

  lemma GapBottomRuns()
    ensures RunsInCode(Empty(), Store([P], 2, G1()) + Store([Q], 2, G2()), Rest(Three([], [G1(), G2()], []), [], [P, Q], 6, 0))
  {
    hide RunsInCode, Store;
    var s := Rest(Three([], [G1()], []), [], [P], 4, 0);
    hide Rest;
    FirstBottomRuns();
    SecondBottomRuns();
    RunThenRun(Empty(), Store([P], 2, G1()), s, Store([Q], 2, G2()), Rest(Three([], [G1(), G2()], []), [], [P, Q], 6, 0));
  }

  lemma FirstTopRuns()
    ensures RunsInCode(Rest(Three([], [G1(), G2()], []), [], [P, Q], 6, 0), Store([A], 1, G3()),
                       Rest(Three([G3()], [G1(), G2()], []), [], [P, Q, A], 8, 0))
  {
    hide RunsInCode, Store;
    var s := Rest(Three([], [G1(), G2()], []), [], [P, Q], 6, 0);
    InsertOne(A);
    StoreGives(s, [A], 1, G3(), [G3()]);
    ThreeWith([], [G1(), G2()], [], [G3()]);
    assert [P, Q] + [A] == [P, Q, A];
  }

  lemma SecondTopRuns()
    ensures RunsInCode(Rest(Three([G3()], [G1(), G2()], []), [], [P, Q, A], 8, 0), Store([B], 1, G4()), BeforeManual())
  {
    hide RunsInCode, Store;
    var s := Rest(Three([G3()], [G1(), G2()], []), [], [P, Q, A], 8, 0);
    InsertOne(B);
    StoreGives(s, [B], 1, G4(), [G3(), G4()]);
    ThreeWith([G3()], [G1(), G2()], [], [G3(), G4()]);
    assert [P, Q, A] + [B] == [P, Q, A, B];
  }

  lemma GapTopRuns()
    ensures RunsInCode(Rest(Three([], [G1(), G2()], []), [], [P, Q], 6, 0), Store([A], 1, G3()) + Store([B], 1, G4()), BeforeManual())
  {
    hide RunsInCode, Store;
    var r, s := Rest(Three([], [G1(), G2()], []), [], [P, Q], 6, 0), Rest(Three([G3()], [G1(), G2()], []), [], [P, Q, A], 8, 0);
    hide Rest;
    FirstTopRuns();
    SecondTopRuns();
    RunThenRun(r, Store([A], 1, G3()), s, Store([B], 1, G4()), BeforeManual());
  }

  lemma GapFilesRun()
    ensures RunsInCode(Empty(), GapFiles(), BeforeManual())
  {
    hide RunsInCode, Store;
    GapBottomRuns();
    GapTopRuns();
    var xs, ys := Store([P], 2, G1()) + Store([Q], 2, G2()), Store([A], 1, G3()) + Store([B], 1, G4());
    RunThenRun(Empty(), xs, Rest(Three([], [G1(), G2()], []), [], [P, Q], 6, 0), ys, BeforeManual());
    assert GapFiles() == xs + ys;
  }

  lemma ManualIsChosen()
    ensures ChosenFrom(BeforeManual().levels, Manual())
  {
    var levels, c := BeforeManual().levels, Manual();
    BoundsOfTwo(G3(), G4());
    OverlapTwo(G1(), G2(), Some(1.0), Some(3.0));
    ChosenWitness(levels, c, A, B);
  }

  lemma ManualHasGap()
    ensures !GapFree(Manual().Inputs())
  {
    var c := Manual();
    assert c.Inputs() == [G3(), G4(), G1(), G2()];
    assert ApartFromAll(2.0, 2.0, c.Inputs());
    assert G3() in c.Inputs() && G4() in c.Inputs();
  }

  lemma ManualIsSafe()
    ensures MergeIsSafe(BeforeManual().levels, Manual(), 4)
  {
    ManualEntries();
  }

  lemma ManualIsOutput()
    ensures IsOutput(Pending(Manual(), BeforeManual().levels, 4), [A, P, B, Q], [G6()])
  {
    var base, input := BeforeManual().levels, [A, P, B, Q];
    hide Kept;
    ManualEntries();
    RunsOfOne(G6());
    ManualKeeps(base, input);
  }

  lemma ManualKeeps(base: Levels, input: Run)
    requires input == [A, P, B, Q]
    ensures Kept(input, 4, 4, base, 1) == [A, B]
  {
    assert !Dropped(input, 0, 4, base, 1) && Dropped(input, 1, 4, base, 1);
    assert !Dropped(input, 2, 4, base, 1) && Dropped(input, 3, 4, base, 1);
    hide Dropped;
    assert Kept(input, 1, 4, base, 1) == [A];
    assert Kept(input, 2, 4, base, 1) == [A];
    assert Kept(input, 3, 4, base, 1) == [A, B];
  }

  lemma ManualEntries()
    ensures FileEntries(Manual().Inputs()) == {A, P, B, Q}
  {
    assert Manual().Inputs() == [G3(), G4()] + [G1(), G2()];
    EntriesOfTwo(G3(), G4());
    EntriesOfTwo(G1(), G2());
    forall e ensures e in FileEntries([G3(), G4()] + [G1(), G2()]) <==> e in FileEntries([G3(), G4()]) || e in FileEntries([G1(), G2()]) {
    }
  }

  function Merging(): State {
    Begun(BeforeManual(), Manual(), 1)
  }

  function FlushedMeanwhile(): State {
    Merging().(levels := Three([G3(), G4()], [G1(), G5(), G2()], []), lastSequence := 5, flushed := [P, Q, A, B, X], nextFile := 13)
  }

  lemma ManualRuns()
    ensures RunsInCode(Empty(), GapFiles() + ([PickInputs(Manual())] + Outputs(1)), Merging())
    ensures Merging().pendingOutputs == {10}
  {
    hide RunsInCode, GapFiles, Outputs, ChosenFrom, GapFree;
    GapFilesRun();
    ManualIsChosen();
    PickRuns(BeforeManual(), Manual(), 1);
    RunThenRun(Empty(), GapFiles(), BeforeManual(), [PickInputs(Manual())] + Outputs(1), Merging());
    assert Allocated(10, 0) == {} && Allocated(10, 1) == {10} && {} + {10} == {10};
  }

  lemma GapIsRoom()
    ensures PlacedBy(BeforeManual().levels, 2, G5())
  {
  }

  lemma GapFlushRuns()
    ensures RunsInCode(Merging(), Store([X], 2, G5()), FlushedMeanwhile())
  {
    hide RunsInCode, Store, PlacedBy;
    InsertOne(X);
    GapIsRoom();
    StoreGives(Merging(), [X], 2, G5(), [G1(), G5(), G2()]);
    ThreeWith([G3(), G4()], [G1(), G2()], [], [G1(), G5(), G2()]);
    assert [P, Q, A, B] + [X] == [P, Q, A, B, X];
  }

  lemma FlushIntoGapRuns()
    ensures RunsInCode(Empty(), GapFiles() + ([PickInputs(Manual())] + Outputs(1)) + Store([X], 2, G5()), FlushedMeanwhile())
  {
    hide RunsInCode, GapFiles, Store, Outputs, Merging;
    ManualRuns();
    GapFlushRuns();
    RunThenRun(Empty(), GapFiles() + ([PickInputs(Manual())] + Outputs(1)), Merging(), Store([X], 2, G5()), FlushedMeanwhile());
  }

  lemma GapFinishRuns()
    ensures RunsInCode(FlushedMeanwhile(), [FinishCompaction([A, P, B, Q], [G6()])], GapIsFilled())
  {
    hide RunsInCode, IsOutput;
    ManualRuns();
    ManualIsOutput();
    var s := FlushedMeanwhile();
    assert G6() in [G6()] && Numbers([G6()]) == {10};
    FinishGives(s, [A, P, B, Q], [G6()], [], [G6(), G5()]);
    ThreeWith([G3(), G4()], [G1(), G5(), G2()], [], []);
    ThreeWith([], [G1(), G5(), G2()], [], [G6(), G5()]);
    assert {10} - {10} == {};
  }

  lemma GapRuns()
    ensures RunsInCode(Empty(), GapRun(), GapIsFilled())
  {
    hide RunsInCode, GapFiles, Store, Outputs, FlushedMeanwhile, GapIsFilled;
    FlushIntoGapRuns();
    GapFinishRuns();
    var s := FlushedMeanwhile();
    RunThenRun(Empty(), GapFiles() + ([PickInputs(Manual())] + Outputs(1)) + Store([X], 2, G5()), s,
               [FinishCompaction([A, P, B, Q], [G6()])], GapIsFilled());
  }

  // The merge itself was safe when it was picked. But its output spans the
  // table that was flushed meanwhile: level 2 is out of order, and the key that
  // was written last is not found.
  lemma FlushIntoManualCompactionGap()
    ensures RunsInCode(Empty(), GapRun(), GapIsFilled())
    ensures MergeIsSafe(BeforeManual().levels, Manual(), SmallestSnapshot(BeforeManual())) && !GapFree(Manual().Inputs())
    ensures !FlushClear(Merging().pending, 2, G5()) && !WellFormed(GapIsFilled().levels)
    ensures var t := GapIsFilled();
      DbGet(t.mem, t.imm, t.levels, 2.0, t.lastSequence) == None && Read(t.History(), 2.0, t.lastSequence) == Some("x")
  {
    hide RunsInCode, GapRun, MergeIsSafe, GapFree, WellFormed, ClearOfKept;
    GapRuns();
    ManualHasGap();
    ManualIsSafe();
    NotClearOfManual();
    GapReads();
  }

  lemma NotClearOfManual()
    ensures !ClearOfKept(G5(), Merging().pending.value.Merged())
  {
    var m := Merging().pending.value.Merged();
    ManualEntries();
    assert Survives(m, A) && Survives(m, B);
  }

  lemma GapReads()
    ensures !WellFormed(GapIsFilled().levels)
    ensures var t := GapIsFilled();
      DbGet(t.mem, t.imm, t.levels, 2.0, t.lastSequence) == None && Read(t.History(), 2.0, t.lastSequence) == Some("x")
  {
    var t := GapIsFilled();
    assert !Before(t.levels[2][0].Large(), t.levels[2][1].Small());
    assert !LevelSorted(t.levels[2]);
    GetAtRest(t, 2.0, 5);
    assert SeekIndex([A, B][1..], 2.0, 5) == 0;
    assert SeekIndex([A, B], 2.0, 5) == 1;
    assert SearchLevel(t.levels, 2, 2.0, 5) == None;
    SearchDeepLevels(t.levels, 2.0, 5);
  }
}
