// Whole runs of the database: any interleaving of writes, memtable switches,
// flushes, moves, compactions and snapshots.

module DbMachine {
  import opened Wrappers
  import opened Entries
  import opened Files
  import opened VersionSearch
  import opened VersionBuilder
  import opened OverlappingInputs
  import opened CompactionInputs
  import opened CompactionWork
  import opened LevelEdits
  import opened DbState
  import opened DbLevels
  import opened DbCompaction

  datatype Action =
    | BeginWrite(group: Run)
    | InsertNext
    | PublishWrite
    | SwitchMem
    | FlushMem(level: nat, file: File)
    | FlushEmptyMem
    | MoveFile(c: Compaction, file: File)
    | PickInputs(c: Compaction)
    | AllocateOutput
    | FinishCompaction(input: Run, outs: seq<File>)
    | FailCompaction(outputs: set<nat>)
    | TakeSnapshot
    | DropSnapshot(index: nat)

  // When the step is taken. A move, a pick and a flush each carry the condition
  // that is exactly what they need (TrivialMoveIsSafeIff, MergeIsSafeIff and
  // FlushIsSafeIff); the inputs of an automatic compaction leave no gap for a
  // flush (GapFreeIsClear).
  ghost predicate Enabled(s: State, a: Action) {
    match a
    case BeginWrite(group) => s.inflight == [] && NumberedAfter(group, s.lastSequence)
    case InsertNext => s.applied < |s.inflight|
    case PublishWrite => s.applied == |s.inflight|
    case SwitchMem => s.imm == None && s.inflight == []
    case FlushMem(level, f) =>
      s.imm.Some? && f.entries == s.imm.value && f.number == s.nextFile && PlacedBy(s.levels, level, f)
      && FlushClear(s.pending, level, f)
    case FlushEmptyMem => s.imm == Some([])
    case MoveFile(c, f) =>
      && s.pending == None && ChosenFrom(s.levels, c) && c.inputs0 == [f] && c.inputs1 == []
      && BoundaryClosed(s.levels, c)
    case PickInputs(c) =>
      s.pending == None && ChosenFrom(s.levels, c) && MergeIsSafe(s.levels, c, SmallestSnapshot(s))
    case AllocateOutput => true
    case FinishCompaction(input, outs) =>
      && s.pending.Some? && IsOutput(s.pending.value, input, outs)
      && OutputNumbers(s.levels, outs, s.pendingOutputs)
    case FailCompaction(outputs) => true
    case TakeSnapshot => true
    case DropSnapshot(i) => i < |s.snapshots|
  }

  // What the step needs to be defined at all.
  predicate Possible(s: State, a: Action) {
    && (a.InsertNext? ==> s.applied < |s.inflight|)
    && (a.FinishCompaction? ==> s.pending.Some?)
    && (a.DropSnapshot? ==> a.index < |s.snapshots|)
  }

  ghost function Perform(s: State, a: Action): State
    requires Possible(s, a)
  {
    match a
    case BeginWrite(group) => BeginGroup(s, group)
    case InsertNext => ApplyNext(s)
    case PublishWrite => Publish(s)
    case SwitchMem => SwitchMemTable(s)
    case FlushMem(level, f) => Flush(s, ApplyEdit(s.levels, FlushEdit(level, f)))
    case FlushEmptyMem => FlushEmpty(s)
    case MoveFile(c, f) => Move(s, ApplyEdit(s.levels, MoveEdit(c.level, f)))
    case PickInputs(c) => BeginCompaction(s, c)
    case AllocateOutput => OpenOutput(s)
    case FinishCompaction(input, outs) => Install(s, ApplyEdit(s.levels, InstallEdit(s.pending.value.c, outs)), outs)
    case FailCompaction(outputs) => Abandon(s, outputs)
    case TakeSnapshot => NewSnapshot(s)
    case DropSnapshot(i) => ReleaseSnapshot(s, i)
  }

  ghost predicate RunsTo(s: State, actions: seq<Action>, t: State)
    decreases |actions|
  {
    if |actions| == 0 then s == t
    else Enabled(s, actions[0]) && RunsTo(Perform(s, actions[0]), actions[1..], t)
  }

  function Empty(): State {
    State([], None, NO_FILES, 0, [], None, {}, 2, [], [], [], [], 0, 0)
  }

  lemma NoFilesIsOk()
    ensures forall l :: 0 <= l < NUM_LEVELS ==> NO_FILES[l] == []
    ensures LevelsOk(NO_FILES, [], 0) && NumbersOk(NO_FILES, 2, {})
  {
    assert forall l :: 0 <= l < NUM_LEVELS ==> NO_FILES[l] == [];
    assert Contents(NO_FILES) == {};
    forall k: UserKey, sn: nat ensures Answer({}, k, sn, Read([], k, sn)) {
      assert Absent({}, k, sn);
    }
    assert AnswersFrom(Contents(NO_FILES), [], 0);
    assert NumbersUnique(NO_FILES);
  }

  lemma EmptyIsSafe()
    ensures Inv(Empty()) && Empty().History() == []
  {
    NoFilesIsOk();
    assert Empty().History() == [];
  }

  // Number of published operations a step adds: only publishing adds any.
  ghost predicate HistoryGrows(s: State, a: Action, t: State) {
    t.History() == if a.PublishWrite? then s.History() + s.inflight else s.History()
  }

  lemma FlushStep(s: State, level: nat, f: File)
    requires Inv(s) && Enabled(s, FlushMem(level, f))
    ensures Inv(Perform(s, FlushMem(level, f)))
    ensures HistoryGrows(s, FlushMem(level, f), Perform(s, FlushMem(level, f)))
  {
    assert forall l, g :: 0 <= l < NUM_LEVELS && g in s.levels[l] ==> NumbersBelow(s.levels[l], s.nextFile, s.pendingOutputs);
    FlushIsEdit(s.levels, level, f, s.nextFile);
    FlushKeepsInv(s, level, f, ApplyEdit(s.levels, FlushEdit(level, f)));
  }

  lemma FileToMove(levels: Levels, c: Compaction, f: File)
    requires ChosenFrom(levels, c) && c.inputs0 == [f]
    ensures c.level + 1 < NUM_LEVELS && f in levels[c.level]
  {
    assert f in c.inputs0;
  }

  lemma MoveStep(s: State, c: Compaction, f: File)
    requires Inv(s) && Enabled(s, MoveFile(c, f))
    ensures Inv(Perform(s, MoveFile(c, f))) && HistoryGrows(s, MoveFile(c, f), Perform(s, MoveFile(c, f)))
  {
    hide ApplyEdit, ChosenFrom, BoundaryClosed;
    FileToMove(s.levels, c, f);
    MoveIsEdit(s.levels, c.level, f);
    MoveKeepsInv(s, c, f, ApplyEdit(s.levels, MoveEdit(c.level, f)));
  }

  lemma FinishStep(s: State, input: Run, outs: seq<File>)
    requires Inv(s) && Enabled(s, FinishCompaction(input, outs))
    ensures Inv(Perform(s, FinishCompaction(input, outs)))
    ensures HistoryGrows(s, FinishCompaction(input, outs), Perform(s, FinishCompaction(input, outs)))
  {
    var p := s.pending.value;
    InstallIsEdit(s.levels, p.c, outs, s.nextFile, s.pendingOutputs);
    InstallKeepsInv(s, ApplyEdit(s.levels, InstallEdit(p.c, outs)), input, outs);
  }

  // Every step keeps every invariant and only publishing adds history.
  lemma StepIsSafe(s: State, a: Action)
    requires Inv(s) && Enabled(s, a)
    ensures Possible(s, a) && Inv(Perform(s, a)) && HistoryGrows(s, a, Perform(s, a))
  {
    match a
    case BeginWrite(group) => BeginGroupKeepsInv(s, group);
    case InsertNext => ApplyNextKeepsInv(s);
    case PublishWrite => PublishKeepsInv(s);
    case SwitchMem => SwitchKeepsInv(s);
    case FlushMem(level, f) => FlushStep(s, level, f);
    case FlushEmptyMem => FlushEmptyKeepsInv(s);
    case MoveFile(c, f) => MoveStep(s, c, f);
    case PickInputs(c) => BeginCompactionKeepsInv(s, c);
    case AllocateOutput => OutputStepsKeepInv(s, {});
    case FinishCompaction(input, outs) => FinishStep(s, input, outs);
    case FailCompaction(outputs) => OutputStepsKeepInv(s, outputs);
    case TakeSnapshot => NewSnapshotKeepsInv(s);
    case DropSnapshot(i) => ReleaseSnapshotKeepsInv(s, i);
  }

  lemma {:induction false} RunIsSafe(s: State, actions: seq<Action>, t: State)
    requires Inv(s) && RunsTo(s, actions, t)
    ensures Inv(t) && s.History() <= t.History()
    decreases |actions|
  {
    if |actions| > 0 {
      StepIsSafe(s, actions[0]);
      RunIsSafe(Perform(s, actions[0]), actions[1..], t);
    }
  }

  // The main theorem: in every state any run reaches, Get at the last sequence
  // number and at every live snapshot returns what the plain write history says.
  lemma GetIsRightInEveryReachableState(actions: seq<Action>, t: State, k: UserKey, sn: nat)
    requires RunsTo(Empty(), actions, t)
    requires sn == t.lastSequence || sn in t.snapshots
    ensures DbGet(t.mem, t.imm, t.levels, k, sn) == Read(t.History(), k, sn)
  {
    EmptyIsSafe();
    RunIsSafe(Empty(), actions, t);
    if sn in t.snapshots {
      var i :| 0 <= i < |t.snapshots| && t.snapshots[i] == sn;
    }
    GetReadsHistory(t, k, sn);
  }

  // New operations are numbered after everything published before.
  lemma {:induction false} RunNumbersOn(s: State, actions: seq<Action>, t: State)
    requires Inv(s) && RunsTo(s, actions, t)
    ensures s.lastSequence <= t.lastSequence && s.History() <= t.History() && IsHistory(t.History())
    ensures forall i :: |s.History()| <= i < |t.History()| ==> t.History()[i].sn > s.lastSequence
    decreases |actions|
  {
    hide Inv, Enabled;
    if |actions| == 0 {
      HistoryIsOrdered(s);
    } else {
      StepIsSafe(s, actions[0]);
      var next := Perform(s, actions[0]);
      StepNumbersOn(s, actions[0]);
      RunNumbersOn(next, actions[1..], t);
      forall i | |s.History()| <= i < |t.History()| ensures t.History()[i].sn > s.lastSequence {
        if i < |next.History()| { assert t.History()[i] == next.History()[i]; }
      }
    }
  }

  lemma HistoryIsOrdered(s: State)
    requires Inv(s)
    ensures IsHistory(s.History())
  {
  }

  lemma StepNumbersOn(s: State, a: Action)
    requires Inv(s) && Enabled(s, a) && Possible(s, a) && HistoryGrows(s, a, Perform(s, a))
    ensures s.lastSequence <= Perform(s, a).lastSequence
    ensures s.History() <= Perform(s, a).History()
    ensures var h := Perform(s, a).History(); forall i :: |s.History()| <= i < |h| ==> h[i].sn > s.lastSequence
  {
    if a.PublishWrite? {
      assert Perform(s, a).lastSequence == s.lastSequence + |s.inflight|;
    } else {
      assert Perform(s, a).lastSequence == s.lastSequence;
    }
  }

  lemma ReadsOlderHistory(h: seq<Entry>, h': seq<Entry>, k: UserKey, sn: nat)
    requires h <= h' && forall i :: |h| <= i < |h'| ==> h'[i].sn > sn
    ensures Read(h', k, sn) == Read(h, k, sn)
  {
    var g := h'[|h|..];
    assert h' == h + g;
    ReadOfConcat(h, g, k, sn);
    forall e | e in ToSet(g) ensures sn < e.sn {
      var i :| 0 <= i < |g| && g[i] == e;
      assert h'[|h| + i] == e;
    }
  }

  // A snapshot that is still live after any further steps reads what it read
  // when it was taken, whatever was written, flushed and compacted meanwhile.
  lemma SnapshotReadsAreStable(s: State, actions: seq<Action>, t: State, k: UserKey, sn: nat)
    requires Inv(s) && RunsTo(s, actions, t) && sn in t.snapshots
    requires sn == s.lastSequence || sn in s.snapshots
    ensures DbGet(t.mem, t.imm, t.levels, k, sn) == DbGet(s.mem, s.imm, s.levels, k, sn)
  {
    hide Inv, Enabled;
    RunIsSafe(s, actions, t);
    RunNumbersOn(s, actions, t);
    LiveIsReadable(s, sn);
    LiveIsReadable(t, sn);
    GetReadsHistory(s, k, sn);
    GetReadsHistory(t, k, sn);
    ReadsOlderHistory(s.History(), t.History(), k, sn);
  }

  lemma LiveIsReadable(s: State, sn: nat)
    requires Inv(s) && (sn == s.lastSequence || sn in s.snapshots)
    ensures s.horizon <= sn <= s.lastSequence
  {
    if sn in s.snapshots {
      var i :| 0 <= i < |s.snapshots| && s.snapshots[i] == sn;
    }
  }

  // ------------------------------------------- runs without old snapshots

  // Files of a level below 0 share no user key.
  ghost predicate KeysDisjoint(files: seq<File>) {
    forall f, g :: f in files && g in files && f != g ==> f.Large().key < g.Small().key || g.Large().key < f.Small().key
  }

  ghost predicate LevelsKeysDisjoint(levels: Levels) {
    forall l :: 1 <= l < NUM_LEVELS ==> KeysDisjoint(levels[l])
  }

  lemma DisjointIsBoundaryClosed(levels: Levels, c: Compaction)
    requires ChosenFrom(levels, c) && LevelsKeysDisjoint(levels)
    requires forall l :: 0 <= l < NUM_LEVELS ==> AllSorted(levels[l])
    ensures BoundaryClosed(levels, c)
  {
    ChosenInputs(levels, c);
    assert c.level > 0 ==> KeysDisjoint(levels[c.level]);
    assert KeysDisjoint(levels[c.level + 1]);
    forall l: nat, f | l < NUM_LEVELS && f in levels[l] ensures f.Small().key <= f.Large().key {
      WithinBounds(f, f.Large());
    }
  }

  // Without live snapshots every input entry is old enough to be hidden.
  ghost predicate AllHideable(p: Pending) {
    forall e :: e in FileEntries(p.c.Inputs()) ==> e.sn <= p.smallestSnapshot
  }

  ghost predicate NeighbourKeysBeside(files: seq<File>, c: Compaction) {
    forall g :: g in files && g !in c.inputs1 ==> KeysBeside(g, c.Inputs())
  }

  ghost predicate UnsplitPending(levels: Levels, p: Pending) {
    p.c.level + 1 < NUM_LEVELS ==>
      AllHideable(p) && NeighbourKeysBeside(levels[p.c.level + 1], p.c) && GapFree(p.c.Inputs())
  }

  ghost predicate Unsplit(s: State) {
    LevelsKeysDisjoint(s.levels) && (s.pending.Some? ==> UnsplitPending(s.levels, s.pending.value))
  }

  lemma KeysBesideChosen(files: seq<File>, f: File, g: File, lo: Entry, hi: Entry)
    requires AllSorted(files) && KeysDisjoint(files) && f in files && g in files && lo.key <= hi.key
    requires InRange(f, Some(lo.key), Some(hi.key)) && !InRange(g, Some(lo.key), Some(hi.key))
    ensures g.Large().key < lo.key ==> g.Large().key < f.Small().key
    ensures hi.key < g.Small().key ==> f.Large().key < g.Small().key
  {
    WithinBounds(f, f.Large());
    WithinBounds(g, g.Large());
  }

  lemma OneUnchosenKeysBeside(files: seq<File>, inputs0: seq<File>, inputs1: seq<File>, lo: Entry, hi: Entry, g: File)
    requires AllSorted(files) && KeysDisjoint(files) && AllSorted(inputs0) && AreBounds(inputs0, lo, hi)
    requires inputs1 == Overlapping(files, Some(lo.key), Some(hi.key))
    requires g in files && g !in inputs1
    ensures KeysBeside(g, inputs0 + inputs1)
  {
    BoundsMeetRange(inputs0, lo, hi);
    forall f | f in inputs0 + inputs1
      ensures g.Large().key < lo.key ==> g.Large().key < f.Small().key
      ensures hi.key < g.Small().key ==> f.Large().key < g.Small().key
    {
      if f in inputs1 { KeysBesideChosen(files, f, g, lo, hi); } else { assert f in inputs0; }
    }
  }

  lemma UnchosenKeysBeside(levels: Levels, c: Compaction)
    requires WellFormed(levels) && ChosenFrom(levels, c) && KeysDisjoint(levels[c.level + 1])
    ensures NeighbourKeysBeside(levels[c.level + 1], c)
  {
    var lo, hi := ChosenBounds(levels, c);
    assert AllSorted(levels[c.level]) && AllSorted(levels[c.level + 1]);
    forall g | g in levels[c.level + 1] && g !in c.inputs1 ensures KeysBeside(g, c.Inputs()) {
      OneUnchosenKeysBeside(levels[c.level + 1], c.inputs0, c.inputs1, lo, hi, g);
    }
  }

  // With one surviving entry per user key, outputs share no user key.
  lemma OutputsKeysDisjoint(p: Pending, input: Run, outs: seq<File>)
    requires IsOutput(p, input, outs) && AllHideable(p) && p.smallestSnapshot < MAX_SEQUENCE_NUMBER
    ensures KeysDisjoint(outs)
  {
    OutputEntries(p, input, outs);
    forall e | e in input ensures e.sn <= p.smallestSnapshot { assert e in ToSet(input); }
    OnePerUserKey(input, p.smallestSnapshot, p.base, p.c.level);
    forall f, g | f in outs && g in outs && f != g
      ensures f.Large().key < g.Small().key || g.Large().key < f.Small().key
    {
      assert f.Large() in f.entries && f.Small() in f.entries && g.Large() in g.entries && g.Small() in g.entries;
      assert forall e :: e in f.entries || e in g.entries ==> e in FileEntries(outs);
      assert Separated(f, g);
    }
  }

  // An output lies on the side of a neighbour where all inputs lie.
  lemma OutputKeysBeside(c: Compaction, o: File, g: File)
    requires AllSorted(c.Inputs()) && KeysBeside(g, c.Inputs())
    requires forall y :: y in o.entries ==> y in FileEntries(c.Inputs())
    ensures g.Large().key < o.Small().key || o.Large().key < g.Small().key
  {
    forall y | y in o.entries ensures exists f :: f in c.Inputs() && f.Small().key <= y.key <= f.Large().key {
      var f :| f in c.Inputs() && y in f.entries;
      WithinBounds(f, y);
    }
    assert o.Small() in o.entries && o.Large() in o.entries;
  }

  lemma InstalledLevelKeysDisjoint(before: seq<File>, after: seq<File>, outs: seq<File>, here: bool)
    requires KeysDisjoint(before) && KeysDisjoint(outs)
    requires forall g :: g in after ==> (here && g in outs) || g in before
    requires here ==> forall g, o :: g in after && g !in outs && o in outs ==>
      g.Large().key < o.Small().key || o.Large().key < g.Small().key
    ensures KeysDisjoint(after)
  {
  }

  lemma InstalledAtKeysDisjoint(levels: Levels, after: Levels, c: Compaction, outs: seq<File>, l: nat)
    requires c.level + 1 < NUM_LEVELS && l < NUM_LEVELS && Installed(levels, after, c, outs)
    requires KeysDisjoint(levels[l]) && KeysDisjoint(outs) && AllSorted(c.Inputs())
    requires NeighbourKeysBeside(levels[c.level + 1], c)
    requires forall o, y :: o in outs && y in o.entries ==> y in FileEntries(c.Inputs())
    ensures KeysDisjoint(after[l])
  {
    hide KeysDisjoint, KeysBeside;
    forall g | g in after[l] ensures (l == c.level + 1 && g in outs) || StaysIn(levels, c, l, g) {
    }
    if l == c.level + 1 {
      forall g, o | g in after[l] && g !in outs && o in outs
        ensures g.Large().key < o.Small().key || o.Large().key < g.Small().key
      {
        OutputKeysBeside(c, o, g);
      }
    }
    InstalledLevelKeysDisjoint(levels[l], after[l], outs, l == c.level + 1);
  }

  lemma InstallKeepsKeysDisjoint(levels: Levels, after: Levels, c: Compaction, outs: seq<File>)
    requires c.level + 1 < NUM_LEVELS && LevelsKeysDisjoint(levels) && Installed(levels, after, c, outs)
    requires NeighbourKeysBeside(levels[c.level + 1], c) && KeysDisjoint(outs) && AllSorted(c.Inputs())
    requires forall o, y :: o in outs && y in o.entries ==> y in FileEntries(c.Inputs())
    ensures LevelsKeysDisjoint(after)
  {
    forall l: nat | 1 <= l < NUM_LEVELS ensures KeysDisjoint(after[l]) {
      InstalledAtKeysDisjoint(levels, after, c, outs, l);
    }
  }

  lemma PlaceKeepsKeysDisjoint(levels: Levels, after: Levels, level: nat, f: File)
    requires LevelsKeysDisjoint(levels) && level < NUM_LEVELS && Edited(levels, after, NO_FILES, Added(level, [f]))
    requires level > 0 ==> NoOverlap(levels[level], f.Small().key, f.Large().key)
    ensures LevelsKeysDisjoint(after)
  {
    forall l: nat | 1 <= l < NUM_LEVELS ensures KeysDisjoint(after[l]) {
      assert LevelEdit(levels[l], after[l], NO_FILES[l], Added(level, [f])[l]);
      assert KeysDisjoint(levels[l]);
    }
  }

  lemma MoveKeepsKeysDisjoint(levels: Levels, after: Levels, level: nat, f: File)
    requires LevelsKeysDisjoint(levels) && level + 1 < NUM_LEVELS && Moved(levels, after, level, f)
    requires forall g :: g in levels[level + 1] ==> !g.Meets(f.Small().key, f.Large().key)
    ensures LevelsKeysDisjoint(after)
  {
    forall l: nat | 1 <= l < NUM_LEVELS ensures KeysDisjoint(after[l]) {
      assert KeysDisjoint(levels[l]);
      assert forall g :: g in after[l] ==> (l == level + 1 && g == f) || g in levels[l];
      assert l == level + 1 ==> forall g :: g in levels[l] ==> !g.Meets(f.Small().key, f.Large().key);
    }
  }

  // The steps of a database that compacts only while no snapshot is live, and
  // picks its inputs automatically. No condition on what is left behind.
  ghost predicate EnabledUnguarded(s: State, a: Action) {
    match a
    case FlushMem(level, f) =>
      s.imm.Some? && f.entries == s.imm.value && f.number == s.nextFile && PlacedBy(s.levels, level, f)
    case MoveFile(c, f) => s.pending == None && ChosenFrom(s.levels, c) && c.inputs0 == [f] && c.inputs1 == []
    case PickInputs(c) => s.pending == None && s.snapshots == [] && ChosenFrom(s.levels, c) && GapFree(c.Inputs())
    case _ => Enabled(s, a)
  }

  lemma GuardHolds(s: State, a: Action)
    requires Inv(s) && Unsplit(s) && EnabledUnguarded(s, a)
    ensures Enabled(s, a)
  {
    forall l | 0 <= l < NUM_LEVELS ensures AllSorted(s.levels[l]) {
      assert l > 0 ==> LevelSorted(s.levels[l]);
    }
    match a
    case FlushMem(level, f) =>
      if s.pending.Some? {
        InputsSorted(s.levels, s.pending.value.c);
        GapFreeIsClear(s.levels, s.pending.value, level, f);
      }
    case MoveFile(c, f) => DisjointIsBoundaryClosed(s.levels, c);
    case PickInputs(c) =>
      DisjointIsBoundaryClosed(s.levels, c);
      ClosedMergeIsSafe(s.levels, c, SmallestSnapshot(s));
    case _ =>
  }

  lemma PickIsHideable(levels: Levels, flushed: seq<Entry>, c: Compaction, p: Pending)
    requires ChosenFrom(levels, c) && Contents(levels) <= ToSet(flushed) && p.c == c
    requires forall e :: e in flushed ==> e.sn <= p.smallestSnapshot
    ensures AllHideable(p)
  {
    ChosenInputs(levels, c);
    forall e | e in FileEntries(c.Inputs()) ensures e.sn <= p.smallestSnapshot {
      var f :| f in c.Inputs() && e in f.entries;
      assert f in c.inputs0 || f in c.inputs1;
      var l := if f in c.inputs0 then c.level else c.level + 1;
      assert e in FileEntries(levels[l]);
      assert e in Contents(levels);
    }
  }

  lemma FlushKeepsUnsplitPending(levels: Levels, after: Levels, p: Pending, level: nat, f: File)
    requires PendingOk(levels, p) && UnsplitPending(levels, p) && Sorted(f.entries) && PlacedBy(levels, level, f)
    requires level < NUM_LEVELS && Edited(levels, after, NO_FILES, Added(level, [f]))
    ensures UnsplitPending(after, p)
  {
    hide GapFree, KeysBeside;
    var l1 := p.c.level + 1;
    assert LevelEdit(levels[l1], after[l1], NO_FILES[l1], Added(level, [f])[l1]);
    if level == l1 { GapFreeIsBeside(levels, p.c, level, f); }
  }

  lemma FlushKeepsUnsplit(s: State, level: nat, f: File)
    requires Inv(s) && Unsplit(s) && Enabled(s, FlushMem(level, f))
    ensures Unsplit(Flush(s, ApplyEdit(s.levels, FlushEdit(level, f))))
  {
    var after := ApplyEdit(s.levels, FlushEdit(level, f));
    assert forall l, g :: 0 <= l < NUM_LEVELS && g in s.levels[l] ==> NumbersBelow(s.levels[l], s.nextFile, s.pendingOutputs);
    FlushIsEdit(s.levels, level, f, s.nextFile);
    PlaceKeepsKeysDisjoint(s.levels, after, level, f);
    if s.pending.Some? {
      FlushKeepsUnsplitPending(s.levels, after, s.pending.value, level, f);
    }
  }

  lemma FinishKeepsUnsplit(levels: Levels, after: Levels, p: Pending, input: Run, outs: seq<File>)
    requires WellFormed(levels) && PendingOk(levels, p) && LevelsKeysDisjoint(levels) && UnsplitPending(levels, p)
    requires IsOutput(p, input, outs) && Edited(levels, after, Removed(p.c), Added(p.c.level + 1, outs))
    requires p.smallestSnapshot < MAX_SEQUENCE_NUMBER
    ensures LevelsKeysDisjoint(after)
  {
    hide IsOutput, Edited;
    InstallMembers(levels, after, p.c, outs);
    OutputsKeysDisjoint(p, input, outs);
    OutputEntries(p, input, outs);
    InputsSorted(levels, p.c);
    forall o, y | o in outs && y in o.entries ensures y in FileEntries(p.c.Inputs()) {
      assert Survives(p.Merged(), y);
    }
    InstallKeepsKeysDisjoint(levels, after, p.c, outs);
  }

  lemma MoveKeepsUnsplit(levels: Levels, c: Compaction, f: File)
    requires WellFormed(levels) && Ordered(levels[0]) && NumbersUnique(levels) && LevelsKeysDisjoint(levels)
    requires ChosenFrom(levels, c) && c.inputs0 == [f] && c.inputs1 == []
    ensures LevelsKeysDisjoint(ApplyEdit(levels, MoveEdit(c.level, f)))
  {
    hide ApplyEdit, KeysDisjoint;
    var after := ApplyEdit(levels, MoveEdit(c.level, f));
    ChosenInputs(levels, c);
    assert f in c.inputs0;
    MoveIsEdit(levels, c.level, f);
    MoveMembers(levels, after, c.level, f);
    MoveKeepsKeysDisjoint(levels, after, c.level, f);
  }

  lemma PickKeepsUnsplit(s: State, c: Compaction)
    requires Inv(s) && Unsplit(s) && EnabledUnguarded(s, PickInputs(c))
    ensures UnsplitPending(s.levels, Pending(c, s.levels, SmallestSnapshot(s)))
  {
    var p := Pending(c, s.levels, SmallestSnapshot(s));
    UnchosenKeysBeside(s.levels, c);
    forall e | e in s.flushed ensures e.sn <= s.lastSequence { assert e in s.History(); }
    PickIsHideable(s.levels, s.flushed, c, p);
  }

  lemma StepKeepsUnsplit(s: State, a: Action)
    requires Inv(s) && Unsplit(s) && EnabledUnguarded(s, a) && Enabled(s, a)
    ensures Unsplit(Perform(s, a))
  {
    match a
    case FlushMem(level, f) => FlushKeepsUnsplit(s, level, f);
    case MoveFile(c, f) => MoveKeepsUnsplit(s.levels, c, f);
    case PickInputs(c) => PickKeepsUnsplit(s, c);
    case FinishCompaction(input, outs) =>
      var p := s.pending.value;
      InstallIsEdit(s.levels, p.c, outs, s.nextFile, s.pendingOutputs);
      FinishKeepsUnsplit(s.levels, ApplyEdit(s.levels, InstallEdit(p.c, outs)), p, input, outs);
    case _ =>
  }

  ghost predicate RunsUnguardedTo(s: State, actions: seq<Action>, t: State)
    decreases |actions|
  {
    if |actions| == 0 then s == t
    else EnabledUnguarded(s, actions[0]) && RunsUnguardedTo(Perform(s, actions[0]), actions[1..], t)
  }

  lemma UnguardedStep(s: State, a: Action)
    requires Inv(s) && Unsplit(s) && EnabledUnguarded(s, a)
    ensures Enabled(s, a) && Possible(s, a) && Inv(Perform(s, a)) && Unsplit(Perform(s, a))
  {
    GuardHolds(s, a);
    StepIsSafe(s, a);
    StepKeepsUnsplit(s, a);
  }

  // Compacting only without live snapshots, the database never splits a user
  // key across files and needs no boundary condition at all.
  lemma {:induction false} RunsWithoutOldSnapshots(s: State, actions: seq<Action>, t: State)
    requires Inv(s) && Unsplit(s) && RunsUnguardedTo(s, actions, t)
    ensures RunsTo(s, actions, t) && Inv(t) && Unsplit(t)
    decreases |actions|
  {
    if |actions| > 0 {
      UnguardedStep(s, actions[0]);
      RunsWithoutOldSnapshots(Perform(s, actions[0]), actions[1..], t);
    }
  }

  // So there Get is right with no condition on what is picked.
  lemma GetIsRightWithoutOldSnapshots(actions: seq<Action>, t: State, k: UserKey, sn: nat)
    requires RunsUnguardedTo(Empty(), actions, t)
    requires sn == t.lastSequence || sn in t.snapshots
    ensures DbGet(t.mem, t.imm, t.levels, k, sn) == Read(t.History(), k, sn)
  {
    EmptyIsSafe();
    assert forall l :: 0 <= l < NUM_LEVELS ==> Empty().levels[l] == [];
    RunsWithoutOldSnapshots(Empty(), actions, t);
    GetIsRightInEveryReachableState(actions, t, k, sn);
  }
}
