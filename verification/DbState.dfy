// The database as a state machine: what every step keeps, and why Get reads
// the plain write history.

module DbState {
  import opened Wrappers
  import opened Entries
  import opened Files
  import opened VersionSearch
  import opened VersionBuilder
  import opened OverlappingInputs
  import opened CompactionInputs
  import opened CompactionWork
  import opened LevelEdits

  // A compaction that is running with the mutex released: its inputs, the
  // version they were picked from, and the oldest snapshot then.
  datatype Pending = Pending(c: Compaction, base: Levels, smallestSnapshot: nat) {
    ghost function Merged(): Merge {
      Merge(FileEntries(c.Inputs()), smallestSnapshot, base, c.level)
    }
  }

  datatype State = State(
    mem: Run,                      // mem_
    imm: Option<Run>,              // imm_
    levels: Levels,                // versions_->current()
    lastSequence: nat,             // versions_->LastSequence()
    snapshots: seq<nat>,           // snapshots_, oldest first
    pending: Option<Pending>,
    pendingOutputs: set<nat>,      // pending_outputs_
    nextFile: nat,                 // next_file_number_
    // The write history, split by where its groups live: in table files, in
    // the log of imm_, in the log of mem_, and the group being written now
    // with the number of its entries already inserted.
    flushed: seq<Entry>,
    immGroups: seq<Run>,
    memGroups: seq<Run>,
    inflight: Run,
    applied: nat,
    // Oldest sequence number that table files still answer for.
    horizon: nat)
  {
    function History(): seq<Entry> {
      flushed + Flatten(immGroups) + Flatten(memGroups)
    }
  }

  ghost predicate HistoryOk(s: State) {
    && IsHistory(s.History())
    && (forall e :: e in s.History() ==> e.sn <= s.lastSequence)
    && s.lastSequence + |s.inflight| < MAX_SEQUENCE_NUMBER
    && s.applied <= |s.inflight|
    && forall i :: 0 <= i < |s.inflight| ==> s.inflight[i].sn == s.lastSequence + 1 + i
  }

  ghost predicate MemTablesOk(s: State) {
    && s.applied <= |s.inflight|
    && Sorted(s.mem)
    && ToSet(s.mem) == ToSet(Flatten(s.memGroups)) + ToSet(s.inflight[..s.applied])
    && (s.imm == None ==> s.immGroups == [])
    && (s.imm.Some? ==> Sorted(s.imm.value) && ToSet(s.imm.value) == ToSet(Flatten(s.immGroups)))
  }

  // Table files answer every read from the horizon on.
  ghost predicate AnswersFrom(es: set<Entry>, h: seq<Entry>, horizon: nat) {
    forall k, sn: nat :: horizon <= sn ==> Answer(es, k, sn, Read(h, k, sn))
  }

  ghost predicate LevelsOk(levels: Levels, flushed: seq<Entry>, horizon: nat) {
    && WellFormed(levels)
    && Ordered(levels[0])
    && Contents(levels) <= ToSet(flushed)
    && AnswersFrom(Contents(levels), flushed, horizon)
  }

  ghost predicate NumbersOk(levels: Levels, nextFile: nat, pendingOutputs: set<nat>) {
    && NumbersUnique(levels)
    && (forall l :: 0 <= l < NUM_LEVELS ==> NumbersBelow(levels[l], nextFile, pendingOutputs))
    && (forall n :: n in pendingOutputs ==> n < nextFile)
  }

  ghost predicate NumbersBelow(files: seq<File>, nextFile: nat, pendingOutputs: set<nat>) {
    forall f :: f in files ==> f.number < nextFile && f.number !in pendingOutputs
  }

  ghost predicate SnapshotsOk(s: State) {
    && s.horizon <= s.lastSequence
    && (forall i :: 0 <= i < |s.snapshots| ==> s.horizon <= s.snapshots[i] <= s.lastSequence)
    && (forall i, j :: 0 <= i < j < |s.snapshots| ==> s.snapshots[i] <= s.snapshots[j])
  }

  ghost predicate InputsPresent(levels: Levels, c: Compaction)
    requires c.level + 1 < NUM_LEVELS
  {
    && (forall f :: f in c.inputs0 ==> f in levels[c.level])
    && (forall f :: f in c.inputs1 ==> f in levels[c.level + 1])
  }

  // What survives the merge is older than what the other files of the level
  // hold of the same keys.
  ghost predicate KeptIsOlder(files: seq<File>, inputs: seq<File>, m: Merge) {
    forall g, x, y :: g in files && g !in inputs && x in g.entries && Survives(m, y) && x.key == y.key ==> x.sn > y.sn
  }

  // A file lies before or behind everything that survives.
  ghost predicate ClearOfKept(g: File, m: Merge) {
    || (forall y :: Survives(m, y) ==> Before(y, g.Small()))
    || (forall y :: Survives(m, y) ==> Before(g.Large(), y))
  }

  ghost predicate NeighboursClear(files: seq<File>, inputs: seq<File>, m: Merge) {
    forall g :: g in files && g !in inputs ==> ClearOfKept(g, m)
  }

  ghost predicate PendingOk(levels: Levels, p: Pending) {
    && p.c.level + 1 < NUM_LEVELS
    && InputsPresent(levels, p.c)
    && KeptIsOlder(levels[p.c.level], p.c.inputs0, p.Merged())
    && NeighboursClear(levels[p.c.level + 1], p.c.inputs1, p.Merged())
    && NothingUncovered(Contents(levels), p.Merged())
    && (forall l :: 1 <= l < NUM_LEVELS ==> LevelSorted(p.base[l]))
  }

  ghost predicate CompactionOk(s: State) {
    s.pending.Some? ==>
      && PendingOk(s.levels, s.pending.value)
      && s.horizon <= s.pending.value.smallestSnapshot <= s.lastSequence
      && forall i :: 0 <= i < |s.snapshots| ==> s.pending.value.smallestSnapshot <= s.snapshots[i]
  }

  ghost predicate Inv(s: State) {
    && HistoryOk(s)
    && MemTablesOk(s)
    && LevelsOk(s.levels, s.flushed, s.horizon)
    && NumbersOk(s.levels, s.nextFile, s.pendingOutputs)
    && SnapshotsOk(s)
    && CompactionOk(s)
  }

  // -------------------------------------------------------------------- Get

  // DBImpl::Get: memtable, then immutable memtable, then the version.
  function DbGet(mem: Run, imm: Option<Run>, levels: Levels, k: UserKey, sn: nat): Option<Value> {
    var m := RunGet(mem, k, sn);
    if m.Some? then ResultOf(m.value)
    else
      var i := if imm.Some? then RunGet(imm.value, k, sn) else None;
      if i.Some? then ResultOf(i.value)
      else SearchFrom(levels, 0, k, sn)
  }

  // Newer operations decide if any of them is visible.
  lemma {:induction false} ReadOfConcat(h: seq<Entry>, g: seq<Entry>, k: UserKey, sn: nat)
    ensures Absent(ToSet(g), k, sn) ==> Read(h + g, k, sn) == Read(h, k, sn)
    ensures !Absent(ToSet(g), k, sn) ==> Read(h + g, k, sn) == Read(g, k, sn)
  {
    if |g| == 0 {
      assert h + g == h;
    } else {
      var front := g[..|g| - 1];
      ReadOfConcat(h, front, k, sn);
      assert (h + g)[..|h + g| - 1] == h + front;
      assert forall e :: e in g <==> e in front || e == g[|g| - 1];
    }
  }

  lemma PartsOfHistory(h: seq<Entry>, g: seq<Entry>)
    requires IsHistory(h + g)
    ensures IsHistory(h) && IsHistory(g)
    ensures forall a, b :: a in h && b in g ==> a.sn < b.sn
    ensures UniqueNumbers(ToSet(h + g)) && UniqueNumbers(ToSet(h)) && UniqueNumbers(ToSet(g))
  {
    var hg := h + g;
    assert forall i :: 0 <= i < |h| ==> hg[i] == h[i];
    assert forall i :: 0 <= i < |g| ==> hg[|h| + i] == g[i];
    forall a, b | a in h && b in g ensures a.sn < b.sn {
      var i :| 0 <= i < |h| && h[i] == a;
      var j :| 0 <= j < |g| && g[j] == b;
      assert hg[i].sn < hg[|h| + j].sn;
    }
  }

  // A memtable holding these groups, plus entries too new to be visible.
  lemma MemTableDecides(run: Run, g: seq<Entry>, tooNew: seq<Entry>, k: UserKey, sn: nat)
    requires Sorted(run) && IsHistory(g) && ToSet(run) == ToSet(g) + ToSet(tooNew)
    requires forall e :: e in tooNew ==> e.sn > sn
    ensures RunGet(run, k, sn) == None <==> Absent(ToSet(g), k, sn)
    ensures RunGet(run, k, sn).Some? ==> ResultOf(RunGet(run, k, sn).value) == Read(g, k, sn)
  {
    RunGetIsNewest(run, k, sn);
    ReadIsAnswer(g, k, sn);
    if RunGet(run, k, sn).Some? {
      var e :| IsNewest(ToSet(run), k, sn, e) && RunGet(run, k, sn) == Some(e.op);
      assert e in ToSet(g) && IsNewest(ToSet(g), k, sn, e);
      AnswerIsUnique(ToSet(g), k, sn, ResultOf(e.op), Read(g, k, sn));
    }
  }

  // In a state the machine can reach, Get at the last sequence number or at
  // any live snapshot reads the plain history.
  lemma GetReadsHistory(s: State, k: UserKey, sn: nat)
    requires Inv(s) && s.horizon <= sn <= s.lastSequence
    ensures DbGet(s.mem, s.imm, s.levels, k, sn) == Read(s.History(), k, sn)
  {
    GetWithNewerEntries(s, s.mem, s.inflight[..s.applied], k, sn);
  }

  // The same holds for a reader that picked up memtable, immutable memtable
  // and version under the mutex and then reads while the memtable grows.
  lemma GetWithNewerEntries(s: State, mem: Run, tooNew: seq<Entry>, k: UserKey, sn: nat)
    requires Inv(s) && s.horizon <= sn <= s.lastSequence
    requires Sorted(mem) && ToSet(mem) == ToSet(Flatten(s.memGroups)) + ToSet(tooNew)
    requires forall e :: e in tooNew ==> e.sn > s.lastSequence
    ensures DbGet(mem, s.imm, s.levels, k, sn) == Read(s.History(), k, sn)
  {
    var m, i := Flatten(s.memGroups), Flatten(s.immGroups);
    PartsOfHistory(s.flushed + i, m);
    PartsOfHistory(s.flushed, i);
    ReadOfConcat(s.flushed + i, m, k, sn);
    ReadOfConcat(s.flushed, i, k, sn);
    MemTableDecides(mem, m, tooNew, k, sn);
    if s.imm.Some? {
      MemTableDecides(s.imm.value, i, [], k, sn);
    } else {
      assert i == [];
    }
    SearchIsAnswer(s.levels, k, sn);
    assert UniqueNumbers(Contents(s.levels));
    AnswerIsUnique(Contents(s.levels), k, sn, SearchFrom(s.levels, 0, k, sn), Read(s.flushed, k, sn));
  }

  // ------------------------------------------------------------ write path

  // The record is in the log; nothing is inserted yet.
  function BeginGroup(s: State, group: Run): State {
    s.(inflight := group, applied := 0)
  }

  // One more entry goes into the memtable, without the mutex.
  function ApplyNext(s: State): State
    requires s.applied < |s.inflight|
  {
    s.(mem := Insert(s.mem, s.inflight[s.applied]), applied := s.applied + 1)
  }

  // SetLastSequence makes the whole group visible at once.
  function Publish(s: State): State {
    s.(lastSequence := s.lastSequence + |s.inflight|, memGroups := s.memGroups + [s.inflight], inflight := [], applied := 0)
  }

  ghost predicate NumberedAfter(group: Run, lastSequence: nat) {
    && lastSequence + |group| < MAX_SEQUENCE_NUMBER
    && forall i :: 0 <= i < |group| ==> group[i].sn == lastSequence + 1 + i
  }

  lemma BeginGroupKeepsInv(s: State, group: Run)
    requires Inv(s) && s.inflight == [] && NumberedAfter(group, s.lastSequence)
    ensures Inv(BeginGroup(s, group))
    ensures BeginGroup(s, group).History() == s.History()
  {
    assert s.inflight[..s.applied] == group[..0] == [];
  }

  lemma ApplyNextKeepsInv(s: State)
    requires Inv(s) && s.applied < |s.inflight|
    ensures Inv(ApplyNext(s))
    ensures ApplyNext(s).History() == s.History()
  {
    var e := s.inflight[s.applied];
    forall x | x in s.mem ensures x.sn < e.sn {
      assert x in ToSet(s.mem);
      assert x in Flatten(s.memGroups) ==> x in s.History();
    }
    InsertKeepsSorted(s.mem, e);
    assert s.inflight[..s.applied + 1] == s.inflight[..s.applied] + [e];
  }

  // Readers see the group not at all before this step and entirely after it.
  lemma PublishKeepsInv(s: State)
    requires Inv(s) && s.applied == |s.inflight|
    ensures Inv(Publish(s))
    ensures Publish(s).History() == s.History() + s.inflight
  {
    var s' := Publish(s);
    FlattenSnoc(s.memGroups, s.inflight);
    assert s'.History() == s.History() + s.inflight;
    assert s.inflight[..s.applied] == s.inflight;
    var h, g, hg := s.History(), s.inflight, s'.History();
    forall a, b | 0 <= a < b < |hg| ensures hg[a].sn < hg[b].sn {
      if a < |h| && b >= |h| { assert h[a] in h; }
    }
  }

  // MakeRoomForWrite's last branch: a fresh memtable and log.
  function SwitchMemTable(s: State): State {
    s.(imm := Some(s.mem), mem := [], immGroups := s.memGroups, memGroups := [], nextFile := s.nextFile + 1)
  }

  lemma SwitchKeepsInv(s: State)
    requires Inv(s) && s.imm == None && s.inflight == []
    ensures Inv(SwitchMemTable(s))
    ensures SwitchMemTable(s).History() == s.History()
  {
    var s' := SwitchMemTable(s);
    assert Flatten(s.immGroups) == [] && Flatten(s'.memGroups) == [];
    assert s'.History() == s.History();
    assert s.inflight[..s.applied] == [];
  }

  // ------------------------------------------------------------- snapshots

  function NewSnapshot(s: State): State {
    s.(snapshots := s.snapshots + [s.lastSequence])
  }

  function ReleaseSnapshot(s: State, i: nat): State
    requires i < |s.snapshots|
  {
    s.(snapshots := s.snapshots[..i] + s.snapshots[i + 1..])
  }

  // SnapshotList::oldest, or the last sequence number without snapshots.
  function SmallestSnapshot(s: State): nat {
    if |s.snapshots| == 0 then s.lastSequence else s.snapshots[0]
  }

  lemma NewSnapshotKeepsInv(s: State)
    requires Inv(s)
    ensures Inv(NewSnapshot(s))
  {
  }

  lemma ReleaseSnapshotKeepsInv(s: State, i: nat)
    requires Inv(s) && i < |s.snapshots|
    ensures Inv(ReleaseSnapshot(s, i))
  {
    var s' := ReleaseSnapshot(s, i);
    forall j | 0 <= j < |s'.snapshots| ensures s'.snapshots[j] == s.snapshots[if j < i then j else j + 1] {
    }
    assert SnapshotsOk(s');
    assert CompactionOk(s');
  }

  lemma SmallestSnapshotIsOldest(s: State)
    requires Inv(s)
    ensures s.horizon <= SmallestSnapshot(s) <= s.lastSequence
    ensures forall i :: 0 <= i < |s.snapshots| ==> SmallestSnapshot(s) <= s.snapshots[i]
    ensures SmallestSnapshot(s) in s.snapshots || (s.snapshots == [] && SmallestSnapshot(s) == s.lastSequence)
  {
  }
}
