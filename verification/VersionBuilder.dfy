// VersionSet::Builder: applying version edits to a version, one edit at a
// time while running, or a whole manifest at once when recovering.

module VersionBuilder {
  import opened Entries
  import opened Files

  datatype VersionEdit = VersionEdit(deletedFiles: set<(nat, nat)>, newFiles: seq<(nat, File)>)

  // BySmallestKey: by smallest internal key, ties broken by file number.
  predicate Less(f: File, g: File) {
    Before(f.Small(), g.Small()) || (!Before(g.Small(), f.Small()) && f.number < g.number)
  }

  ghost predicate Ordered(files: seq<File>) {
    forall i, j :: 0 <= i < j < |files| ==> Less(files[i], files[j])
  }

  function Numbers(files: seq<File>): set<nat> {
    set f | f in files :: f.number
  }

  // ------------------------------------------------------- one level's state

  datatype LevelState = LevelState(deleted: set<nat>, added: seq<File>)

  // std::set insertion: an equivalent element stays as it is.
  function AddFile(added: seq<File>, f: File): seq<File> {
    if |added| == 0 || Less(f, added[0]) then [f] + added
    else if Less(added[0], f) then [added[0]] + AddFile(added[1..], f)
    else added
  }

  function Surviving(f: File, deleted: set<nat>): seq<File> {
    if f.number in deleted then [] else [f]
  }

  // Merge base files from index b with added files from index a, equal base
  // files first, and drop deleted numbers.
  function SavedFrom(base: seq<File>, state: LevelState, b: nat, a: nat): seq<File>
    requires b <= |base| && a <= |state.added|
    decreases |base| - b + |state.added| - a
  {
    if b < |base| && (a < |state.added| ==> !Less(state.added[a], base[b])) then
      Surviving(base[b], state.deleted) + SavedFrom(base, state, b + 1, a)
    else if a < |state.added| then
      Surviving(state.added[a], state.deleted) + SavedFrom(base, state, b, a + 1)
    else []
  }

  function Saved(base: seq<File>, state: LevelState): seq<File> {
    SavedFrom(base, state, 0, 0)
  }

  // ------------------------------------------------------------ the builder

  // The part of an edit that concerns one level.
  function DeletedAt(edit: VersionEdit, level: nat): set<nat> {
    set d | d in edit.deletedFiles && d.0 == level :: d.1
  }

  function AddedAt(newFiles: seq<(nat, File)>, level: nat): seq<File> {
    if |newFiles| == 0 then []
    else
      var last := newFiles[|newFiles| - 1];
      AddedAt(newFiles[..|newFiles| - 1], level) + (if last.0 == level then [last.1] else [])
  }

  function AddAll(state: LevelState, files: seq<File>): LevelState {
    if |files| == 0 then state
    else
      var s := AddAll(state, files[..|files| - 1]);
      var f := files[|files| - 1];
      LevelState(s.deleted - {f.number}, AddFile(s.added, f))
  }

  function ApplyAt(state: LevelState, edit: VersionEdit, level: nat): LevelState {
    AddAll(state.(deleted := state.deleted + DeletedAt(edit, level)), AddedAt(edit.newFiles, level))
  }

  function ApplyAllAt(edits: seq<VersionEdit>, level: nat): LevelState {
    if |edits| == 0 then LevelState({}, [])
    else ApplyAt(ApplyAllAt(edits[..|edits| - 1], level), edits[|edits| - 1], level)
  }

  // The version LogAndApply installs for one edit.
  function ApplyEdit(levels: Levels, edit: VersionEdit): Levels {
    seq(NUM_LEVELS, l requires 0 <= l < NUM_LEVELS => Saved(levels[l], ApplyAt(LevelState({}, []), edit, l)))
  }

  function ApplyEdits(levels: Levels, edits: seq<VersionEdit>): Levels {
    if |edits| == 0 then levels
    else ApplyEdit(ApplyEdits(levels, edits[..|edits| - 1]), edits[|edits| - 1])
  }

  class Builder {
    const base: Levels
    var levels: seq<LevelState>

    ghost predicate Valid() reads this {
      |levels| == NUM_LEVELS
    }

    constructor (base: Levels)
      ensures Valid() && this.base == base
      ensures forall l :: 0 <= l < NUM_LEVELS ==> levels[l] == LevelState({}, [])
    {
      this.base := base;
      levels := seq(NUM_LEVELS, _ => LevelState({}, []));
    }

    method Apply(edit: VersionEdit)
      requires Valid()
      requires forall n :: n in edit.newFiles ==> n.0 < NUM_LEVELS
      modifies this
      ensures Valid()
      ensures forall l :: 0 <= l < NUM_LEVELS ==> levels[l] == ApplyAt(old(levels[l]), edit, l)
    {
      var before := levels;
      levels := seq(NUM_LEVELS, l requires 0 <= l < NUM_LEVELS =>
        before[l].(deleted := before[l].deleted + DeletedAt(edit, l)));
      ghost var start := levels;
      var i := 0;
      while i < |edit.newFiles|
        invariant i <= |edit.newFiles| && Valid()
        invariant forall l :: 0 <= l < NUM_LEVELS ==> levels[l] == AddAll(start[l], AddedAt(edit.newFiles[..i], l))
      {
        var (level, f) := edit.newFiles[i];
        assert edit.newFiles[i] in edit.newFiles;
        assert edit.newFiles[..i + 1][..i] == edit.newFiles[..i];
        forall l | 0 <= l < NUM_LEVELS
          ensures AddAll(start[l], AddedAt(edit.newFiles[..i + 1], l))
            == if l == level then LevelState(levels[l].deleted - {f.number}, AddFile(levels[l].added, f)) else levels[l]
        {
          AddAllSnoc(start[l], AddedAt(edit.newFiles[..i], l), f);
          assert AddedAt(edit.newFiles[..i], l) + [] == AddedAt(edit.newFiles[..i], l);
        }
        levels := levels[level := LevelState(levels[level].deleted - {f.number}, AddFile(levels[level].added, f))];
        i := i + 1;
      }
      assert edit.newFiles[..i] == edit.newFiles;
    }

    method SaveTo() returns (v: Levels)
      requires Valid()
      ensures forall l :: 0 <= l < NUM_LEVELS ==> v[l] == Saved(base[l], levels[l])
    {
      var out: seq<seq<File>> := [];
      var level := 0;
      while level < NUM_LEVELS
        invariant level <= NUM_LEVELS && |out| == level
        invariant forall l :: 0 <= l < level ==> out[l] == Saved(base[l], levels[l])
      {
        var files := SaveLevel(base[level], levels[level]);
        out := out + [files];
        level := level + 1;
      }
      v := out;
    }
  }

  lemma AddAllSnoc(state: LevelState, files: seq<File>, f: File)
    ensures AddAll(state, files + [f])
      == LevelState(AddAll(state, files).deleted - {f.number}, AddFile(AddAll(state, files).added, f))
  {
    assert (files + [f])[..|files|] == files;
  }

  lemma Regroup(x: seq<File>, y: seq<File>, z: seq<File>)
    ensures x + (y + z) == (x + y) + z
  {
  }

  lemma TakeBase(v: seq<File>, base: seq<File>, state: LevelState, b: nat, a: nat)
    requires b < |base| && a <= |state.added| && (a < |state.added| ==> !Less(state.added[a], base[b]))
    ensures v + SavedFrom(base, state, b, a) == v + Surviving(base[b], state.deleted) + SavedFrom(base, state, b + 1, a)
  {
    hide Surviving, Less;
    Regroup(v, Surviving(base[b], state.deleted), SavedFrom(base, state, b + 1, a));
  }

  lemma TakeAdded(v: seq<File>, base: seq<File>, state: LevelState, b: nat, a: nat)
    requires b <= |base| && a < |state.added| && (b < |base| ==> Less(state.added[a], base[b]))
    ensures v + SavedFrom(base, state, b, a) == v + Surviving(state.added[a], state.deleted) + SavedFrom(base, state, b, a + 1)
  {
    hide Surviving, Less;
    Regroup(v, Surviving(state.added[a], state.deleted), SavedFrom(base, state, b, a + 1));
  }

  lemma NothingSaved(base: seq<File>, state: LevelState)
    ensures [] + SavedFrom(base, state, 0, 0) == Saved(base, state)
    ensures SavedFrom(base, state, |base|, |state.added|) == []
  {
  }

  // One pass over both sorted lists, dropping deleted files.
  method SaveLevel(base: seq<File>, state: LevelState) returns (v: seq<File>)
    ensures v == Saved(base, state)
  {
    hide Surviving, SavedFrom, Saved, Less;
    v := [];
    var b, a := 0, 0;
    NothingSaved(base, state);
    while a < |state.added|
      invariant b <= |base| && a <= |state.added|
      invariant v + SavedFrom(base, state, b, a) == Saved(base, state)
    {
      while b < |base| && !Less(state.added[a], base[b])
        invariant b <= |base|
        invariant v + SavedFrom(base, state, b, a) == Saved(base, state)
      {
        TakeBase(v, base, state, b, a);
        v := v + Surviving(base[b], state.deleted);
        b := b + 1;
      }
      TakeAdded(v, base, state, b, a);
      v := v + Surviving(state.added[a], state.deleted);
      a := a + 1;
    }
    while b < |base|
      invariant b <= |base|
      invariant v + SavedFrom(base, state, b, a) == Saved(base, state)
    {
      TakeBase(v, base, state, b, a);
      v := v + Surviving(base[b], state.deleted);
      b := b + 1;
    }
  }

  // -------------------------------------------------- what an edit leaves

  ghost predicate FreshAt(used: set<nat>, files: seq<File>) {
    DistinctNumbers(files) && forall f :: f in files ==> f.number !in used
  }

  lemma {:induction false} AddFileKeepsOrder(added: seq<File>, f: File)
    requires Ordered(added) && f.number !in Numbers(added)
    ensures Ordered(AddFile(added, f))
    ensures forall g :: g in AddFile(added, f) <==> g == f || g in added
  {
    if |added| == 0 {
    } else if Less(f, added[0]) {
    } else {
      assert added[0] in added;
      AddFileKeepsOrder(added[1..], f);
      var rest := AddFile(added[1..], f);
      assert forall g :: g in rest ==> Less(added[0], g);
      assert added == [added[0]] + added[1..];
    }
  }

  lemma {:induction false} AddAllFresh(state: LevelState, files: seq<File>)
    requires Ordered(state.added) && FreshAt(Numbers(state.added), files)
    ensures AddAll(state, files).deleted == state.deleted - Numbers(files)
    ensures Ordered(AddAll(state, files).added)
    ensures forall g :: g in AddAll(state, files).added <==> g in state.added || g in files
  {
    if |files| > 0 {
      var front, f := files[..|files| - 1], files[|files| - 1];
      assert files == front + [f];
      AddAllFresh(state, front);
      AddFileKeepsOrder(AddAll(state, front).added, f);
      assert Numbers(files) == Numbers(front) + {f.number};
    }
  }

  lemma ConsKeepsOrder(f: File, rest: seq<File>, deleted: set<nat>)
    requires Ordered(rest) && forall g :: g in rest ==> Less(f, g)
    ensures Ordered(Surviving(f, deleted) + rest)
  {
  }

  lemma {:induction false} SavedFromMembers(base: seq<File>, state: LevelState, b: nat, a: nat)
    requires b <= |base| && a <= |state.added|
    ensures forall g :: g in SavedFrom(base, state, b, a) <==>
      (g in base[b..] || g in state.added[a..]) && g.number !in state.deleted
    decreases |base| - b + |state.added| - a
  {
    if b < |base| && (a < |state.added| ==> !Less(state.added[a], base[b])) {
      SavedFromMembers(base, state, b + 1, a);
      assert base[b..] == [base[b]] + base[b + 1..];
    } else if a < |state.added| {
      SavedFromMembers(base, state, b, a + 1);
      assert state.added[a..] == [state.added[a]] + state.added[a + 1..];
    }
  }

  lemma BelowTheRest(f: File, base: seq<File>, state: LevelState, b: nat, a: nat)
    requires b <= |base| && a <= |state.added| && Ordered(base) && Ordered(state.added)
    requires b < |base| ==> Less(f, base[b])
    requires a < |state.added| ==> Less(f, state.added[a])
    ensures forall g :: g in SavedFrom(base, state, b, a) ==> Less(f, g)
  {
    SavedFromMembers(base, state, b, a);
    forall g | g in base[b..] ensures Less(f, g) {
      var i :| b <= i < |base| && base[i] == g;
      assert i == b || Less(base[b], base[i]);
    }
    forall g | g in state.added[a..] ensures Less(f, g) {
      var i :| a <= i < |state.added| && state.added[i] == g;
      assert i == a || Less(state.added[a], state.added[i]);
    }
  }

  lemma {:induction false} SavedFromKeepsOrder(base: seq<File>, state: LevelState, b: nat, a: nat)
    requires b <= |base| && a <= |state.added|
    requires Ordered(base) && Ordered(state.added) && Numbers(base) !! Numbers(state.added)
    ensures Ordered(SavedFrom(base, state, b, a))
    decreases |base| - b + |state.added| - a
  {
    if b < |base| && (a < |state.added| ==> !Less(state.added[a], base[b])) {
      SavedFromKeepsOrder(base, state, b + 1, a);
      SavedFromMembers(base, state, b + 1, a);
      if a < |state.added| {
        assert base[b].number in Numbers(base) && state.added[a].number in Numbers(state.added);
        assert Less(base[b], state.added[a]);
      }
      BelowTheRest(base[b], base, state, b + 1, a);
      ConsKeepsOrder(base[b], SavedFrom(base, state, b + 1, a), state.deleted);
    } else if a < |state.added| {
      SavedFromKeepsOrder(base, state, b, a + 1);
      SavedFromMembers(base, state, b, a + 1);
      BelowTheRest(state.added[a], base, state, b, a + 1);
      ConsKeepsOrder(state.added[a], SavedFrom(base, state, b, a + 1), state.deleted);
    }
  }

  lemma SavedMembers(base: seq<File>, state: LevelState)
    requires Ordered(base) && Ordered(state.added) && Numbers(base) !! Numbers(state.added)
    ensures Ordered(Saved(base, state))
    ensures forall g :: g in Saved(base, state) <==> (g in base || g in state.added) && g.number !in state.deleted
  {
    SavedFromMembers(base, state, 0, 0);
    SavedFromKeepsOrder(base, state, 0, 0);
  }

  // One edit removes its deleted numbers and adds its new files.
  lemma EditedLevel(levels: Levels, edit: VersionEdit, l: nat)
    requires l < NUM_LEVELS && Ordered(levels[l])
    requires FreshAt(Numbers(levels[l]), AddedAt(edit.newFiles, l))
    ensures Ordered(ApplyEdit(levels, edit)[l])
    ensures forall g :: g in ApplyEdit(levels, edit)[l] <==>
      g in AddedAt(edit.newFiles, l) || (g in levels[l] && g.number !in DeletedAt(edit, l))
  {
    var adds := AddedAt(edit.newFiles, l);
    var start := LevelState({} + DeletedAt(edit, l), []);
    AddAllFresh(start, adds);
    var state := ApplyAt(LevelState({}, []), edit, l);
    assert state == AddAll(start, adds);
    forall n ensures !(n in Numbers(levels[l]) && n in Numbers(state.added)) {
    }
    SavedMembers(levels[l], state);
    assert forall g :: g in adds ==> g.number in Numbers(adds);
  }

  // A deeper level stays sorted when every two files that survive are disjoint.
  lemma OrderedIsSorted(files: seq<File>)
    requires Ordered(files) && AllSorted(files)
    requires forall f, g :: f in files && g in files && f != g ==>
      Before(f.Large(), g.Small()) || Before(g.Large(), f.Small())
    ensures LevelSorted(files)
  {
    forall i, j | 0 <= i < j < |files| ensures Before(files[i].Large(), files[j].Small()) {
      assert files[i] in files && files[j] in files;
      assert Less(files[i], files[j]);
      WithinBounds(files[j], files[j].Large());
    }
  }

  lemma SortedIsOrdered(files: seq<File>)
    requires LevelSorted(files)
    ensures Ordered(files)
  {
    forall i, j | 0 <= i < j < |files| ensures Less(files[i], files[j]) {
      WithinBounds(files[i], files[i].Large());
    }
  }

  // ------------------------------------------------------- manifest replay

  // Numbers a level has ever seen.
  function UsedAt(base: seq<File>, edits: seq<VersionEdit>, level: nat): set<nat> {
    if |edits| == 0 then Numbers(base)
    else
      var last := edits[|edits| - 1];
      UsedAt(base, edits[..|edits| - 1], level) + DeletedAt(last, level) + Numbers(AddedAt(last.newFiles, level))
  }

  // No file is added to a level that has already held or deleted its number.
  ghost predicate NeverReAdded(base: seq<File>, edits: seq<VersionEdit>, level: nat) {
    |edits| > 0 ==>
      && NeverReAdded(base, edits[..|edits| - 1], level)
      && FreshAt(UsedAt(base, edits[..|edits| - 1], level), AddedAt(edits[|edits| - 1].newFiles, level))
  }

  lemma {:induction false} OrderedListsWithSameMembers(a: seq<File>, b: seq<File>)
    requires Ordered(a) && Ordered(b)
    requires forall g :: g in a <==> g in b
    ensures a == b
  {
    assert |b| > 0 ==> b[0] in b && b[0] in a;
    if |a| > 0 {
      assert a[0] in b;
      assert b[0] in a;
      assert a[0] == b[0];
      assert a == [a[0]] + a[1..] && b == [b[0]] + b[1..];
      forall g ensures g in a[1..] <==> g in b[1..] {
        if g in a[1..] { assert g in a && Less(a[0], g); }
        if g in b[1..] { assert g in b && Less(b[0], g); }
      }
      OrderedListsWithSameMembers(a[1..], b[1..]);
    }
  }

  lemma {:induction false} BuilderTracksSteps(levels: Levels, edits: seq<VersionEdit>, l: nat)
    requires l < NUM_LEVELS && Ordered(levels[l]) && NeverReAdded(levels[l], edits, l)
    ensures var state := ApplyAllAt(edits, l);
      && Ordered(state.added) && Numbers(state.added) !! Numbers(levels[l])
      && Numbers(state.added) <= UsedAt(levels[l], edits, l) && state.deleted <= UsedAt(levels[l], edits, l)
      && Ordered(ApplyEdits(levels, edits)[l])
      && forall g :: g in ApplyEdits(levels, edits)[l] <==>
           (g in levels[l] || g in state.added) && g.number !in state.deleted
  {
    if |edits| > 0 {
      var front, last := edits[..|edits| - 1], edits[|edits| - 1];
      BuilderTracksSteps(levels, front, l);
      var before, used := ApplyAllAt(front, l), UsedAt(levels[l], front, l);
      var adds, current := AddedAt(last.newFiles, l), ApplyEdits(levels, front);
      UsedIncludesBase(levels[l], front, l);
      var start := before.(deleted := before.deleted + DeletedAt(last, l));
      assert FreshAt(Numbers(start.added), adds);
      AddAllFresh(start, adds);
      forall g | g in current[l] ensures g.number in used {
        assert g in levels[l] ==> g.number in Numbers(levels[l]);
        assert g in before.added ==> g.number in Numbers(before.added);
      }
      assert FreshAt(Numbers(current[l]), adds);
      EditedLevel(current, last, l);
      var state := ApplyAllAt(edits, l);
      assert forall g :: g in adds ==> g.number in Numbers(adds);
      forall n | n in Numbers(state.added) ensures n !in Numbers(levels[l]) && n in UsedAt(levels[l], edits, l) {
        var g :| g in state.added && g.number == n;
        assert g in before.added ==> n in Numbers(before.added);
      }
    }
  }

  lemma {:induction false} UsedIncludesBase(base: seq<File>, edits: seq<VersionEdit>, level: nat)
    ensures Numbers(base) <= UsedAt(base, edits, level)
  {
    if |edits| > 0 { UsedIncludesBase(base, edits[..|edits| - 1], level); }
  }

  // Recovery feeds the whole manifest through one Builder and gets exactly the
  // version that the running database reached one edit at a time.
  lemma ReplayEqualsStepwise(levels: Levels, edits: seq<VersionEdit>)
    requires forall l :: 0 <= l < NUM_LEVELS ==> Ordered(levels[l]) && NeverReAdded(levels[l], edits, l)
    ensures forall l :: 0 <= l < NUM_LEVELS ==> Saved(levels[l], ApplyAllAt(edits, l)) == ApplyEdits(levels, edits)[l]
  {
    forall l: nat | l < NUM_LEVELS ensures Saved(levels[l], ApplyAllAt(edits, l)) == ApplyEdits(levels, edits)[l] {
      BuilderTracksSteps(levels, edits, l);
      SavedMembers(levels[l], ApplyAllAt(edits, l));
      OrderedListsWithSameMembers(Saved(levels[l], ApplyAllAt(edits, l)), ApplyEdits(levels, edits)[l]);
    }
  }

  // ---------------------------------- exactly when replay may be trusted

  function FileSet(files: seq<File>): set<File> {
    set f | f in files
  }

  // Every file that the edits ever add to the level.
  function EverAdded(edits: seq<VersionEdit>, level: nat): set<File> {
    if |edits| == 0 then {}
    else EverAdded(edits[..|edits| - 1], level) + FileSet(AddedAt(edits[|edits| - 1].newFiles, level))
  }

  ghost predicate NumbersNameFiles(files: set<File>) {
    forall f, g :: f in files && g in files && f.number == g.number ==> f == g
  }

  // No edit adds a number that the level holds at that point.
  ghost predicate AddsFresh(levels: Levels, edits: seq<VersionEdit>, l: nat)
    requires l < NUM_LEVELS
  {
    |edits| > 0 ==>
      && AddsFresh(levels, edits[..|edits| - 1], l)
      && FreshAt(Numbers(ApplyEdits(levels, edits[..|edits| - 1])[l]), AddedAt(edits[|edits| - 1].newFiles, l))
  }

  ghost predicate ReplayIsStepwise(levels: Levels, edits: seq<VersionEdit>, l: nat)
    requires l < NUM_LEVELS
  {
    Saved(levels[l], ApplyAllAt(edits, l)) == ApplyEdits(levels, edits)[l]
  }

  lemma {:induction false} AddFileAgain(added: seq<File>, f: File)
    requires Ordered(added) && f in added
    ensures AddFile(added, f) == added
  {
    if f == added[0] {
    } else {
      assert added == [added[0]] + added[1..];
      AddFileAgain(added[1..], f);
      assert Less(added[0], f);
    }
  }

  lemma AddFileKnown(added: seq<File>, f: File)
    requires Ordered(added) && forall g :: g in added && g.number == f.number ==> g == f
    ensures Ordered(AddFile(added, f)) && forall g :: g in AddFile(added, f) <==> g in added || g == f
  {
    hide AddFile, Ordered, Less;
    if f in added { AddFileAgain(added, f); } else { AddFileKeepsOrder(added, f); }
  }

  lemma {:induction false} AddAllKnown(state: LevelState, files: seq<File>)
    requires Ordered(state.added) && NumbersNameFiles(FileSet(state.added) + FileSet(files))
    ensures AddAll(state, files).deleted == state.deleted - Numbers(files)
    ensures Ordered(AddAll(state, files).added)
    ensures forall g :: g in AddAll(state, files).added <==> g in state.added || g in files
  {
    hide Ordered, Less, AddFile;
    if |files| > 0 {
      var front, f := files[..|files| - 1], files[|files| - 1];
      assert files == front + [f];
      assert forall g :: g in FileSet(front) ==> g in FileSet(files);
      AddAllKnown(state, front);
      assert f in FileSet(files) && forall g :: g in state.added || g in front ==> g in FileSet(state.added) + FileSet(files);
      AddFileKnown(AddAll(state, front).added, f);
      assert Numbers(files) == Numbers(front) + {f.number};
    }
  }

  // From an empty level, with every number naming one file only.
  lemma {:induction false} BuilderTracksFiles(levels: Levels, edits: seq<VersionEdit>, l: nat)
    requires l < NUM_LEVELS && levels[l] == [] && AddsFresh(levels, edits, l) && NumbersNameFiles(EverAdded(edits, l))
    ensures var state := ApplyAllAt(edits, l);
      && Ordered(state.added) && (forall g :: g in state.added <==> g in EverAdded(edits, l))
      && Ordered(ApplyEdits(levels, edits)[l])
      && forall g :: g in ApplyEdits(levels, edits)[l] <==> g in state.added && g.number !in state.deleted
  {
    hide ApplyEdit;
    if |edits| > 0 {
      var front, last := edits[..|edits| - 1], edits[|edits| - 1];
      BuilderTracksFiles(levels, front, l);
      var before, adds, current := ApplyAllAt(front, l), AddedAt(last.newFiles, l), ApplyEdits(levels, front);
      var start := before.(deleted := before.deleted + DeletedAt(last, l));
      assert FileSet(start.added) + FileSet(adds) == EverAdded(edits, l);
      AddAllKnown(start, adds);
      EditedLevel(current, last, l);
      var state := ApplyAllAt(edits, l);
      assert forall g :: g in adds ==> g.number in Numbers(adds);
      forall g | g in state.added && g.number in Numbers(adds) ensures g in adds {
        var f :| f in adds && f.number == g.number;
        assert f in EverAdded(edits, l) && g in EverAdded(edits, l);
      }
    }
  }

  lemma {:induction false} EverAddedGrows(edits: seq<VersionEdit>, i: nat, l: nat)
    requires i <= |edits|
    ensures EverAdded(edits[..i], l) <= EverAdded(edits, l)
  {
    if i < |edits| {
      EverAddedGrows(edits[..|edits| - 1], i, l);
      assert edits[..|edits| - 1][..i] == edits[..i];
    } else {
      assert edits[..i] == edits;
    }
  }

  lemma {:induction false} AddsFreshBefore(levels: Levels, edits: seq<VersionEdit>, i: nat, l: nat)
    requires l < NUM_LEVELS && i <= |edits| && AddsFresh(levels, edits, l)
    ensures AddsFresh(levels, edits[..i], l)
  {
    if i < |edits| {
      AddsFreshBefore(levels, edits[..|edits| - 1], i, l);
      assert edits[..|edits| - 1][..i] == edits[..i];
    } else {
      assert edits[..i] == edits;
    }
  }

  lemma NamedFilesReplay(levels: Levels, edits: seq<VersionEdit>, l: nat)
    requires l < NUM_LEVELS && levels[l] == [] && AddsFresh(levels, edits, l) && NumbersNameFiles(EverAdded(edits, l))
    ensures ReplayIsStepwise(levels, edits, l)
  {
    hide ApplyEdits, ApplyAllAt;
    BuilderTracksFiles(levels, edits, l);
    SavedMembers(levels[l], ApplyAllAt(edits, l));
    OrderedListsWithSameMembers(Saved(levels[l], ApplyAllAt(edits, l)), ApplyEdits(levels, edits)[l]);
  }

  lemma {:induction false} AddFileKeeps(added: seq<File>, f: File)
    ensures forall g :: g in added ==> g in AddFile(added, f)
  {
    if |added| > 0 && !Less(f, added[0]) && Less(added[0], f) { AddFileKeeps(added[1..], f); }
  }

  lemma {:induction false} AddAllKeeps(state: LevelState, files: seq<File>)
    ensures forall g :: g in state.added ==> g in AddAll(state, files).added
    ensures AddAll(state, files).deleted == state.deleted - Numbers(files)
  {
    if |files| > 0 {
      var front, f := files[..|files| - 1], files[|files| - 1];
      AddAllKeeps(state, front);
      AddFileKeeps(AddAll(state, front).added, f);
      assert files == front + [f] && Numbers(files) == Numbers(front) + {f.number};
    }
  }

  lemma NumberIsBack(base: seq<File>, before: LevelState, edit: VersionEdit, l: nat, f: File, g: File)
    requires g in before.added && f in AddedAt(edit.newFiles, l) && f.number == g.number
    ensures g in Saved(base, ApplyAt(before, edit, l))
  {
    hide AddedAt, SavedFrom;
    var state := ApplyAt(before, edit, l);
    AddAllKeeps(before.(deleted := before.deleted + DeletedAt(edit, l)), AddedAt(edit.newFiles, l));
    SavedFromMembers(base, state, 0, 0);
    assert f.number in Numbers(AddedAt(edit.newFiles, l));
    assert state.added[0..] == state.added;
  }

  lemma OnlyTheNewFile(levels: Levels, edit: VersionEdit, l: nat, f: File, g: File)
    requires l < NUM_LEVELS && Ordered(levels[l]) && FreshAt(Numbers(levels[l]), AddedAt(edit.newFiles, l))
    requires f in AddedAt(edit.newFiles, l) && f.number == g.number && f != g
    ensures g !in ApplyEdit(levels, edit)[l]
  {
    hide ApplyEdit, AddedAt, Ordered;
    EditedLevel(levels, edit, l);
    assert forall h :: h in levels[l] ==> h.number in Numbers(levels[l]);
  }

  // A file comes back from the dead when its number is given to another one.
  lemma ReusedNumberReturns(levels: Levels, edits: seq<VersionEdit>, l: nat, f: File, g: File)
    requires l < NUM_LEVELS && |edits| > 0 && AddsFresh(levels, edits, l)
    requires var front := edits[..|edits| - 1];
      g in ApplyAllAt(front, l).added && Ordered(ApplyEdits(levels, front)[l])
    requires f in AddedAt(edits[|edits| - 1].newFiles, l) && f.number == g.number && f != g
    ensures g in Saved(levels[l], ApplyAllAt(edits, l)) && g !in ApplyEdits(levels, edits)[l]
  {
    hide ApplyEdit, ApplyAt, Saved, AddedAt, Ordered, FreshAt;
    var front, last := edits[..|edits| - 1], edits[|edits| - 1];
    NumberIsBack(levels[l], ApplyAllAt(front, l), last, l, f, g);
    OnlyTheNewFile(ApplyEdits(levels, front), last, l, f, g);
  }

  // Recovery feeds a whole MANIFEST to one builder that starts from nothing.
  // After every prefix it has the version that was reached edit by edit, if and
  // only if no number is ever given to two different files of the level. (The
  // same file may come back to a level it has left.)
  lemma {:induction false} ReplayFromNothingIff(levels: Levels, edits: seq<VersionEdit>, l: nat)
    requires l < NUM_LEVELS && levels[l] == [] && AddsFresh(levels, edits, l)
    ensures (forall i :: 0 <= i <= |edits| ==> ReplayIsStepwise(levels, edits[..i], l)) <==> NumbersNameFiles(EverAdded(edits, l))
  {
    hide ReplayIsStepwise, ApplyEdits, ApplyAllAt, EverAdded;
    if NumbersNameFiles(EverAdded(edits, l)) {
      forall i | 0 <= i <= |edits| ensures ReplayIsStepwise(levels, edits[..i], l) {
        EverAddedGrows(edits, i, l);
        AddsFreshBefore(levels, edits, i, l);
        NamedFilesReplay(levels, edits[..i], l);
      }
    }
    if forall i :: 0 <= i <= |edits| ==> ReplayIsStepwise(levels, edits[..i], l) {
      ReplayedFilesAreNamed(levels, edits, l);
    }
  }

  lemma {:induction false} ReplayedFilesAreNamed(levels: Levels, edits: seq<VersionEdit>, l: nat)
    requires l < NUM_LEVELS && levels[l] == [] && AddsFresh(levels, edits, l)
    requires forall i :: 0 <= i <= |edits| ==> ReplayIsStepwise(levels, edits[..i], l)
    ensures NumbersNameFiles(EverAdded(edits, l))
  {
    hide ApplyEdit, ApplyAllAt, ApplyEdits;
    if |edits| > 0 {
      var front, adds := edits[..|edits| - 1], AddedAt(edits[|edits| - 1].newFiles, l);
      assert forall i :: 0 <= i <= |front| ==> front[..i] == edits[..i];
      ReplayedFilesAreNamed(levels, front, l);
      BuilderTracksFiles(levels, front, l);
      assert edits[..|edits|] == edits;
      forall f, g | f in adds && g in EverAdded(front, l) && f.number == g.number ensures f == g {
        if f != g { ReusedNumberReturns(levels, edits, l, f, g); }
      }
    }
  }
}
