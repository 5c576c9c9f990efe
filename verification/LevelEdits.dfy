// One version edit seen from outside the builder: at every level some files
// leave and some arrive. When the arrivals fit in, the version stays well
// formed.

module LevelEdits {
  import opened Entries
  import opened Files
  import opened VersionBuilder

  const NO_FILES: Levels := [[], [], [], [], [], [], []]

  ghost predicate LevelEdit(before: seq<File>, after: seq<File>, removed: seq<File>, added: seq<File>) {
    && Ordered(after)
    && forall g :: g in after <==> g in added || (g in before && g !in removed)
  }

  ghost predicate Edited(before: Levels, after: Levels, removed: Levels, added: Levels) {
    forall l :: 0 <= l < NUM_LEVELS ==> LevelEdit(before[l], after[l], removed[l], added[l])
  }

  // A file number names one file, in one level.
  ghost predicate NumbersUnique(levels: Levels) {
    forall i, j :: 0 <= i < NUM_LEVELS && 0 <= j < NUM_LEVELS ==> NumbersUniqueIn(levels, i, j)
  }

  ghost predicate NumbersUniqueIn(levels: Levels, i: nat, j: nat)
    requires i < NUM_LEVELS && j < NUM_LEVELS
  {
    forall f, g :: f in levels[i] && g in levels[j] && f.number == g.number ==> i == j && f == g
  }

  // The edit names exactly the removed files and adds fresh numbers.
  ghost predicate EditAt(files: seq<File>, edit: VersionEdit, l: nat, removed: seq<File>, added: seq<File>) {
    && FreshAt(Numbers(files), AddedAt(edit.newFiles, l))
    && (forall f :: f in AddedAt(edit.newFiles, l) <==> f in added)
    && (forall g :: g in files ==> (g.number in DeletedAt(edit, l) <==> g in removed))
  }

  lemma ApplyEditEdits(levels: Levels, edit: VersionEdit, removed: Levels, added: Levels)
    requires WellFormed(levels) && Ordered(levels[0])
    requires forall l :: 0 <= l < NUM_LEVELS ==> EditAt(levels[l], edit, l, removed[l], added[l])
    ensures Edited(levels, ApplyEdit(levels, edit), removed, added)
  {
    forall l: nat | l < NUM_LEVELS ensures LevelEdit(levels[l], ApplyEdit(levels, edit)[l], removed[l], added[l]) {
      if l > 0 { SortedIsOrdered(levels[l]); }
      assert EditAt(levels[l], edit, l, removed[l], added[l]);
      EditedLevel(levels, edit, l);
    }
  }

  ghost predicate Separated(f: File, g: File) {
    Before(f.Large(), g.Small()) || Before(g.Large(), f.Small())
  }

  // The arriving file is in order with a neighbour at its own level: at level
  // 0 by number and age, deeper by range.
  ghost predicate FitsBeside(l: nat, f: File, g: File) {
    if l == 0 then
      && (f.number > g.number ==> Newer(f.entries, g.entries))
      && (g.number > f.number ==> Newer(g.entries, f.entries))
    else Separated(f, g)
  }

  ghost predicate FitsAt(after: Levels, l: nat, f: File)
    requires l < NUM_LEVELS
  {
    && Sorted(f.entries)
    && (forall g :: g in after[l] && g != f ==> FitsBeside(l, f, g))
    && (forall i, g :: 0 <= i < l && g in after[i] ==> Newer(g.entries, f.entries))
    && (forall j, g :: l < j < NUM_LEVELS && g in after[j] ==> Newer(f.entries, g.entries))
  }

  // How a file at level l must relate to one arriving at level to.
  ghost predicate InOrder(l: nat, g: File, to: nat, f: File) {
    && (l < to ==> Newer(g.entries, f.entries))
    && (l == to ==> Separated(f, g))
    && (l > to ==> Newer(f.entries, g.entries))
  }

  lemma FitsFrom(after: Levels, to: nat, f: File)
    requires 1 <= to < NUM_LEVELS && Sorted(f.entries)
    requires forall l, g :: 0 <= l < NUM_LEVELS && g in after[l] && !(l == to && g == f) ==> InOrder(l, g, to, f)
    ensures FitsAt(after, to, f)
  {
  }

  // A number taken from some of a level's files finds those files again.
  lemma NumberIdentifies(levels: Levels, i: nat, files: seq<File>, l: nat, g: File)
    requires i < NUM_LEVELS && l < NUM_LEVELS && NumbersUniqueIn(levels, i, l)
    requires (forall f :: f in files ==> f in levels[i]) && g in levels[l]
    ensures g.number in Numbers(files) ==> i == l && g in files
    ensures g in files ==> g.number in Numbers(files)
  {
  }

  lemma SeparatedInLevel(files: seq<File>, g: File, h: File)
    requires LevelSorted(files) && g in files && h in files && g != h
    ensures Separated(g, h)
  {
    var i :| 0 <= i < |files| && files[i] == g;
    var j :| 0 <= j < |files| && files[j] == h;
    assert i < j || j < i;
  }

  lemma OrderedIsDistinct(files: seq<File>)
    requires Ordered(files) && forall f, g :: f in files && g in files && f.number == g.number ==> f == g
    ensures DistinctNumbers(files)
  {
    forall i, j | 0 <= i < j < |files| ensures files[i].number != files[j].number {
      assert Less(files[i], files[j]) && files[i] in files && files[j] in files;
    }
  }

  lemma EditKeepsLevelSorted(before: Levels, after: Levels, removed: Levels, added: Levels, l: nat)
    requires 1 <= l < NUM_LEVELS && LevelSorted(before[l]) && LevelEdit(before[l], after[l], removed[l], added[l])
    requires forall f :: f in added[l] ==> FitsAt(after, l, f)
    ensures LevelSorted(after[l])
  {
    forall g, h | g in after[l] && h in after[l] && g != h ensures Separated(g, h) {
      if g in added[l] {
        assert FitsBeside(l, g, h);
      } else if h in added[l] {
        assert FitsBeside(l, h, g);
      } else {
        SeparatedInLevel(before[l], g, h);
      }
    }
    OrderedIsSorted(after[l]);
  }

  lemma EditKeepsLevel0(before: Levels, after: Levels, removed: Levels, added: Levels)
    requires AllSorted(before[0]) && NumberedByAge(before[0]) && LevelEdit(before[0], after[0], removed[0], added[0])
    requires NumbersUniqueIn(after, 0, 0)
    requires forall f :: f in added[0] ==> FitsAt(after, 0, f)
    ensures AllSorted(after[0]) && NumberedByAge(after[0]) && DistinctNumbers(after[0])
  {
    OrderedIsDistinct(after[0]);
    forall f, g | f in after[0] && g in after[0] && f.number > g.number ensures Newer(f.entries, g.entries) {
      if f in added[0] {
        assert FitsBeside(0, f, g);
      } else if g in added[0] {
        assert FitsBeside(0, g, f);
      }
    }
  }

  lemma EditKeepsRecency(before: Levels, after: Levels, removed: Levels, added: Levels, i: nat, j: nat)
    requires i < j < NUM_LEVELS && AllNewer(before[i], before[j])
    requires LevelEdit(before[i], after[i], removed[i], added[i]) && LevelEdit(before[j], after[j], removed[j], added[j])
    requires forall f :: f in added[i] ==> FitsAt(after, i, f)
    requires forall f :: f in added[j] ==> FitsAt(after, j, f)
    ensures AllNewer(after[i], after[j])
  {
    forall g, h | g in after[i] && h in after[j] ensures Newer(g.entries, h.entries) {
      if g in added[i] {
        assert FitsAt(after, i, g);
      } else if h in added[j] {
        assert FitsAt(after, j, h);
      }
    }
  }

  // Every edit whose arrivals fit keeps levels sorted and recency ordered.
  lemma EditKeepsWellFormed(before: Levels, after: Levels, removed: Levels, added: Levels)
    requires WellFormed(before) && Edited(before, after, removed, added) && NumbersUnique(after)
    requires forall l, f :: 0 <= l < NUM_LEVELS && f in added[l] ==> FitsAt(after, l, f)
    ensures WellFormed(after)
  {
    assert forall l :: 0 <= l < NUM_LEVELS ==> LevelEdit(before[l], after[l], removed[l], added[l]);
    assert NumbersUniqueIn(after, 0, 0);
    EditKeepsLevel0(before, after, removed, added);
    forall l: nat | 1 <= l < NUM_LEVELS ensures LevelSorted(after[l]) {
      EditKeepsLevelSorted(before, after, removed, added, l);
    }
    forall i: nat, j: nat | i < j < NUM_LEVELS ensures AllNewer(after[i], after[j]) {
      EditKeepsRecency(before, after, removed, added, i, j);
    }
  }

  // Fresh numbers keep numbers unique; a moved file keeps its own.
  lemma EditKeepsNumbersUnique(before: Levels, after: Levels, removed: Levels, added: Levels)
    requires NumbersUnique(before) && Edited(before, after, removed, added)
    requires forall i, j, f, g ::
      0 <= i < NUM_LEVELS && 0 <= j < NUM_LEVELS && f in added[i] && g in after[j] && f.number == g.number ==>
        i == j && f == g
    ensures NumbersUnique(after)
  {
    forall i: nat, j: nat | i < NUM_LEVELS && j < NUM_LEVELS ensures NumbersUniqueIn(after, i, j) {
      assert LevelEdit(before[i], after[i], removed[i], added[i]);
      assert LevelEdit(before[j], after[j], removed[j], added[j]);
      assert NumbersUniqueIn(before, i, j);
    }
  }

  // Contents after an edit, entry by entry.
  lemma EditContents(before: Levels, after: Levels, removed: Levels, added: Levels, e: Entry)
    requires Edited(before, after, removed, added)
    ensures e in Contents(after) <==>
      || (exists l :: 0 <= l < NUM_LEVELS && e in FileEntries(added[l]))
      || (exists l, g :: 0 <= l < NUM_LEVELS && g in before[l] && g !in removed[l] && e in g.entries)
  {
    if e in Contents(after) {
      var l :| 0 <= l < NUM_LEVELS && e in FileEntries(after[l]);
      var g :| g in after[l] && e in g.entries;
      assert LevelEdit(before[l], after[l], removed[l], added[l]);
      assert g in added[l] ==> e in FileEntries(added[l]);
    }
    if l :| 0 <= l < NUM_LEVELS && e in FileEntries(added[l]) {
      var g :| g in added[l] && e in g.entries;
      assert LevelEdit(before[l], after[l], removed[l], added[l]);
      assert e in FileEntries(after[l]);
    }
    if l, g :| 0 <= l < NUM_LEVELS && g in before[l] && g !in removed[l] && e in g.entries {
      assert LevelEdit(before[l], after[l], removed[l], added[l]);
      assert e in FileEntries(after[l]);
    }
  }

  lemma NoSharedKeys(g: File, f: File)
    requires Sorted(g.entries) && Sorted(f.entries) && !g.Meets(f.Small().key, f.Large().key)
    ensures forall x, y :: x in g.entries && y in f.entries ==> x.key != y.key
  {
    forall x, y | x in g.entries && y in f.entries ensures x.key != y.key {
      WithinBounds(g, x);
      WithinBounds(f, y);
    }
  }
}
