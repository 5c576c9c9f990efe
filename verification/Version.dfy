// A version: seven levels of table files. Level 0 files may overlap; deeper
// levels are sorted by internal key. This module holds the searches over a
// version: FindFile, SomeFileOverlapsRange, Get and the level choice for a
// flushed memtable.

module Files {
  import opened Entries

  datatype FileMeta = FileMeta(number: nat, size: nat, entries: Run) {
    function Small(): Entry requires |entries| > 0 { entries[0] }
    function Large(): Entry requires |entries| > 0 { entries[|entries| - 1] }

    // The file's user key range contains k.
    predicate Covers(k: UserKey) requires |entries| > 0 {
      Small().key <= k <= Large().key
    }

    // The file's user key range meets [lo, hi].
    predicate Meets(lo: UserKey, hi: UserKey) requires |entries| > 0 {
      Small().key <= hi && lo <= Large().key
    }
  }

  // Tables are never empty.
  type File = f: FileMeta | |f.entries| > 0
    witness FileMeta(0, 0, [Entry(0.0, 0, Deletion)])

  // Tables hold strictly increasing internal keys.
  ghost predicate AllSorted(files: seq<File>) {
    forall f :: f in files ==> Sorted(f.entries)
  }

  const NUM_LEVELS := 7
  const MAX_MEM_COMPACT_LEVEL := 2

  type Levels = ls: seq<seq<File>> | |ls| == NUM_LEVELS
    witness [[], [], [], [], [], [], []]

  ghost predicate Newer(a: Run, b: Run) {
    forall x, y :: x in a && y in b && x.key == y.key ==> x.sn > y.sn
  }

  // Files of a level below 0 are in order and disjoint as internal key ranges.
  // Two neighbours may still share a user key at their common boundary.
  ghost predicate LevelSorted(files: seq<File>) {
    && AllSorted(files)
    && forall i, j :: 0 <= i < j < |files| ==> Before(files[i].Large(), files[j].Small())
  }

  ghost predicate DistinctNumbers(files: seq<File>) {
    forall i, j :: 0 <= i < j < |files| ==> files[i].number != files[j].number
  }

  // Among overlapping files a higher number means newer entries.
  ghost predicate NumberedByAge(files: seq<File>) {
    forall f, g :: f in files && g in files && f.number > g.number ==> Newer(f.entries, g.entries)
  }

  ghost predicate AllNewer(fs: seq<File>, gs: seq<File>) {
    forall f, g :: f in fs && g in gs ==> Newer(f.entries, g.entries)
  }

  ghost predicate LevelsAreRecent(levels: Levels) {
    forall i, j :: 0 <= i < j < NUM_LEVELS ==> AllNewer(levels[i], levels[j])
  }

  // Everything a search over the levels relies on.
  ghost predicate WellFormed(levels: Levels) {
    && AllSorted(levels[0])
    && DistinctNumbers(levels[0])
    && NumberedByAge(levels[0])
    && (forall i :: 1 <= i < NUM_LEVELS ==> LevelSorted(levels[i]))
    && LevelsAreRecent(levels)
  }

  ghost function FileEntries(files: seq<File>): set<Entry> {
    set f, e | f in files && e in f.entries :: e
  }

  // All entries stored in the levels.
  ghost function Contents(levels: Levels): set<Entry> {
    set l, e | 0 <= l < NUM_LEVELS && e in FileEntries(levels[l]) :: e
  }

  lemma WithinBounds(f: File, e: Entry)
    requires Sorted(f.entries) && e in f.entries
    ensures f.Covers(e.key)
    ensures e == f.Small() || Before(f.Small(), e)
    ensures e == f.Large() || Before(e, f.Large())
  {
  }
}

module VersionSearch {
  import opened Wrappers
  import opened Entries
  import opened Files

  // ------------------------------------------------ what the searches find

  // Index of the first file whose largest entry is at or after (k, s).
  function FirstAtOrAfter(files: seq<File>, k: UserKey, s: nat): (i: nat)
    ensures i <= |files|
    ensures forall j :: 0 <= j < i ==> !AtOrAfter(files[j].Large(), k, s)
    ensures i < |files| ==> AtOrAfter(files[i].Large(), k, s)
  {
    if |files| == 0 || AtOrAfter(files[0].Large(), k, s) then 0
    else
      var i := FirstAtOrAfter(files[1..], k, s);
      assert forall j :: 0 < j < |files| ==> files[j] == files[1..][j - 1];
      1 + i
  }

  ghost predicate Descending(files: seq<File>) {
    forall i, j :: 0 <= i < j < |files| ==> files[i].number > files[j].number
  }

  function InsertNewest(f: File, sorted: seq<File>): (r: seq<File>)
    ensures forall g :: g in r <==> g == f || g in sorted
  {
    if |sorted| == 0 || f.number > sorted[0].number then [f] + sorted
    else
      assert sorted == [sorted[0]] + sorted[1..];
      [sorted[0]] + InsertNewest(f, sorted[1..])
  }

  lemma {:induction false} InsertKeepsDescending(f: File, sorted: seq<File>)
    requires Descending(sorted) && forall g :: g in sorted ==> g.number != f.number
    ensures Descending(InsertNewest(f, sorted))
  {
    if |sorted| > 0 && f.number <= sorted[0].number {
      var rest := InsertNewest(f, sorted[1..]);
      InsertKeepsDescending(f, sorted[1..]);
      assert sorted[0] in sorted;
      assert forall g :: g in rest ==> g.number < sorted[0].number;
    }
  }

  // Level 0 files that cover the key, newest first (std::sort by NewestFirst).
  function CoveringNewestFirst(files: seq<File>, k: UserKey): (r: seq<File>)
    ensures forall g :: g in r <==> g in files && g.Covers(k)
  {
    if |files| == 0 then []
    else
      assert files == [files[0]] + files[1..];
      var rest := CoveringNewestFirst(files[1..], k);
      if files[0].Covers(k) then InsertNewest(files[0], rest) else rest
  }

  lemma {:induction false} CoveringIsDescending(files: seq<File>, k: UserKey)
    requires DistinctNumbers(files)
    ensures Descending(CoveringNewestFirst(files, k))
  {
    if |files| > 0 {
      CoveringIsDescending(files[1..], k);
      assert forall g :: g in files[1..] ==> g.number != files[0].number;
      InsertKeepsDescending(files[0], CoveringNewestFirst(files[1..], k));
    }
  }

  // The first file of the list that holds something visible decides.
  function FirstHit(files: seq<File>, k: UserKey, s: nat): Option<Op> {
    if |files| == 0 then None
    else
      var r := RunGet(files[0].entries, k, s);
      if r.Some? then r else FirstHit(files[1..], k, s)
  }

  function SearchLevel(levels: Levels, level: nat, k: UserKey, s: nat): Option<Op>
    requires level < NUM_LEVELS
  {
    var files := levels[level];
    if level == 0 then FirstHit(CoveringNewestFirst(files, k), k, s)
    else
      var i := FirstAtOrAfter(files, k, s);
      if i < |files| && files[i].Small().key <= k then RunGet(files[i].entries, k, s) else None
  }

  function SearchFrom(levels: Levels, level: nat, k: UserKey, s: nat): Option<Value>
    requires level <= NUM_LEVELS
    decreases NUM_LEVELS - level
  {
    if level == NUM_LEVELS then None
    else
      match SearchLevel(levels, level, k, s)
      case Some(op) => ResultOf(op)
      case None => SearchFrom(levels, level + 1, k, s)
  }

  // ------------------------------------------------------------ the searches

  method FindFile(files: seq<File>, k: UserKey, s: nat) returns (index: nat)
    requires LevelSorted(files)
    ensures index == FirstAtOrAfter(files, k, s)
    ensures forall j :: index <= j < |files| ==> AtOrAfter(files[j].Large(), k, s)
  {
    var left, right := 0, |files|;
    while left < right
      invariant left <= right <= |files|
      invariant forall j :: 0 <= j < left ==> !AtOrAfter(files[j].Large(), k, s)
      invariant forall j :: right <= j < |files| ==> AtOrAfter(files[j].Large(), k, s)
    {
      var mid := (left + right) / 2;
      forall j | 0 <= j < |files| && j != mid
        ensures j < mid ==> Before(files[j].Large(), files[mid].Large())
        ensures mid < j ==> Before(files[mid].Large(), files[j].Large())
      {
        WithinBounds(files[mid], files[mid].Large());
        WithinBounds(files[j], files[j].Large());
      }
      if !AtOrAfter(files[mid].Large(), k, s) {
        left := mid + 1;
      } else {
        right := mid;
      }
    }
    index := right;
    ghost var first := FirstAtOrAfter(files, k, s);
    assert index < |files| ==> AtOrAfter(files[index].Large(), k, s);
    assert first < |files| ==> AtOrAfter(files[first].Large(), k, s);
  }

  // An absent bound is before, respectively after, every file.
  predicate AfterFile(userKey: Option<UserKey>, f: File) {
    userKey.Some? && userKey.value > f.Large().key
  }

  predicate BeforeFile(userKey: Option<UserKey>, f: File) {
    userKey.Some? && userKey.value < f.Small().key
  }

  method SomeFileOverlapsRange(disjointSorted: bool, files: seq<File>,
                               smallest: Option<UserKey>, largest: Option<UserKey>)
    returns (overlap: bool)
    requires disjointSorted ==> LevelSorted(files)
    requires smallest.Some? && largest.Some? ==> smallest.value <= largest.value
    ensures overlap <==> exists f :: f in files && !AfterFile(smallest, f) && !BeforeFile(largest, f)
  {
    if !disjointSorted {
      var i := 0;
      while i < |files|
        invariant i <= |files|
        invariant forall j :: 0 <= j < i ==> AfterFile(smallest, files[j]) || BeforeFile(largest, files[j])
      {
        if AfterFile(smallest, files[i]) || BeforeFile(largest, files[i]) {
        } else {
          return true;
        }
        i := i + 1;
      }
      return false;
    }
    var index := 0;
    if smallest.Some? {
      index := FindFile(files, smallest.value, MAX_SEQUENCE_NUMBER);
    }
    if index >= |files| {
      return false;
    }
    overlap := !BeforeFile(largest, files[index]);
    if overlap {
      assert files[index] in files;
    } else {
      forall f | f in files ensures AfterFile(smallest, f) || BeforeFile(largest, f) {
        var j :| 0 <= j < |files| && files[j] == f;
        if index < j {
          assert Before(files[index].Large(), files[j].Small());
          WithinBounds(files[index], files[index].Large());
        }
      }
    }
  }

  // Version::Get: level 0 newest file first, then at most one file of each
  // deeper level, stopping at the first hit.
  method Get(levels: Levels, k: UserKey, s: nat) returns (r: Option<Value>)
    requires forall l :: 1 <= l < NUM_LEVELS ==> LevelSorted(levels[l])
    ensures r == SearchFrom(levels, 0, k, s)
  {
    var level := 0;
    while level < NUM_LEVELS
      invariant level <= NUM_LEVELS
      invariant SearchFrom(levels, 0, k, s) == SearchFrom(levels, level, k, s)
    {
      var tmp: seq<File> := [];
      if level == 0 {
        tmp := CoveringNewestFirst(levels[0], k);
      } else {
        var index := FindFile(levels[level], k, s);
        if index < |levels[level]| && levels[level][index].Small().key <= k {
          tmp := [levels[level][index]];
        }
      }
      assert |tmp| == 1 ==> tmp[1..] == [];
      assert FirstHit(tmp, k, s) == SearchLevel(levels, level, k, s);
      var i := 0;
      while i < |tmp|
        invariant i <= |tmp|
        invariant FirstHit(tmp, k, s) == FirstHit(tmp[i..], k, s)
      {
        var saver := RunGet(tmp[i].entries, k, s);
        if saver.Some? {
          return ResultOf(saver.value);
        }
        assert tmp[i..][1..] == tmp[i + 1..];
        i := i + 1;
      }
      level := level + 1;
    }
    return None;
  }

  // ---------------------------------------------- the searches are the answer

  // Nothing visible to the lookup is stored in these files.
  ghost predicate NoneVisible(files: seq<File>, k: UserKey, s: nat) {
    forall f, e :: f in files && e in f.entries && e.key == k ==> s < e.sn
  }

  // The op found in these files is that of their newest visible entry.
  ghost predicate Decides(files: seq<File>, k: UserKey, s: nat, r: Option<Op>) {
    && (r == None ==> NoneVisible(files, k, s))
    && (r.Some? ==> exists e :: IsNewest(FileEntries(files), k, s, e) && e.op == r.value)
  }

  lemma {:induction false} FirstHitDecides(files: seq<File>, k: UserKey, s: nat)
    requires AllSorted(files) && NumberedByAge(files) && Descending(files)
    ensures Decides(files, k, s, FirstHit(files, k, s))
  {
    if |files| > 0 {
      var f, rest := files[0], files[1..];
      assert files == [f] + rest;
      RunGetIsNewest(f.entries, k, s);
      if RunGet(f.entries, k, s).Some? {
        var e :| IsNewest(ToSet(f.entries), k, s, e) && RunGet(f.entries, k, s) == Some(e.op);
        forall x | x in FileEntries(files) && x.key == k && x.sn <= s ensures x.sn <= e.sn {
          var g :| g in files && x in g.entries;
          if g in rest {
            assert f.number > g.number;
            assert Newer(f.entries, g.entries);
          } else {
            assert x in ToSet(f.entries);
          }
        }
        assert IsNewest(FileEntries(files), k, s, e);
      } else {
        FirstHitDecides(rest, k, s);
        assert forall x :: x in f.entries && x.key == k ==> x in ToSet(f.entries) && s < x.sn;
        if FirstHit(rest, k, s).Some? {
          var e :| IsNewest(FileEntries(rest), k, s, e) && e.op == FirstHit(rest, k, s).value;
          assert IsNewest(FileEntries(files), k, s, e);
        }
      }
    }
  }

  lemma Level0Decides(files: seq<File>, k: UserKey, s: nat)
    requires AllSorted(files) && DistinctNumbers(files) && NumberedByAge(files)
    ensures Decides(files, k, s, FirstHit(CoveringNewestFirst(files, k), k, s))
  {
    var tmp := CoveringNewestFirst(files, k);
    CoveringIsDescending(files, k);
    FirstHitDecides(tmp, k, s);
    forall f, e | f in files && e in f.entries && e.key == k ensures f in tmp { WithinBounds(f, e); }
    if FirstHit(tmp, k, s).Some? {
      var e :| IsNewest(FileEntries(tmp), k, s, e) && e.op == FirstHit(tmp, k, s).value;
      assert IsNewest(FileEntries(files), k, s, e);
    }
  }

  // The searched file is the only one that can hold the newest visible entry.
  lemma SearchedFileDecides(files: seq<File>, k: UserKey, s: nat, index: nat, f: File, x: Entry)
    requires LevelSorted(files) && index < |files|
    requires forall j :: 0 <= j < index ==> !AtOrAfter(files[j].Large(), k, s)
    requires f in files && x in f.entries && x.key == k && x.sn <= s
    ensures f == files[index] || Before(files[index].Large(), x)
  {
    var j :| 0 <= j < |files| && files[j] == f;
    WithinBounds(f, x);
    assert index < j ==> Before(files[index].Large(), files[j].Small());
  }

  lemma HitInSortedLevel(files: seq<File>, k: UserKey, s: nat, index: nat, e: Entry)
    requires LevelSorted(files) && index < |files|
    requires forall j :: 0 <= j < index ==> !AtOrAfter(files[j].Large(), k, s)
    requires IsNewest(ToSet(files[index].entries), k, s, e)
    ensures IsNewest(FileEntries(files), k, s, e)
  {
    assert files[index] in files && e in files[index].entries;
    WithinBounds(files[index], e);
    forall x | x in FileEntries(files) && x.key == k && x.sn <= s ensures x.sn <= e.sn {
      var f :| f in files && x in f.entries;
      SearchedFileDecides(files, k, s, index, f, x);
    }
  }

  lemma MissInSortedLevel(files: seq<File>, k: UserKey, s: nat, index: nat)
    requires LevelSorted(files) && index < |files|
    requires forall j :: 0 <= j < index ==> !AtOrAfter(files[j].Large(), k, s)
    requires AtOrAfter(files[index].Large(), k, s)
    requires k < files[index].Small().key
      || forall e :: e in files[index].entries && e.key == k ==> s < e.sn
    ensures NoneVisible(files, k, s)
  {
    var large := files[index].Large();
    assert files[index] in files && large in files[index].entries;
    WithinBounds(files[index], large);
    forall f, x | f in files && x in f.entries && x.key == k ensures s < x.sn {
      if x.sn <= s {
        SearchedFileDecides(files, k, s, index, f, x);
        WithinBounds(f, x);
        assert false;
      }
    }
  }

  lemma SortedLevelDecides(levels: Levels, level: nat, k: UserKey, s: nat)
    requires 1 <= level < NUM_LEVELS && LevelSorted(levels[level])
    ensures Decides(levels[level], k, s, SearchLevel(levels, level, k, s))
  {
    var files := levels[level];
    var index := FirstAtOrAfter(files, k, s);
    if index >= |files| {
      forall f, e | f in files && e in f.entries && e.key == k ensures s < e.sn { WithinBounds(f, e); }
    } else if k < files[index].Small().key {
      MissInSortedLevel(files, k, s, index);
    } else {
      var f := files[index];
      RunGetIsNewest(f.entries, k, s);
      var r := RunGet(f.entries, k, s);
      if r.Some? {
        var e :| IsNewest(ToSet(f.entries), k, s, e) && r == Some(e.op);
        HitInSortedLevel(files, k, s, index, e);
      } else {
        forall e | e in f.entries && e.key == k ensures s < e.sn { assert e in ToSet(f.entries); }
        MissInSortedLevel(files, k, s, index);
      }
    }
  }

  lemma NewestAcrossLevels(levels: Levels, level: nat, k: UserKey, s: nat, e: Entry)
    requires level < NUM_LEVELS && LevelsAreRecent(levels)
    requires forall l :: 0 <= l < level ==> NoneVisible(levels[l], k, s)
    requires IsNewest(FileEntries(levels[level]), k, s, e)
    ensures IsNewest(Contents(levels), k, s, e)
  {
    var f :| f in levels[level] && e in f.entries;
    forall x | x in Contents(levels) && x.key == k && x.sn <= s ensures x.sn <= e.sn {
      var l :| 0 <= l < NUM_LEVELS && x in FileEntries(levels[l]);
      var g :| g in levels[l] && x in g.entries;
      assert level < l ==> AllNewer(levels[level], levels[l]) && Newer(f.entries, g.entries);
    }
  }

  lemma {:induction false} SearchFromIsAnswer(levels: Levels, level: nat, k: UserKey, s: nat)
    requires level <= NUM_LEVELS && WellFormed(levels)
    requires forall l :: 0 <= l < level ==> NoneVisible(levels[l], k, s)
    ensures Answer(Contents(levels), k, s, SearchFrom(levels, level, k, s))
    decreases NUM_LEVELS - level
  {
    if level == NUM_LEVELS {
      forall x | x in Contents(levels) && x.key == k ensures s < x.sn {
        var l :| 0 <= l < NUM_LEVELS && x in FileEntries(levels[l]);
        assert NoneVisible(levels[l], k, s);
      }
    } else {
      if level == 0 { Level0Decides(levels[0], k, s); } else { SortedLevelDecides(levels, level, k, s); }
      var r := SearchLevel(levels, level, k, s);
      if r.Some? {
        var e :| IsNewest(FileEntries(levels[level]), k, s, e) && e.op == r.value;
        NewestAcrossLevels(levels, level, k, s, e);
      } else {
        SearchFromIsAnswer(levels, level + 1, k, s);
      }
    }
  }

  // On well-formed levels, stopping at the first hit loses nothing.
  lemma SearchIsAnswer(levels: Levels, k: UserKey, s: nat)
    requires WellFormed(levels)
    ensures Answer(Contents(levels), k, s, SearchFrom(levels, 0, k, s))
  {
    SearchFromIsAnswer(levels, 0, k, s);
  }
}
