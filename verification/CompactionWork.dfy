// The merge loop of a compaction: which entries are dropped, why no reader at
// or above the oldest snapshot can tell, and where output files may be cut.

module CompactionWork {
  import opened Wrappers
  import opened Entries
  import opened Files

  // No file at least two levels down covers the key.
  ghost predicate IsBaseLevel(levels: Levels, level: nat, k: UserKey) {
    forall l, f :: level + 2 <= l < NUM_LEVELS && f in levels[l] ==> !f.Covers(k)
  }

  // Compaction::level_ptrs_: one cursor per deeper level. Keys arrive in
  // increasing order, so the cursors only move forward.
  class BaseLevelCursor {
    const levels: Levels
    const level: nat
    var levelPtrs: seq<nat>
    ghost var lastKey: Option<UserKey>

    ghost predicate Valid() reads this {
      && |levelPtrs| == NUM_LEVELS
      && (forall l :: level + 2 <= l < NUM_LEVELS ==> LevelSorted(levels[l]) && levelPtrs[l] <= |levels[l]|)
      && (forall l, j :: level + 2 <= l < NUM_LEVELS && 0 <= j < levelPtrs[l] ==>
            lastKey.Some? && levels[l][j].Large().key < lastKey.value)
    }

    constructor (levels: Levels, level: nat)
      requires forall l :: 1 <= l < NUM_LEVELS ==> LevelSorted(levels[l])
      ensures Valid() && this.levels == levels && this.level == level && lastKey == None
    {
      this.levels, this.level := levels, level;
      levelPtrs := seq(NUM_LEVELS, _ => 0);
      lastKey := None;
    }

    lemma AfterCursor(l: nat, k: UserKey)
      requires Valid() && level + 2 <= l < NUM_LEVELS
      requires forall j :: 0 <= j < levelPtrs[l] ==> levels[l][j].Large().key < k
      requires levelPtrs[l] < |levels[l]| ==> k <= levels[l][levelPtrs[l]].Large().key
      ensures (exists f :: f in levels[l] && f.Covers(k)) <==>
        levelPtrs[l] < |levels[l]| && levels[l][levelPtrs[l]].Covers(k)
    {
      var files, p := levels[l], levelPtrs[l];
      forall f | f in files && f.Covers(k) ensures p < |files| && files[p].Covers(k) {
        var j :| 0 <= j < |files| && files[j] == f;
        if p < j {
          assert Before(files[p].Large(), files[j].Small());
          WithinBounds(files[p], files[p].Large());
        }
      }
    }

    // Asked with keys in increasing order, the cursors decide exactly whether
    // any deeper file covers the key.
    method IsBaseLevelForKey(k: UserKey) returns (base: bool)
      requires Valid() && (lastKey.Some? ==> lastKey.value <= k)
      modifies this
      ensures Valid() && lastKey == Some(k)
      ensures base <==> IsBaseLevel(levels, level, k)
    {
      lastKey := Some(k);
      var lvl := level + 2;
      while lvl < NUM_LEVELS
        invariant level + 2 <= lvl && Valid() && lastKey == Some(k)
        invariant forall l, f :: level + 2 <= l < lvl && l < NUM_LEVELS && f in levels[l] ==> !f.Covers(k)
      {
        while levelPtrs[lvl] < |levels[lvl]| && levels[lvl][levelPtrs[lvl]].Large().key < k
          invariant Valid() && lastKey == Some(k)
          decreases |levels[lvl]| - levelPtrs[lvl]
        {
          levelPtrs := levelPtrs[lvl := levelPtrs[lvl] + 1];
        }
        AfterCursor(lvl, k);
        if levelPtrs[lvl] < |levels[lvl]| && levels[lvl][levelPtrs[lvl]].Small().key <= k {
          return false;
        }
        lvl := lvl + 1;
      }
      base := true;
    }
  }

  // -------------------------------------------------------------- drop rules

  // last_sequence_for_key when the loop reaches index i.
  function LastSequenceForKey(input: Run, i: nat): nat
    requires i < |input|
  {
    if i > 0 && input[i - 1].key == input[i].key then input[i - 1].sn else MAX_SEQUENCE_NUMBER
  }

  // Rule (A): hidden by a newer entry that every reader already sees.
  // Otherwise: a deletion every reader sees, with nothing below to hide.
  ghost predicate Dropped(input: Run, i: nat, smallestSnapshot: nat, levels: Levels, level: nat)
    requires i < |input|
  {
    || LastSequenceForKey(input, i) <= smallestSnapshot
    || (input[i].op.Deletion? && input[i].sn <= smallestSnapshot && IsBaseLevel(levels, level, input[i].key))
  }

  ghost function Kept(input: Run, n: nat, smallestSnapshot: nat, levels: Levels, level: nat): Run
    requires n <= |input|
  {
    if n == 0 then []
    else
      Kept(input, n - 1, smallestSnapshot, levels, level)
      + (if Dropped(input, n - 1, smallestSnapshot, levels, level) then [] else [input[n - 1]])
  }

  lemma {:induction false} KeptMembers(input: Run, n: nat, smallestSnapshot: nat, levels: Levels, level: nat)
    requires n <= |input|
    ensures forall e :: e in Kept(input, n, smallestSnapshot, levels, level) <==>
      exists i :: 0 <= i < n && input[i] == e && !Dropped(input, i, smallestSnapshot, levels, level)
  {
    if n > 0 { KeptMembers(input, n - 1, smallestSnapshot, levels, level); }
  }

  lemma {:induction false} KeptIsSorted(input: Run, n: nat, smallestSnapshot: nat, levels: Levels, level: nat)
    requires n <= |input| && Sorted(input)
    ensures Sorted(Kept(input, n, smallestSnapshot, levels, level))
  {
    if n > 0 {
      KeptIsSorted(input, n - 1, smallestSnapshot, levels, level);
      KeptMembers(input, n - 1, smallestSnapshot, levels, level);
      var front, last := Kept(input, n - 1, smallestSnapshot, levels, level), input[n - 1];
      forall e | e in front ensures Before(e, last) {
        var i :| 0 <= i < n - 1 && input[i] == e;
      }
    }
  }

  // Entries of one user key sit next to each other in a sorted run.
  lemma OlderEntryIsDropped(input: Run, i: nat, j: nat, smallestSnapshot: nat, levels: Levels, level: nat)
    requires Sorted(input) && i < j < |input| && input[i].key == input[j].key
    requires input[i].sn <= smallestSnapshot
    ensures Dropped(input, j, smallestSnapshot, levels, level)
  {
    assert i < j - 1 ==> Before(input[i], input[j - 1]);
    assert Before(input[j - 1], input[j]);
  }

  // What a merge reads: its entries, the oldest snapshot, and the version and
  // level that decide whether a deletion has anything below it to hide.
  datatype Merge = Merge(inputs: set<Entry>, oldest: nat, base: Levels, level: nat)

  // A reader at or above the oldest snapshot sees a newer entry of the merge.
  ghost predicate Hidden(m: Merge, e: Entry) {
    exists z :: z in m.inputs && z.key == e.key && e.sn < z.sn <= m.oldest
  }

  // The second drop rule.
  ghost predicate Obsolete(m: Merge, e: Entry) {
    e.op.Deletion? && e.sn <= m.oldest && IsBaseLevel(m.base, m.level, e.key)
  }

  ghost predicate Survives(m: Merge, e: Entry) {
    e in m.inputs && !Hidden(m, e) && !Obsolete(m, e)
  }

  // The loop over the sorted input keeps exactly what survives.
  lemma KeptIsSurvivors(m: Merge, input: Run)
    requires Sorted(input) && ToSet(input) == m.inputs && m.oldest < MAX_SEQUENCE_NUMBER
    ensures forall e :: e in Kept(input, |input|, m.oldest, m.base, m.level) <==> Survives(m, e)
  {
    KeptMembers(input, |input|, m.oldest, m.base, m.level);
    forall e ensures e in Kept(input, |input|, m.oldest, m.base, m.level) <==> Survives(m, e) {
      if e in m.inputs {
        assert e in input;
        var i :| 0 <= i < |input| && input[i] == e;
        assert forall j :: 0 <= j < |input| && input[j] == e ==> j == i;
        DroppedIff(m, input, i);
      } else {
        assert e !in input;
      }
    }
  }

  lemma DroppedIff(m: Merge, input: Run, i: nat)
    requires Sorted(input) && ToSet(input) == m.inputs && m.oldest < MAX_SEQUENCE_NUMBER && i < |input|
    ensures Dropped(input, i, m.oldest, m.base, m.level) <==> Hidden(m, input[i]) || Obsolete(m, input[i])
  {
    if Hidden(m, input[i]) {
      var z :| z in m.inputs && z.key == input[i].key && input[i].sn < z.sn <= m.oldest;
      assert z in input;
      var j :| 0 <= j < |input| && input[j] == z;
      assert i < j ==> Before(input[i], input[j]);
      OlderEntryIsDropped(input, j, i, m.oldest, m.base, m.level);
    }
    if LastSequenceForKey(input, i) <= m.oldest {
      assert Before(input[i - 1], input[i]) && input[i - 1] in ToSet(input);
    }
  }

  ghost function AfterMerge(all: set<Entry>, input: Run, kept: Run): set<Entry> {
    set e | e in all && (e !in input || e in kept)
  }

  // The newest entry d of a key is a deletion that the merge drops, and x is
  // the newest one left outside the merge.
  ghost predicate Uncovers(all: set<Entry>, m: Merge, d: Entry, x: Entry) {
    && d in m.inputs && Obsolete(m, d) && IsNewest(all, d.key, m.oldest, d)
    && IsNewest(all - m.inputs, d.key, m.oldest, x)
  }

  // No dropped deletion uncovers a value.
  ghost predicate NothingUncovered(all: set<Entry>, m: Merge) {
    forall d, x :: Uncovers(all, m, d, x) ==> x.op.Deletion?
  }

  ghost predicate SameAnswers(before: set<Entry>, after: set<Entry>, oldest: nat) {
    forall k, s: nat, r :: oldest <= s ==> (Answer(before, k, s, r) <==> Answer(after, k, s, r))
  }

  // No read at or above the oldest snapshot can tell that the merge happened,
  // if and only if it uncovers nothing.
  lemma MergeKeepsReadsIff(all: set<Entry>, m: Merge, input: Run)
    requires Sorted(input) && ToSet(input) == m.inputs && m.inputs <= all && UniqueNumbers(all)
    requires m.oldest < MAX_SEQUENCE_NUMBER
    ensures var after := AfterMerge(all, input, Kept(input, |input|, m.oldest, m.base, m.level));
      SameAnswers(all, after, m.oldest) <==> NothingUncovered(all, m)
  {
    var after := AfterMerge(all, input, Kept(input, |input|, m.oldest, m.base, m.level));
    KeptIsSurvivors(m, input);
    assert forall e :: e in after <==> e in all && (e !in m.inputs || Survives(m, e)) by {
      assert forall e :: e in input <==> e in m.inputs;
    }
    if NothingUncovered(all, m) {
      forall k, s: nat, r | m.oldest <= s ensures Answer(all, k, s, r) <==> Answer(after, k, s, r) {
        SameAnswerAt(all, after, m, k, s, r);
      }
    } else {
      var d, x :| Uncovers(all, m, d, x) && !x.op.Deletion?;
      UncoveredIsRead(all, after, m, d, x);
    }
  }

  lemma SameAnswerAt(all: set<Entry>, after: set<Entry>, m: Merge, k: UserKey, s: nat, r: Option<Value>)
    requires UniqueNumbers(all) && m.inputs <= all && m.oldest <= s && NothingUncovered(all, m)
    requires forall e :: e in after <==> e in all && (e !in m.inputs || Survives(m, e))
    ensures Answer(all, k, s, r) <==> Answer(after, k, s, r)
  {
    if Absent(all, k, s) {
      assert Absent(after, k, s);
    } else {
      var x :| x in all && x.key == k && x.sn <= s;
      var e := NewestOf(all, k, s, x);
      if e in after {
        assert IsNewest(after, k, s, e);
      } else {
        DroppedReadsAbsent(all, after, m, s, e);
      }
      assert Answer(all, k, s, ResultOf(e.op)) && Answer(after, k, s, ResultOf(e.op));
      if Answer(all, k, s, r) { AnswerIsUnique(all, k, s, r, ResultOf(e.op)); }
      if Answer(after, k, s, r) { AnswerIsUnique(after, k, s, r, ResultOf(e.op)); }
    }
  }

  // The newest entry of a key was dropped: it was a deletion, and what is left
  // reads as absent too.
  lemma DroppedReadsAbsent(all: set<Entry>, after: set<Entry>, m: Merge, s: nat, e: Entry)
    requires UniqueNumbers(all) && m.inputs <= all && m.oldest <= s && NothingUncovered(all, m)
    requires forall x :: x in after <==> x in all && (x !in m.inputs || Survives(m, x))
    requires IsNewest(all, e.key, s, e) && e !in after
    ensures e.op == Deletion && Answer(after, e.key, s, None)
  {
    assert !Hidden(m, e) && Obsolete(m, e) && IsNewest(all, e.key, m.oldest, e);
    if !Absent(after, e.key, s) {
      var y :| y in after && y.key == e.key && y.sn <= s;
      var x := NewestOf(after, e.key, s, y);
      assert x.sn < e.sn && !Survives(m, x);
      assert forall z :: z in all - m.inputs && z.key == e.key && z.sn <= m.oldest ==> z in after && z.sn <= s;
      assert Uncovers(all, m, e, x);
    }
  }

  lemma UncoveredIsRead(all: set<Entry>, after: set<Entry>, m: Merge, d: Entry, x: Entry)
    requires UniqueNumbers(all) && m.inputs <= all
    requires forall e :: e in after <==> e in all && (e !in m.inputs || Survives(m, e))
    requires Uncovers(all, m, d, x) && !x.op.Deletion?
    ensures Answer(all, d.key, m.oldest, None) && !Answer(after, d.key, m.oldest, None)
    ensures !SameAnswers(all, after, m.oldest)
  {
    assert ResultOf(d.op) == None;
    forall e | e in after && e.key == d.key && e.sn <= m.oldest ensures e.sn <= x.sn {
      assert e in m.inputs ==> e.sn < d.sn;
    }
    assert IsNewest(after, d.key, m.oldest, x);
    if Answer(after, d.key, m.oldest, None) {
      AnswerIsUnique(after, d.key, m.oldest, None, ResultOf(x.op));
    }
  }

  // Newer entries stored meanwhile uncover nothing.
  lemma NewerUncoverNothing(all: set<Entry>, newer: set<Entry>, m: Merge)
    requires NothingUncovered(all, m) && m.inputs <= all
    requires forall x, y :: x in newer && y in all && x.key == y.key ==> x.sn > y.sn
    ensures NothingUncovered(all + newer, m)
  {
    forall d, x | Uncovers(all + newer, m, d, x) ensures x.op.Deletion? {
      assert x !in newer;
      assert IsNewest(all, d.key, m.oldest, d);
      assert Uncovers(all, m, d, x);
    }
  }

  // Enough for it: everything else stored for a key of the merge is newer.
  lemma NewerOutsideUncoversNothing(all: set<Entry>, m: Merge)
    requires forall d, x :: d in m.inputs && Obsolete(m, d) && x in all && x !in m.inputs && x.key == d.key ==> x.sn > d.sn
    ensures NothingUncovered(all, m)
  {
  }

  // --------------------------------------------------------------- the loop

  function Flatten(outputs: seq<Run>): Run {
    if |outputs| == 0 then [] else Flatten(outputs[..|outputs| - 1]) + outputs[|outputs| - 1]
  }

  lemma FlattenSnoc(outputs: seq<Run>, r: Run)
    ensures Flatten(outputs + [r]) == Flatten(outputs) + r
  {
    assert (outputs + [r])[..|outputs|] == outputs;
  }

  method ShouldDrop(cursor: BaseLevelCursor, key: Entry, lastSequenceForKey: nat, smallestSnapshot: nat)
    returns (drop: bool)
    requires cursor.Valid() && (cursor.lastKey.Some? ==> cursor.lastKey.value <= key.key)
    modifies cursor
    ensures cursor.Valid() && (cursor.lastKey.Some? ==> cursor.lastKey.value <= key.key)
    ensures drop <==>
      || lastSequenceForKey <= smallestSnapshot
      || (key.op.Deletion? && key.sn <= smallestSnapshot && IsBaseLevel(cursor.levels, cursor.level, key.key))
  {
    drop := false;
    if lastSequenceForKey <= smallestSnapshot {
      drop := true;
    } else if key.op.Deletion? && key.sn <= smallestSnapshot {
      drop := cursor.IsBaseLevelForKey(key.key);
    }
  }

  // With no snapshot older than the newest input entry, at most one entry per
  // user key survives.
  lemma OnePerUserKey(input: Run, smallestSnapshot: nat, levels: Levels, level: nat)
    requires Sorted(input) && forall e :: e in input ==> e.sn <= smallestSnapshot
    ensures var kept := Kept(input, |input|, smallestSnapshot, levels, level);
      forall a, b :: a in kept && b in kept && a.key == b.key ==> a == b
  {
    KeptMembers(input, |input|, smallestSnapshot, levels, level);
    var kept := Kept(input, |input|, smallestSnapshot, levels, level);
    forall a, b | a in kept && b in kept && a.key == b.key ensures a == b {
      var i :| 0 <= i < |input| && input[i] == a && !Dropped(input, i, smallestSnapshot, levels, level);
      var j :| 0 <= j < |input| && input[j] == b && !Dropped(input, j, smallestSnapshot, levels, level);
      if i < j { OlderEntryIsDropped(input, i, j, smallestSnapshot, levels, level); }
      if j < i { OlderEntryIsDropped(input, j, i, smallestSnapshot, levels, level); }
    }
  }

  // Which one: the newest of each user key, unless it is a deletion with nothing
  // below it.
  lemma NewestSurvive(input: Run, smallestSnapshot: nat, levels: Levels, level: nat)
    requires Sorted(input) && smallestSnapshot < MAX_SEQUENCE_NUMBER && forall e :: e in input ==> e.sn <= smallestSnapshot
    ensures forall e :: e in Kept(input, |input|, smallestSnapshot, levels, level) <==>
      && e in input && (forall z :: z in input && z.key == e.key ==> z.sn <= e.sn)
      && !(e.op.Deletion? && forall l, f :: level + 2 <= l < NUM_LEVELS && f in levels[l] ==> !f.Covers(e.key))
  {
    hide Kept, Sorted;
    var m := Merge(ToSet(input), smallestSnapshot, levels, level);
    KeptIsSurvivors(m, input);
    assert forall e :: e in input <==> e in m.inputs;
    forall e | e in input ensures Obsolete(m, e) <==> e.op.Deletion? && IsBaseLevel(levels, level, e.key) {
    }
  }
}
