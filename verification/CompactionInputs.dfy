// Which files a compaction reads: GetOverlappingInputs with its level-0
// restarts, PickLevelForMemTableOutput, GetRange and SetupOtherInputs.

module OverlappingInputs {
  import opened Wrappers
  import opened Entries
  import opened Files

  // A missing bound is unbounded on that side.
  predicate InRange(f: File, lo: Option<UserKey>, hi: Option<UserKey>) {
    && !(lo.Some? && f.Large().key < lo.value)
    && !(hi.Some? && f.Small().key > hi.value)
  }

  predicate Inside(f: File, lo: Option<UserKey>, hi: Option<UserKey>) {
    && (lo.Some? ==> lo.value <= f.Small().key)
    && (hi.Some? ==> f.Large().key <= hi.value)
  }

  // The files that meet the range, in level order.
  function Overlapping(files: seq<File>, lo: Option<UserKey>, hi: Option<UserKey>): (r: seq<File>)
    ensures forall f :: f in r <==> f in files && InRange(f, lo, hi)
  {
    if |files| == 0 then []
    else
      var last := files[|files| - 1];
      var front := files[..|files| - 1];
      assert files == front + [last];
      Overlapping(front, lo, hi) + (if InRange(last, lo, hi) then [last] else [])
  }

  // [a, b] lies entirely on one side of the range.
  predicate Apart(a: UserKey, b: UserKey, lo: Option<UserKey>, hi: Option<UserKey>) {
    (lo.Some? && b < lo.value) || (hi.Some? && a > hi.value)
  }

  predicate ApartFrom(a: UserKey, b: UserKey, f: File) {
    b < f.Small().key || a > f.Large().key
  }

  ghost predicate ApartFromAll(a: UserKey, b: UserKey, files: seq<File>) {
    forall f :: f in files ==> ApartFrom(a, b, f)
  }

  // X contains every file that meets the starting range and, with a file,
  // every file that meets it.
  ghost predicate OverlapClosed(files: seq<File>, begin: Option<UserKey>, end: Option<UserKey>, X: set<File>) {
    && (forall f :: f in files && InRange(f, begin, end) ==> f in X)
    && (forall f, g :: f in files && g in files && f in X && g.Meets(f.Small().key, f.Large().key) ==> g in X)
  }

  // The range [lo, hi] was grown from [begin, end] through overlapping files
  // only: a closed set owns every file it meets, and no range that avoids
  // those files and the starting range can lie inside it.
  ghost predicate GrownFrom(files: seq<File>, begin: Option<UserKey>, end: Option<UserKey>,
                            lo: Option<UserKey>, hi: Option<UserKey>) {
    && (lo.Some? <==> begin.Some?) && (hi.Some? <==> end.Some?)
    && (begin.Some? ==> lo.value <= begin.value) && (end.Some? ==> end.value <= hi.value)
    && (forall X :: OverlapClosed(files, begin, end, X) ==>
          forall f :: f in files && InRange(f, lo, hi) ==> f in X)
    && (forall a, b :: a <= b && Apart(a, b, begin, end) && ApartFromAll(a, b, Overlapping(files, lo, hi)) ==>
          Apart(a, b, lo, hi))
  }

  ghost function StartingBelow(files: seq<File>, lo: Option<UserKey>): set<File> {
    set f | f in files && lo.Some? && f.Small().key < lo.value
  }

  ghost function EndingAbove(files: seq<File>, hi: Option<UserKey>): set<File> {
    set f | f in files && hi.Some? && f.Large().key > hi.value
  }

  lemma GrowBelow(files: seq<File>, begin: Option<UserKey>, end: Option<UserKey>,
                  lo: Option<UserKey>, hi: Option<UserKey>, f: File)
    requires AllSorted(files) && GrownFrom(files, begin, end, lo, hi)
    requires f in files && InRange(f, lo, hi) && lo.Some? && f.Small().key < lo.value
    ensures GrownFrom(files, begin, end, Some(f.Small().key), hi)
    ensures StartingBelow(files, Some(f.Small().key)) < StartingBelow(files, lo)
  {
    var lo' := Some(f.Small().key);
    WithinBounds(f, f.Large());
    forall X, g | OverlapClosed(files, begin, end, X) && g in files && InRange(g, lo', hi) ensures g in X {
      assert f in X;
      assert InRange(g, lo, hi) || g.Meets(f.Small().key, f.Large().key) by { WithinBounds(g, g.Large()); }
    }
    forall a, b | a <= b && Apart(a, b, begin, end) && ApartFromAll(a, b, Overlapping(files, lo', hi))
      ensures Apart(a, b, lo', hi)
    {
      assert ApartFromAll(a, b, Overlapping(files, lo, hi));
      assert ApartFrom(a, b, f);
    }
    assert f in StartingBelow(files, lo) && f !in StartingBelow(files, lo');
  }

  lemma GrowAbove(files: seq<File>, begin: Option<UserKey>, end: Option<UserKey>,
                  lo: Option<UserKey>, hi: Option<UserKey>, f: File)
    requires AllSorted(files) && GrownFrom(files, begin, end, lo, hi)
    requires f in files && InRange(f, lo, hi) && hi.Some? && f.Large().key > hi.value
    ensures GrownFrom(files, begin, end, lo, Some(f.Large().key))
    ensures EndingAbove(files, Some(f.Large().key)) < EndingAbove(files, hi)
  {
    var hi' := Some(f.Large().key);
    WithinBounds(f, f.Large());
    forall X, g | OverlapClosed(files, begin, end, X) && g in files && InRange(g, lo, hi') ensures g in X {
      assert f in X;
      assert InRange(g, lo, hi) || g.Meets(f.Small().key, f.Large().key) by { WithinBounds(g, g.Large()); }
    }
    forall a, b | a <= b && Apart(a, b, begin, end) && ApartFromAll(a, b, Overlapping(files, lo, hi'))
      ensures Apart(a, b, lo, hi')
    {
      assert ApartFromAll(a, b, Overlapping(files, lo, hi));
      assert ApartFrom(a, b, f);
    }
    assert f in EndingAbove(files, hi) && f !in EndingAbove(files, hi');
  }

  // All files of the level that meet [begin, end]. Level-0 files may overlap
  // each other, so there the search restarts with a wider range whenever a
  // chosen file sticks out: the result is the least set that meets the range
  // and is closed under overlap.
  method GetOverlappingInputs(level: nat, files: seq<File>, begin: Option<UserKey>, end: Option<UserKey>)
    returns (inputs: seq<File>, ghost lo: Option<UserKey>, ghost hi: Option<UserKey>)
    requires AllSorted(files)
    ensures inputs == Overlapping(files, lo, hi)
    ensures GrownFrom(files, begin, end, lo, hi)
    ensures level > 0 ==> lo == begin && hi == end
    ensures level == 0 ==> forall f :: f in inputs ==> Inside(f, lo, hi)
    ensures level > 0 ==> inputs == Overlapping(files, begin, end)
    ensures level == 0 ==> IsLeastClosed(files, begin, end, inputs)
  {
    var userBegin, userEnd := begin, end;
    inputs := [];
    var i := 0;
    while i < |files|
      invariant i <= |files|
      invariant GrownFrom(files, begin, end, userBegin, userEnd)
      invariant inputs == Overlapping(files[..i], userBegin, userEnd)
      invariant level > 0 ==> userBegin == begin && userEnd == end
      invariant level == 0 ==> forall f :: f in inputs ==> Inside(f, userBegin, userEnd)
      decreases StartingBelow(files, userBegin), EndingAbove(files, userEnd), |files| - i
    {
      var f := files[i];
      i := i + 1;
      assert files[..i][..i - 1] == files[..i - 1];
      if userBegin.Some? && f.Large().key < userBegin.value {
      } else if userEnd.Some? && f.Small().key > userEnd.value {
      } else {
        inputs := inputs + [f];
        if level == 0 {
          if userBegin.Some? && f.Small().key < userBegin.value {
            GrowBelow(files, begin, end, userBegin, userEnd, f);
            userBegin := Some(f.Small().key);
            inputs := [];
            i := 0;
          } else if userEnd.Some? && f.Large().key > userEnd.value {
            GrowAbove(files, begin, end, userBegin, userEnd, f);
            userEnd := Some(f.Large().key);
            inputs := [];
            i := 0;
          }
        }
      }
    }
    assert files[..i] == files;
    lo, hi := userBegin, userEnd;
    if level == 0 { LeastClosed(files, begin, end, lo, hi, inputs); }
  }

  // Closed under overlap, and every closed set includes it.
  ghost predicate IsLeastClosed(files: seq<File>, begin: Option<UserKey>, end: Option<UserKey>, inputs: seq<File>) {
    && (forall f :: f in inputs ==> f in files)
    && OverlapClosed(files, begin, end, set f | f in inputs)
    && forall X, f :: OverlapClosed(files, begin, end, X) && f in inputs ==> f in X
  }

  lemma LeastClosed(files: seq<File>, begin: Option<UserKey>, end: Option<UserKey>,
                    lo: Option<UserKey>, hi: Option<UserKey>, inputs: seq<File>)
    requires AllSorted(files) && GrownFrom(files, begin, end, lo, hi) && inputs == Overlapping(files, lo, hi)
    requires forall f :: f in inputs ==> Inside(f, lo, hi)
    ensures IsLeastClosed(files, begin, end, inputs)
  {
  }

  function TotalFileSize(files: seq<File>): nat {
    if |files| == 0 then 0 else files[0].size + TotalFileSize(files[1..])
  }
}

module CompactionInputs {
  import opened Wrappers
  import opened Entries
  import opened Files
  import opened OverlappingInputs
  import opened VersionSearch

  const TARGET_FILE_SIZE := 2 * 1048576
  const MAX_GRANDPARENT_OVERLAP_BYTES := 10 * TARGET_FILE_SIZE
  const EXPANDED_COMPACTION_BYTE_SIZE_LIMIT := 25 * TARGET_FILE_SIZE

  // A compaction of inputs0 (in level) with inputs1 (in level + 1).
  datatype Compaction = Compaction(level: nat, inputs0: seq<File>, inputs1: seq<File>, grandparents: seq<File>) {
    function Inputs(): seq<File> { inputs0 + inputs1 }

    // Nothing to merge with and not too much data two levels down.
    predicate IsTrivialMove() {
      && |inputs0| == 1 && |inputs1| == 0
      && TotalFileSize(grandparents) <= MAX_GRANDPARENT_OVERLAP_BYTES
    }
  }

  // Some user key range [a, b] that avoids every file has files on both sides.
  ghost predicate GapFree(files: seq<File>) {
    forall a, b :: a <= b && ApartFromAll(a, b, files) ==>
      (forall f :: f in files ==> b < f.Small().key) || (forall f :: f in files ==> a > f.Large().key)
  }

  ghost predicate AreBounds(files: seq<File>, small: Entry, large: Entry) {
    && (exists f :: f in files && f.Small() == small)
    && (exists f :: f in files && f.Large() == large)
    && (forall f :: f in files ==> !Before(f.Small(), small) && !Before(large, f.Large()))
  }

  method GetRange(inputs: seq<File>) returns (small: Entry, large: Entry)
    requires |inputs| > 0
    ensures AreBounds(inputs, small, large)
  {
    small, large := inputs[0].Small(), inputs[0].Large();
    var i := 1;
    while i < |inputs|
      invariant 1 <= i <= |inputs|
      invariant AreBounds(inputs[..i], small, large)
    {
      var f := inputs[i];
      assert inputs[..i + 1] == inputs[..i] + [f];
      if Before(f.Small(), small) { small := f.Small(); }
      if Before(large, f.Large()) { large := f.Large(); }
      i := i + 1;
    }
    assert inputs[..i] == inputs;
  }

  // inputs1 is exactly what inputs0 meets in the next level, and at level 0
  // no file outside inputs0 meets it.
  ghost predicate ChosenFrom(levels: Levels, c: Compaction) {
    && c.level + 1 < NUM_LEVELS
    && |c.inputs0| > 0
    && (forall f :: f in c.inputs0 ==> f in levels[c.level])
    && (exists small, large :: AreBounds(c.inputs0, small, large)
          && c.inputs1 == Overlapping(levels[c.level + 1], Some(small.key), Some(large.key)))
    && (c.level == 0 ==> ClosedInLevel0(levels[0], c.inputs0))
  }

  // The files two levels down that meet the whole range of the compaction.
  ghost predicate MeetingGrandparents(files: seq<File>, c: Compaction) {
    exists small, large ::
      AreBounds(c.Inputs(), small, large) && c.grandparents == Overlapping(files, Some(small.key), Some(large.key))
  }

  ghost predicate ClosedInLevel0(files: seq<File>, inputs: seq<File>) {
    forall f, g :: f in inputs && g in files && g.Meets(f.Small().key, f.Large().key) ==> g in inputs
  }

  ghost predicate MeetsRange(files: seq<File>, small: Entry, large: Entry) {
    forall f :: f in files ==> InRange(f, Some(small.key), Some(large.key))
  }

  lemma BoundsMeetRange(files: seq<File>, small: Entry, large: Entry)
    requires AllSorted(files) && AreBounds(files, small, large)
    ensures small.key <= large.key && MeetsRange(files, small, large)
  {
    forall f | f in files ensures f.Small().key <= f.Large().key { WithinBounds(f, f.Large()); }
  }

  // Adding files that all meet the hull of a gap-free set opens no gap.
  lemma GapFreeWithMeeting(files: seq<File>, more: seq<File>, small: Entry, large: Entry)
    requires AllSorted(files) && AllSorted(more)
    requires AreBounds(files, small, large) && GapFree(files) && MeetsRange(more, small, large)
    ensures GapFree(files + more)
  {
    forall a, b | a <= b && ApartFromAll(a, b, files + more)
      ensures (forall f :: f in files + more ==> b < f.Small().key) || (forall f :: f in files + more ==> a > f.Large().key)
    {
      assert forall f :: f in files ==> f in files + more;
      assert forall f :: f in more ==> f in files + more && ApartFrom(a, b, f);
      assert ApartFromAll(a, b, files);
    }
  }

  // Equal counts mean equal choices when one range includes the other.
  lemma {:induction false} WiderRangeSameCount(files: seq<File>, lo: Option<UserKey>, hi: Option<UserKey>,
                                               lo': Option<UserKey>, hi': Option<UserKey>)
    requires forall f :: f in files && InRange(f, lo, hi) ==> InRange(f, lo', hi')
    ensures |Overlapping(files, lo, hi)| <= |Overlapping(files, lo', hi')|
    ensures |Overlapping(files, lo, hi)| == |Overlapping(files, lo', hi')|
      ==> Overlapping(files, lo, hi) == Overlapping(files, lo', hi')
  {
    if |files| > 0 {
      var front := files[..|files| - 1];
      WiderRangeSameCount(front, lo, hi, lo', hi');
      assert files[|files| - 1] in files;
    }
  }

  // The expanded level files are gap free together with the level + 1 files.
  lemma ExpandedIsGapFree(files: seq<File>, inputs: seq<File>, inputs1: seq<File>, all: Entry, limit: Entry,
                          lo: Option<UserKey>, hi: Option<UserKey>)
    requires AllSorted(files) && AllSorted(inputs) && AllSorted(inputs1)
    requires AreBounds(inputs + inputs1, all, limit) && GapFree(inputs + inputs1)
    requires forall f :: f in inputs ==> f in files
    requires GrownFrom(files, Some(all.key), Some(limit.key), lo, hi)
    ensures forall f :: f in inputs ==> f in Overlapping(files, lo, hi)
    ensures GapFree(Overlapping(files, lo, hi) + inputs1)
  {
    var expanded := Overlapping(files, lo, hi);
    BoundsMeetRange(inputs + inputs1, all, limit);
    forall a, b | a <= b && ApartFromAll(a, b, expanded + inputs1)
      ensures (forall f :: f in expanded + inputs1 ==> b < f.Small().key) || (forall f :: f in expanded + inputs1 ==> a > f.Large().key)
    {
      assert forall f :: f in expanded ==> f in expanded + inputs1 && ApartFrom(a, b, f);
      assert forall f :: f in inputs1 ==> f in expanded + inputs1 && ApartFrom(a, b, f);
      assert ApartFromAll(a, b, inputs + inputs1);
      assert ApartFromAll(a, b, expanded);
      assert Apart(a, b, Some(all.key), Some(limit.key));
      assert Apart(a, b, lo, hi);
    }
  }

  // A grown range that no chosen file sticks out of is closed under overlap.
  lemma NothingSticksOut(files: seq<File>, lo: Option<UserKey>, hi: Option<UserKey>)
    requires AllSorted(files) && forall g :: g in Overlapping(files, lo, hi) ==> Inside(g, lo, hi)
    ensures ClosedInLevel0(files, Overlapping(files, lo, hi))
  {
  }

  lemma PickedStaysIncluded(files: seq<File>, picked: seq<File>, inputs1: seq<File>, small: Entry, large: Entry,
                            all: Entry, limit: Entry, lo: Option<UserKey>, hi: Option<UserKey>,
                            newSmall: Entry, newLarge: Entry)
    requires AllSorted(picked) && AllSorted(inputs1)
    requires AreBounds(picked, small, large) && AreBounds(picked + inputs1, all, limit)
    requires forall f :: f in picked ==> f in files
    requires GrownFrom(files, Some(all.key), Some(limit.key), lo, hi)
    requires AreBounds(Overlapping(files, lo, hi), newSmall, newLarge)
    ensures forall f :: f in picked ==> f in Overlapping(files, lo, hi)
    ensures newSmall.key <= small.key && large.key <= newLarge.key
  {
    BoundsMeetRange(picked + inputs1, all, limit);
    assert forall f :: f in picked ==> f in picked + inputs1;
  }

  lemma SomeFile(files: seq<File>, small: Entry, large: Entry)
    requires AreBounds(files, small, large)
    ensures |files| > 0
  {
  }

  // The files of the level that meet the range, and at level 0 whatever meets
  // those.
  ghost predicate IsMeeting(level: nat, files: seq<File>, begin: UserKey, end: UserKey, meeting: seq<File>) {
    if level == 0 then IsLeastClosed(files, Some(begin), Some(end), meeting)
    else meeting == Overlapping(files, Some(begin), Some(end))
  }

  // The range of these files meets exactly these files of the next level.
  ghost predicate MeetsExactly(files: seq<File>, next: seq<File>, meeting: seq<File>) {
    forall small, large :: AreBounds(files, small, large) ==> Overlapping(next, Some(small.key), Some(large.key)) == meeting
  }

  // More files of the level fit in with what is merged anyway.
  ghost predicate MayGrow(next: seq<File>, picked: seq<File>, meeting: seq<File>, expanded: seq<File>) {
    && |expanded| > |picked| && MeetsExactly(expanded, next, meeting)
    && TotalFileSize(meeting) + TotalFileSize(expanded) < EXPANDED_COMPACTION_BYTE_SIZE_LIMIT
  }

  // Keys of the bounds of some files are determined.
  lemma SameBounds(files: seq<File>, small: Entry, large: Entry, small': Entry, large': Entry)
    requires AreBounds(files, small, large) && AreBounds(files, small', large')
    ensures small.key == small'.key && large.key == large'.key
  {
  }

  lemma MeetsOrNot(next: seq<File>, meeting: seq<File>, expanded: seq<File>, small: Entry, large: Entry)
    requires AreBounds(expanded, small, large)
    ensures MeetsExactly(expanded, next, meeting) <==> Overlapping(next, Some(small.key), Some(large.key)) == meeting
  {
    hide AreBounds;
    forall small', large' | AreBounds(expanded, small', large') ensures small'.key == small.key && large'.key == large.key {
      SameBounds(expanded, small, large, small', large');
    }
  }

  // Take more level files when that changes nothing at level + 1 and stays
  // under the size limit, and only then.
  method ExpandInputs(levels: Levels, level: nat, picked: seq<File>, meeting: seq<File>,
                      small: Entry, large: Entry, allStart: Entry, allLimit: Entry)
    returns (inputs0: seq<File>, smallest: Entry, largest: Entry, ghost expanded: seq<File>)
    requires level + 1 < NUM_LEVELS && AllSorted(levels[level]) && AllSorted(levels[level + 1])
    requires forall f :: f in picked ==> f in levels[level]
    requires level == 0 ==> ClosedInLevel0(levels[0], picked)
    requires AreBounds(picked, small, large)
    requires meeting == Overlapping(levels[level + 1], Some(small.key), Some(large.key))
    requires AreBounds(picked + meeting, allStart, allLimit)
    ensures |inputs0| > 0 && (forall f :: f in picked ==> f in inputs0) && (forall f :: f in inputs0 ==> f in levels[level])
    ensures level == 0 ==> ClosedInLevel0(levels[0], inputs0)
    ensures AreBounds(inputs0, smallest, largest)
    ensures meeting == Overlapping(levels[level + 1], Some(smallest.key), Some(largest.key))
    ensures GapFree(picked + meeting) ==> GapFree(inputs0 + meeting)
    ensures IsMeeting(level, levels[level], allStart.key, allLimit.key, expanded)
    ensures inputs0 == if MayGrow(levels[level + 1], picked, meeting, expanded) then expanded else picked
  {
    hide GapFree, AreBounds, ClosedInLevel0, OverlapClosed, IsLeastClosed, GrownFrom, MeetsExactly;
    inputs0, smallest, largest := picked, small, large;
    SomeFile(picked, small, large);
    var expanded0, lo, hi := GetOverlappingInputs(level, levels[level], Some(allStart.key), Some(allLimit.key));
    expanded := expanded0;
    if |expanded0| > |picked|
       && TotalFileSize(meeting) + TotalFileSize(expanded0) < EXPANDED_COMPACTION_BYTE_SIZE_LIMIT {
      var newStart, newLimit := GetRange(expanded0);
      var expanded1, _, _ := GetOverlappingInputs(level + 1, levels[level + 1], Some(newStart.key), Some(newLimit.key));
      MeetsOrNot(levels[level + 1], meeting, expanded0, newStart, newLimit);
      PickedStaysIncluded(levels[level], picked, meeting, small, large, allStart, allLimit, lo, hi, newStart, newLimit);
      WiderRangeSameCount(levels[level + 1], Some(small.key), Some(large.key), Some(newStart.key), Some(newLimit.key));
      if |expanded1| == |meeting| {
        if GapFree(picked + meeting) {
          ExpandedIsGapFree(levels[level], picked, meeting, allStart, allLimit, lo, hi);
        }
        if level == 0 { NothingSticksOut(levels[0], lo, hi); }
        inputs0, smallest, largest := expanded0, newStart, newLimit;
      }
    }
  }

  lemma ChosenWitness(levels: Levels, c: Compaction, small: Entry, large: Entry)
    requires c.level + 1 < NUM_LEVELS && |c.inputs0| > 0
    requires forall f :: f in c.inputs0 ==> f in levels[c.level]
    requires AreBounds(c.inputs0, small, large)
    requires c.inputs1 == Overlapping(levels[c.level + 1], Some(small.key), Some(large.key))
    requires c.level == 0 ==> ClosedInLevel0(levels[0], c.inputs0)
    ensures ChosenFrom(levels, c)
  {
  }

  lemma GrandparentsWitness(files: seq<File>, c: Compaction, small: Entry, large: Entry)
    requires AreBounds(c.inputs0 + c.inputs1, small, large)
    requires c.grandparents == Overlapping(files, Some(small.key), Some(large.key))
    ensures MeetingGrandparents(files, c)
  {
    assert c.Inputs() == c.inputs0 + c.inputs1;
  }

  // The whole range of the picked files and of those they meet at the next level
  // was tried, and taken if it may be.
  ghost predicate IsSetUp(levels: Levels, level: nat, picked: seq<File>, inputs0: seq<File>, inputs1: seq<File>)
    requires level + 1 < NUM_LEVELS
  {
    && MeetsExactly(picked, levels[level + 1], inputs1)
    && (if inputs1 == [] then inputs0 == picked else IsGrown(levels, level, picked, inputs0, inputs1))
  }

  ghost predicate IsGrown(levels: Levels, level: nat, picked: seq<File>, inputs0: seq<File>, inputs1: seq<File>)
    requires level + 1 < NUM_LEVELS
  {
    exists all, limit, expanded ::
      && AreBounds(picked + inputs1, all, limit) && IsMeeting(level, levels[level], all.key, limit.key, expanded)
      && inputs0 == if MayGrow(levels[level + 1], picked, inputs1, expanded) then expanded else picked
  }

  lemma GrownWitness(levels: Levels, level: nat, picked: seq<File>, inputs0: seq<File>, inputs1: seq<File>,
                     all: Entry, limit: Entry, expanded: seq<File>)
    requires level + 1 < NUM_LEVELS
    requires AreBounds(picked + inputs1, all, limit) && IsMeeting(level, levels[level], all.key, limit.key, expanded)
    requires inputs0 == if MayGrow(levels[level + 1], picked, inputs1, expanded) then expanded else picked
    ensures IsGrown(levels, level, picked, inputs0, inputs1)
  {
    hide AreBounds, IsMeeting, MayGrow;
  }

  lemma PickedMeetRange(levels: Levels, level: nat, picked: seq<File>, small: Entry, large: Entry)
    requires level + 1 < NUM_LEVELS && AllSorted(levels[level]) && AllSorted(levels[level + 1])
    requires (forall f :: f in picked ==> f in levels[level]) && AreBounds(picked, small, large)
    ensures small.key <= large.key
    ensures GapFree(picked) ==> GapFree(picked + Overlapping(levels[level + 1], Some(small.key), Some(large.key)))
  {
    hide GapFree, AreBounds;
    BoundsMeetRange(picked, small, large);
    if GapFree(picked) {
      GapFreeWithMeeting(picked, Overlapping(levels[level + 1], Some(small.key), Some(large.key)), small, large);
    }
  }

  // Choose the level + 1 inputs, then try to take more level files without
  // changing them.
  method SetupOtherInputs(levels: Levels, level: nat, picked: seq<File>) returns (c: Compaction)
    requires level + 1 < NUM_LEVELS
    requires forall l :: 0 <= l < NUM_LEVELS ==> AllSorted(levels[l])
    requires |picked| > 0 && forall f :: f in picked ==> f in levels[level]
    requires level == 0 ==> ClosedInLevel0(levels[0], picked)
    ensures c.level == level && ChosenFrom(levels, c)
    ensures forall f :: f in picked ==> f in c.inputs0
    ensures IsSetUp(levels, level, picked, c.inputs0, c.inputs1)
    ensures GapFree(picked) ==> GapFree(c.Inputs())
    ensures level + 2 < NUM_LEVELS ==> MeetingGrandparents(levels[level + 2], c)
  {
    hide GrownFrom, OverlapClosed, IsLeastClosed, GapFree, AreBounds, ClosedInLevel0, MeetsRange, IsGrown, MeetsExactly, MayGrow, IsMeeting;
    hide ChosenFrom, MeetingGrandparents, Overlapping, AllSorted;
    var smallest, largest := GetRange(picked);
    PickedMeetRange(levels, level, picked, smallest, largest);
    MeetsOrNot(levels[level + 1], Overlapping(levels[level + 1], Some(smallest.key), Some(largest.key)), picked, smallest, largest);
    var inputs0 := picked;
    var inputs1, _, _ := GetOverlappingInputs(level + 1, levels[level + 1], Some(smallest.key), Some(largest.key));
    var allStart, allLimit := GetRange(inputs0 + inputs1);
    if |inputs1| > 0 {
      ghost var expanded;
      inputs0, smallest, largest, expanded := ExpandInputs(levels, level, picked, inputs1, smallest, largest, allStart, allLimit);
      GrownWitness(levels, level, picked, inputs0, inputs1, allStart, allLimit, expanded);
      allStart, allLimit := GetRange(inputs0 + inputs1);
    }
    var grandparents: seq<File> := [];
    if level + 2 < NUM_LEVELS {
      var meeting, _, _ := GetOverlappingInputs(level + 2, levels[level + 2], Some(allStart.key), Some(allLimit.key));
      grandparents := meeting;
    }
    c := Compaction(level, inputs0, inputs1, grandparents);
    ChosenWitness(levels, c, smallest, largest);
    if level + 2 < NUM_LEVELS { GrandparentsWitness(levels[level + 2], c, allStart, allLimit); }
  }

  // Set up from the file alone, at level 0 from the least set of files that meet
  // it and each other.
  ghost predicate IsPicked(levels: Levels, level: nat, f: File, c: Compaction)
    requires level + 1 < NUM_LEVELS
  {
    exists picked ::
      && (if level == 0 then IsLeastClosed(levels[0], Some(f.Small().key), Some(f.Large().key), picked) else picked == [f])
      && IsSetUp(levels, level, picked, c.inputs0, c.inputs1)
  }

  lemma RangeOfOne(f: File, small: Entry, large: Entry)
    requires AreBounds([f], small, large)
    ensures small == f.Small() && large == f.Large()
  {
  }

  // An automatically picked compaction starts from one file of the level (at
  // level 0 from everything that must move with it).
  method PickCompaction(levels: Levels, level: nat, f: File) returns (c: Compaction)
    requires level + 1 < NUM_LEVELS && f in levels[level]
    requires forall l :: 0 <= l < NUM_LEVELS ==> AllSorted(levels[l])
    ensures c.level == level && ChosenFrom(levels, c) && f in c.inputs0
    ensures IsPicked(levels, level, f, c)
    ensures GapFree(c.Inputs())
    ensures level + 2 < NUM_LEVELS ==> MeetingGrandparents(levels[level + 2], c)
  {
    hide IsSetUp, GrownFrom, OverlapClosed;
    var inputs := [f];
    WithinBounds(f, f.Large());
    assert GapFree([f]);
    if level == 0 {
      var smallest, largest := GetRange(inputs);
      RangeOfOne(f, smallest, largest);
      ghost var lo, hi;
      inputs, lo, hi := GetOverlappingInputs(0, levels[0], Some(smallest.key), Some(largest.key));
      ClosureIsGapFree(levels[0], f, lo, hi);
    }
    c := SetupOtherInputs(levels, level, inputs);
  }

  lemma ClosureIsGapFree(files: seq<File>, f: File, lo: Option<UserKey>, hi: Option<UserKey>)
    requires AllSorted(files) && f in files
    requires GrownFrom(files, Some(f.Small().key), Some(f.Large().key), lo, hi)
    requires forall g :: g in Overlapping(files, lo, hi) ==> Inside(g, lo, hi)
    ensures f in Overlapping(files, lo, hi)
    ensures ClosedInLevel0(files, Overlapping(files, lo, hi))
    ensures GapFree(Overlapping(files, lo, hi))
  {
    var inputs := Overlapping(files, lo, hi);
    WithinBounds(f, f.Large());
    NothingSticksOut(files, lo, hi);
    forall a, b | a <= b && ApartFromAll(a, b, inputs)
      ensures (forall g :: g in inputs ==> b < g.Small().key) || (forall g :: g in inputs ==> a > g.Large().key)
    {
      assert ApartFrom(a, b, f);
      assert Apart(a, b, lo, hi);
    }
  }

  // ------------------------------------------- level choice for a new table

  ghost predicate NoOverlap(files: seq<File>, small: UserKey, large: UserKey) {
    forall f :: f in files ==> !f.Meets(small, large)
  }

  ghost predicate TooManyGrandparentBytes(files: seq<File>, small: UserKey, large: UserKey) {
    TotalFileSize(Overlapping(files, Some(small), Some(large))) > MAX_GRANDPARENT_OVERLAP_BYTES
  }

  // A flushed memtable goes below level 0 only past levels it does not touch and
  // that do not lie over too much overlapping data, and as deep as level 2 as long
  // as neither is in its way.
  ghost predicate IsOutputLevel(levels: Levels, small: UserKey, large: UserKey, level: nat) {
    && level <= MAX_MEM_COMPACT_LEVEL
    && (level > 0 ==> forall l :: 0 <= l <= level ==> NoOverlap(levels[l], small, large))
    && (forall l :: 2 <= l < level + 2 ==> !TooManyGrandparentBytes(levels[l], small, large))
    && (level < MAX_MEM_COMPACT_LEVEL ==>
          || (level == 0 && !NoOverlap(levels[0], small, large))
          || !NoOverlap(levels[level + 1], small, large)
          || TooManyGrandparentBytes(levels[level + 2], small, large))
  }

  method PickLevelForMemTableOutput(levels: Levels, small: UserKey, large: UserKey) returns (level: nat)
    requires small <= large
    requires AllSorted(levels[0]) && forall l :: 1 <= l < NUM_LEVELS ==> LevelSorted(levels[l])
    ensures IsOutputLevel(levels, small, large, level)
  {
    hide NoOverlap, TooManyGrandparentBytes, AllSorted, LevelSorted;
    level := 0;
    var overlap := OverlapInLevel(levels, 0, small, large);
    if !overlap {
      while level < MAX_MEM_COMPACT_LEVEL
        invariant level <= MAX_MEM_COMPACT_LEVEL
        invariant forall l :: 0 <= l <= level ==> NoOverlap(levels[l], small, large)
        invariant forall l :: 2 <= l < level + 2 ==> !TooManyGrandparentBytes(levels[l], small, large)
      {
        overlap := OverlapInLevel(levels, level + 1, small, large);
        if overlap { break; }
        if level + 2 < NUM_LEVELS {
          var sum := OverlappingBytes(levels, level + 2, small, large);
          if sum > MAX_GRANDPARENT_OVERLAP_BYTES { break; }
        }
        level := level + 1;
      }
    }
  }

  method OverlapInLevel(levels: Levels, level: nat, small: UserKey, large: UserKey) returns (overlap: bool)
    requires small <= large && level < NUM_LEVELS
    requires AllSorted(levels[0]) && forall l :: 1 <= l < NUM_LEVELS ==> LevelSorted(levels[l])
    ensures overlap <==> !NoOverlap(levels[level], small, large)
  {
    assert level > 0 ==> LevelSorted(levels[level]);
    overlap := SomeFileOverlapsRange(level > 0, levels[level], Some(small), Some(large));
  }

  method OverlappingBytes(levels: Levels, level: nat, small: UserKey, large: UserKey) returns (sum: nat)
    requires 0 < level < NUM_LEVELS && LevelSorted(levels[level])
    ensures sum > MAX_GRANDPARENT_OVERLAP_BYTES <==> TooManyGrandparentBytes(levels[level], small, large)
  {
    var overlaps, _, _ := GetOverlappingInputs(level, levels[level], Some(small), Some(large));
    sum := TotalFileSize(overlaps);
  }
}
