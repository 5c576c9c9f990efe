// MergingIterator: a cursor over the sorted merge of several runs.

module Merger {
  import opened Wrappers
  import opened Entries
  import opened Cursors

  datatype Direction = Forward | Reverse

  // --------------------------------------------------- ranks in the merge

  // Where an entry stands in the merged run.
  function Rank(merged: Run, e: Entry): nat {
    SeekIndex(merged, e.key, e.sn)
  }

  lemma RankFinds(merged: Run, e: Entry)
    requires Sorted(merged) && e in merged
    ensures Rank(merged, e) < |merged| && merged[Rank(merged, e)] == e
  {
    var i, j := Rank(merged, e), 0;
    j :| 0 <= j < |merged| && merged[j] == e;
    assert i < j ==> Before(merged[i], merged[j]);
  }

  lemma RankOf(merged: Run, i: nat)
    requires Sorted(merged) && i < |merged|
    ensures Rank(merged, merged[i]) == i
  {
    var r := Rank(merged, merged[i]);
    assert r < i ==> Before(merged[r], merged[i]);
  }

  lemma RankIsOrder(merged: Run, x: Entry, y: Entry)
    requires Sorted(merged) && x in merged && y in merged
    ensures Before(x, y) <==> Rank(merged, x) < Rank(merged, y)
  {
    RankFinds(merged, x);
    RankFinds(merged, y);
    var i, j := Rank(merged, x), Rank(merged, y);
    assert i < j ==> Before(merged[i], merged[j]);
    assert j < i ==> Before(merged[j], merged[i]);
  }

  // One of the merged runs.
  ghost predicate PartOf(list: Run, merged: Run) {
    Sorted(list) && forall j :: 0 <= j < |list| ==> list[j] in merged
  }

  // Exactly the first n entries of the run rank below m.
  ghost predicate Below(list: Run, merged: Run, n: nat, m: nat) {
    n <= |list| && forall j :: 0 <= j < |list| ==> (j < n <==> Rank(merged, list[j]) < m)
  }

  lemma SeekSplits(run: Run, k: UserKey, s: nat, j: nat)
    requires Sorted(run) && j < |run|
    ensures j < SeekIndex(run, k, s) <==> !AtOrAfter(run[j], k, s)
  {
    var i := SeekIndex(run, k, s);
    assert i < j ==> Before(run[i], run[j]);
  }

  lemma SeekIsBelow(list: Run, merged: Run, k: UserKey, s: nat)
    requires PartOf(list, merged) && Sorted(merged)
    ensures Below(list, merged, SeekIndex(list, k, s), SeekIndex(merged, k, s))
  {
    hide SeekIndex, AtOrAfter;
    forall j | 0 <= j < |list| ensures j < SeekIndex(list, k, s) <==> Rank(merged, list[j]) < SeekIndex(merged, k, s) {
      RankFinds(merged, list[j]);
      SeekSplits(list, k, s, j);
      SeekSplits(merged, k, s, Rank(merged, list[j]));
    }
  }

  lemma RanksIncrease(list: Run, merged: Run, i: nat, j: nat)
    requires PartOf(list, merged) && Sorted(merged) && i < j < |list|
    ensures Rank(merged, list[i]) < Rank(merged, list[j])
  {
    assert Before(list[i], list[j]);
    RankIsOrder(merged, list[i], list[j]);
  }

  // Past an entry of the run itself.
  lemma BelowNext(list: Run, merged: Run, n: nat, m: nat)
    requires PartOf(list, merged) && Sorted(merged) && n < |list| && Rank(merged, list[n]) == m
    ensures Below(list, merged, n, m) && Below(list, merged, n + 1, m + 1)
  {
    forall j | 0 <= j < |list| ensures (j < n <==> Rank(merged, list[j]) < m) && (j < n + 1 <==> Rank(merged, list[j]) < m + 1) {
      if j < n { RanksIncrease(list, merged, j, n); }
      if n < j { RanksIncrease(list, merged, n, j); }
    }
  }

  // Past an entry of some other run.
  lemma BelowOther(list: Run, merged: Run, n: nat, m: nat)
    requires Sorted(merged) && m < |merged| && merged[m] !in list && PartOf(list, merged)
    ensures Below(list, merged, n, m) <==> Below(list, merged, n, m + 1)
  {
    forall j | 0 <= j < |list| ensures Rank(merged, list[j]) != m {
      RankFinds(merged, list[j]);
    }
  }

  lemma BelowZero(list: Run, merged: Run, n: nat)
    ensures Below(list, merged, n, 0) ==> n == 0
  {
    if 0 < n <= |list| { assert !(Rank(merged, list[0]) < 0); }
  }

  // ------------------------------------------------------------- the class

  // The cursor stands at the run's last entry below rank m.
  ghost predicate BackAt(list: Run, merged: Run, pos: nat, m: nat) {
    pos <= |list| && Below(list, merged, CountOf(pos, |list|), m)
  }

  // Just before an entry of some other run.
  method SeekBefore(child: RunCursor, e: Entry, ghost merged: Run)
    requires PartOf(child.list, merged) && Sorted(merged) && e in merged
    modifies child
    ensures BackAt(child.list, merged, child.pos, Rank(merged, e))
  {
    hide SeekIndex, Below;
    SeekIsBelow(child.list, merged, e.key, e.sn);
    child.Seek(e.key, e.sn);
    if child.AtEntry() {
      child.Prev();
    } else {
      child.SeekToLast();
    }
  }

  class MergingIterator {
    const children: seq<RunCursor>
    ghost const merged: Run
    var current: Option<nat>
    var direction: Direction

    // The merged run holds every child's entries, each in one child only.
    ghost predicate IsMerge() {
      && Sorted(merged)
      && (forall i, j :: 0 <= i < j < |children| ==> children[i] != children[j])
      && (forall i :: 0 <= i < |children| ==> PartOf(children[i].list, merged))
      && (forall e :: e in merged ==> exists i :: 0 <= i < |children| && e in children[i].list)
      && (forall i, j, e :: 0 <= i < j < |children| && e in children[i].list ==> e !in children[j].list)
    }

    // Every child stands at its first entry of rank m or more.
    ghost predicate AllFront(m: nat) reads children {
      forall i :: 0 <= i < |children| ==> Below(children[i].list, merged, children[i].pos, m)
    }

    // Every child stands at its last entry below rank m.
    ghost predicate AllBack(m: nat) reads children {
      forall i :: 0 <= i < |children| ==> BackAt(children[i].list, merged, children[i].pos, m)
    }

    ghost predicate AllBackBut(c: nat, m: nat) reads children {
      forall i :: 0 <= i < |children| && i != c ==> BackAt(children[i].list, merged, children[i].pos, m)
    }

    // current_ is the first smallest, or the last largest, child entry.
    ghost predicate Chosen(smallest: bool) reads this`current, children {
      && (current == None ==> forall i :: 0 <= i < |children| ==> !children[i].AtEntry())
      && (current.Some? ==>
            && current.value < |children| && children[current.value].AtEntry()
            && forall i :: 0 <= i < |children| && children[i].AtEntry() ==>
                 if smallest then !Before(children[i].list[children[i].pos], Current())
                 else !Before(Current(), children[i].list[children[i].pos]))
    }

    // The iterator stands at position cur of the merged run.
    ghost predicate At(cur: nat) reads this, children {
      && IsMerge() && cur <= |merged|
      && (current == None <==> cur == |merged|)
      && (current.Some? ==>
            && current.value < |children| && children[current.value].AtEntry()
            && Current() == merged[cur]
            && (direction == Forward ==> AllFront(cur))
            && (direction == Reverse ==> AllBackBut(current.value, cur)))
    }

    function Current(): Entry
      requires current.Some? && current.value < |children| && children[current.value].AtEntry()
      reads this`current, children
    {
      children[current.value].list[children[current.value].pos]
    }

    constructor (children: seq<RunCursor>, ghost merged: Run)
      ensures this.children == children && this.merged == merged && current == None
    {
      this.children, this.merged := children, merged;
      current, direction := None, Forward;
    }

    method FindSmallest()
      modifies this`current
      ensures Chosen(true)
    {
      current := None;
      var i := 0;
      while i < |children|
        invariant i <= |children|
        invariant current == None ==> forall k :: 0 <= k < i ==> !children[k].AtEntry()
        invariant current.Some? ==> current.value < |children| && children[current.value].AtEntry()
        invariant current.Some? ==> forall k :: 0 <= k < i && children[k].AtEntry() ==>
          !Before(children[k].list[children[k].pos], Current())
      {
        if children[i].AtEntry() {
          if current == None || Before(children[i].list[children[i].pos], Current()) {
            current := Some(i);
          }
        }
        i := i + 1;
      }
    }

    method FindLargest()
      modifies this`current
      ensures Chosen(false)
    {
      current := None;
      var i := |children|;
      while i > 0
        invariant 0 <= i <= |children|
        invariant current == None ==> forall k :: i <= k < |children| ==> !children[k].AtEntry()
        invariant current.Some? ==> current.value < |children| && children[current.value].AtEntry()
        invariant current.Some? ==> forall k :: i <= k < |children| && children[k].AtEntry() ==>
          !Before(Current(), children[k].list[children[k].pos])
      {
        i := i - 1;
        if children[i].AtEntry() {
          if current == None || Before(Current(), children[i].list[children[i].pos]) {
            current := Some(i);
          }
        }
      }
    }

    // The child that holds an entry.
    lemma Owner(e: Entry) returns (i: nat, j: nat)
      requires IsMerge() && e in merged
      ensures i < |children| && j < |children[i].list| && children[i].list[j] == e && PartOf(children[i].list, merged)
    {
      i :| 0 <= i < |children| && e in children[i].list;
      j :| 0 <= j < |children[i].list| && children[i].list[j] == e;
    }

    lemma FrontOwner(m: nat) returns (i: nat)
      requires IsMerge() && AllFront(m) && m < |merged|
      ensures i < |children| && children[i].AtEntry() && children[i].list[children[i].pos] == merged[m]
    {
      var j;
      i, j := Owner(merged[m]);
      var list, pos := children[i].list, children[i].pos;
      RankOf(merged, m);
      assert Below(list, merged, pos, m);
      if pos < j { RanksIncrease(list, merged, pos, j); }
    }

    lemma BackOwner(m: nat) returns (i: nat)
      requires IsMerge() && AllBack(m + 1) && m < |merged|
      ensures i < |children| && children[i].AtEntry() && children[i].list[children[i].pos] == merged[m]
    {
      var j;
      i, j := Owner(merged[m]);
      var list, pos, above := children[i].list, children[i].pos, m + 1;
      RankOf(merged, m);
      assert BackAt(list, merged, pos, above);
      if j < pos < |list| { RanksIncrease(list, merged, j, pos); }
    }

    // With every child at its first entry of rank m or more, the smallest of
    // them is the entry of rank m.
    lemma SmallestHasRank(m: nat)
      requires IsMerge() && AllFront(m) && m <= |merged| && Chosen(true)
      ensures current == None <==> m == |merged|
      ensures current.Some? ==> Current() == merged[m]
    {
      if current.Some? {
        var list, pos := children[current.value].list, children[current.value].pos;
        assert PartOf(list, merged) && Below(list, merged, pos, m);
        RankFinds(merged, list[pos]);
      }
      if m < |merged| {
        var i := FrontOwner(m);
        RankOf(merged, m);
        RankIsOrder(merged, merged[m], Current());
      }
    }

    // With every child at its last entry of rank m or less, the largest of
    // them is the entry of rank m.
    lemma LargestHasRank(m: nat)
      requires IsMerge() && m < |merged| && AllBack(m + 1) && Chosen(false)
      ensures current.Some? && Current() == merged[m]
    {
      var i := BackOwner(m);
      var above := m + 1;
      var list, pos := children[current.value].list, children[current.value].pos;
      assert PartOf(list, merged) && BackAt(list, merged, pos, above);
      RankFinds(merged, list[pos]);
      RankOf(merged, m);
      RankIsOrder(merged, Current(), merged[m]);
    }

    // No entry ranks below 0.
    lemma NothingBelow()
      requires IsMerge() && AllBack(0)
      ensures forall i :: 0 <= i < |children| ==> !children[i].AtEntry()
    {
      forall i | 0 <= i < |children| ensures !children[i].AtEntry() {
        assert BackAt(children[i].list, merged, children[i].pos, 0);
        BelowZero(children[i].list, merged, CountOf(children[i].pos, |children[i].list|));
      }
    }

    lemma StandsFront(m: nat)
      requires IsMerge() && m <= |merged| && AllFront(m) && Chosen(true) && direction == Forward
      ensures At(m)
    {
      SmallestHasRank(m);
    }

    method SeekToFirst()
      requires IsMerge()
      modifies this, children
      ensures At(0) && direction == Forward
    {
      hide IsMerge, Chosen, At;
      DistinctChildren();
      var i := 0;
      while i < |children|
        invariant i <= |children| && forall k :: 0 <= k < i ==> children[k].pos == 0
      {
        children[i].SeekToFirst();
        i := i + 1;
      }
      assert AllFront(0);
      FindSmallest();
      direction := Forward;
      StandsFront(0);
    }

    lemma DistinctChildren()
      requires IsMerge()
      ensures forall i, j :: 0 <= i < j < |children| ==> children[i] != children[j]
    {
    }

    lemma SoughtIsFront(k: UserKey, s: nat)
      requires IsMerge() && forall c :: 0 <= c < |children| ==> children[c].pos == SeekIndex(children[c].list, k, s)
      ensures AllFront(SeekIndex(merged, k, s))
    {
      forall c | 0 <= c < |children| ensures Below(children[c].list, merged, children[c].pos, SeekIndex(merged, k, s)) {
        SeekIsBelow(children[c].list, merged, k, s);
      }
    }

    method Seek(k: UserKey, s: nat)
      requires IsMerge()
      modifies this, children
      ensures At(SeekIndex(merged, k, s)) && direction == Forward
    {
      hide IsMerge, Chosen, At, AllFront, SeekIndex;
      DistinctChildren();
      var i := 0;
      while i < |children|
        invariant i <= |children| && forall c :: 0 <= c < i ==> children[c].pos == SeekIndex(children[c].list, k, s)
      {
        children[i].Seek(k, s);
        i := i + 1;
      }
      SoughtIsFront(k, s);
      FindSmallest();
      direction := Forward;
      StandsFront(SeekIndex(merged, k, s));
    }

    lemma LastIsBack()
      requires IsMerge()
      requires forall k :: 0 <= k < |children| ==> children[k].Ok() && CountOf(children[k].pos, |children[k].list|) == |children[k].list|
      ensures AllBack(|merged|)
    {
      forall k | 0 <= k < |children| ensures BackAt(children[k].list, merged, children[k].pos, |merged|) {
        forall j | 0 <= j < |children[k].list| ensures Rank(merged, children[k].list[j]) < |merged| {
          RankFinds(merged, children[k].list[j]);
        }
      }
    }

    method SeekToLast()
      requires IsMerge()
      modifies this, children
      ensures At(if |merged| == 0 then |merged| else |merged| - 1) && direction == Reverse
    {
      hide IsMerge, Chosen, At, AllBack;
      DistinctChildren();
      var i := 0;
      while i < |children|
        invariant i <= |children|
        invariant forall k :: 0 <= k < i ==> children[k].Ok() && CountOf(children[k].pos, |children[k].list|) == |children[k].list|
      {
        children[i].SeekToLast();
        i := i + 1;
      }
      LastIsBack();
      FindLargest();
      direction := Reverse;
      StandsBack(|merged|);
    }

    // After FindLargest over children that stand below rank m.
    lemma StandsBack(m: nat)
      requires IsMerge() && m <= |merged| && AllBack(m) && Chosen(false) && direction == Reverse
      ensures At(if m == 0 then |merged| else m - 1)
    {
      hide IsMerge, Below, BackAt, AllBack, AllBackBut, AllFront;
      if m == 0 {
        NothingBelow();
      } else {
        LargestHasRank(m - 1);
        BackBelowCurrent(m - 1);
      }
    }

    // The largest entry found, the other children already stand below it.
    lemma BackBelowCurrent(m: nat)
      requires IsMerge() && m < |merged| && AllBack(m + 1)
      requires current.Some? && current.value < |children| && children[current.value].AtEntry() && Current() == merged[m]
      ensures AllBackBut(current.value, m)
    {
      var above := m + 1;
      forall i | 0 <= i < |children| && i != current.value ensures BackAt(children[i].list, merged, children[i].pos, m) {
        assert BackAt(children[i].list, merged, children[i].pos, above);
        OnlyInCurrent(i);
        BelowOther(children[i].list, merged, CountOf(children[i].pos, |children[i].list|), m);
      }
    }

    lemma OnlyInCurrent(i: nat)
      requires IsMerge() && i < |children|
      requires current.Some? && current.value < |children| && i != current.value && children[current.value].AtEntry()
      ensures Current() !in children[i].list
    {
      assert Current() in children[current.value].list;
    }

    // ------------------------------------------------------------ stepping

    lemma CurrentIsAt(cur: nat)
      requires At(cur) && current.Some?
      ensures var c := children[current.value];
        && Below(c.list, merged, c.pos, cur) && Below(c.list, merged, c.pos + 1, cur + 1)
    {
      var c := children[current.value];
      assert PartOf(c.list, merged);
      RankOf(merged, cur);
      BelowNext(c.list, merged, c.pos, cur);
    }

    lemma OthersMoveOn(cur: nat)
      requires At(cur) && current.Some?
      ensures forall i, n :: 0 <= i < |children| && i != current.value ==>
        (Below(children[i].list, merged, n, cur) <==> Below(children[i].list, merged, n, cur + 1))
    {
      forall i, n | 0 <= i < |children| && i != current.value
        ensures Below(children[i].list, merged, n, cur) <==> Below(children[i].list, merged, n, cur + 1)
      {
        OnlyInCurrent(i);
        BelowOther(children[i].list, merged, n, cur);
      }
    }

    // One of the other children, sought to the current key.
    lemma SoughtToCurrent(cur: nat, i: nat, n: nat)
      requires IsMerge() && cur < |merged| && i < |children|
      requires n == SeekIndex(children[i].list, merged[cur].key, merged[cur].sn)
      ensures Below(children[i].list, merged, n, cur)
    {
      RankOf(merged, cur);
      SeekIsBelow(children[i].list, merged, merged[cur].key, merged[cur].sn);
    }

    lemma NotTheSameKey(c: nat, i: nat, e: Entry)
      requires IsMerge() && i < |children| && c < |children| && i != c && children[i].AtEntry() && e in children[c].list
      ensures var x := children[i].list[children[i].pos]; !(x.key == e.key && x.sn == e.sn)
    {
      var x := children[i].list[children[i].pos];
      assert PartOf(children[i].list, merged) && PartOf(children[c].list, merged);
      RankFinds(merged, x);
      RankFinds(merged, e);
      assert x in children[i].list;
    }

    // Changing to forward: the other children go to just after the current key.
    method TurnForward(ghost cur: nat)
      requires At(cur) && current.Some? && direction == Reverse
      modifies this`direction, children
      ensures direction == Forward && At(cur)
    {
      hide SeekIndex;
      var e, c := Current(), current.value;
      CurrentIsAt(cur);
      var i := 0;
      while i < |children|
        invariant i <= |children| && children[c].pos == old(children[c].pos)
        invariant forall k :: 0 <= k < i && k != c ==> Below(children[k].list, merged, children[k].pos, cur)
      {
        if i != c {
          children[i].Seek(e.key, e.sn);
          SoughtToCurrent(cur, i, children[i].pos);
          if children[i].AtEntry() { NotTheSameKey(c, i, e); }
          if children[i].AtEntry() && children[i].list[children[i].pos].key == e.key && children[i].list[children[i].pos].sn == e.sn {
            assert false;   // no other child holds the current key
          }
        }
        i := i + 1;
      }
      direction := Forward;
    }

    // Changing to reverse: the other children go to just before it.
    method TurnBack(ghost cur: nat)
      requires At(cur) && current.Some? && direction == Forward
      modifies this`direction, children
      ensures direction == Reverse && At(cur)
    {
      hide BackAt, Below;
      var e, c := Current(), current.value;
      RankOf(merged, cur);
      var i := 0;
      while i < |children|
        invariant i <= |children| && children[c].pos == old(children[c].pos)
        invariant forall k :: 0 <= k < i && k != c ==> BackAt(children[k].list, merged, children[k].pos, cur)
      {
        if i != c { SeekBefore(children[i], e, merged); }
        i := i + 1;
      }
      direction := Reverse;
    }

    method Next(ghost cur: nat)
      requires At(cur) && current.Some?
      modifies this, children
      ensures At(cur + 1) && direction == Forward
    {
      hide IsMerge, Chosen, Below, BackAt, AllBack, AllBackBut;
      if direction != Forward { TurnForward(cur); }
      DistinctChildren();
      ghost var m := cur + 1;
      CurrentIsAt(cur);
      OthersMoveOn(cur);
      children[current.value].Next();
      assert AllFront(m);
      FindSmallest();
      StandsFront(m);
    }

    method Prev(ghost cur: nat)
      requires At(cur) && current.Some?
      modifies this, children
      ensures At(if cur == 0 then |merged| else cur - 1) && direction == Reverse
    {
      if direction != Reverse { TurnBack(cur); }
      CurrentIsAt(cur);
      ghost var c, p := current.value, children[current.value].pos;
      children[current.value].Prev();
      assert CountOf(children[c].pos, |children[c].list|) == p;
      assert AllBack(cur);
      FindLargest();
      StandsBack(cur);
    }
  }
}
