// DBIter: a cursor over user keys on top of a cursor over internal entries.

module Cursors {
  import opened Entries

  // How many entries are below a cursor that moves backwards.
  function CountOf(pos: nat, size: nat): nat {
    if pos < size then pos + 1 else 0
  }

  // An iterator over a sorted run. The one position without an entry is the
  // end, from which only the seeks lead back.
  class RunCursor {
    const list: Run
    var pos: nat

    predicate Ok() reads this { pos <= |list| }
    predicate AtEntry() reads this { pos < |list| }

    constructor (list: Run)
      ensures this.list == list && pos == |list|
    {
      this.list := list;
      pos := |list|;
    }

    method SeekToFirst()
      modifies this
      ensures pos == 0
    {
      pos := 0;
    }

    method SeekToLast()
      modifies this
      ensures pos == if |list| == 0 then 0 else |list| - 1
    {
      pos := if |list| == 0 then 0 else |list| - 1;
    }

    method Seek(k: UserKey, s: nat)
      modifies this
      ensures pos == SeekIndex(list, k, s)
    {
      pos := SeekIndex(list, k, s);
    }

    method Next()
      requires AtEntry()
      modifies this
      ensures pos == old(pos) + 1
    {
      pos := pos + 1;
    }

    method Prev()
      requires AtEntry()
      modifies this
      ensures pos == if old(pos) == 0 then |list| else old(pos) - 1
    {
      pos := if pos == 0 then |list| else pos - 1;
    }
  }
}

module DbIter {
  import opened Wrappers
  import opened Entries
  import opened Cursors

  // ------------------------------------------------------- what it shows

  // The entry is the newest one of its user key at sequence number s, and it
  // is not a deletion.
  ghost predicate IsShown(es: Run, s: nat, p: nat) {
    && p < |es| && es[p].sn <= s && es[p].op.Put?
    && forall q :: 0 <= q < p && es[q].key == es[p].key ==> es[q].sn > s
  }

  // The first shown position from a given one on, or the end.
  ghost predicate IsNextShown(es: Run, s: nat, from: nat, r: nat) {
    && from <= r <= |es| && (r < |es| ==> IsShown(es, s, r))
    && forall q :: from <= q < r ==> !IsShown(es, s, q)
  }

  // The last shown position before a given one, or the end if there is none.
  ghost predicate IsPrevShown(es: Run, s: nat, before: nat, r: nat) {
    && (r == |es| ==> forall q :: 0 <= q < before ==> !IsShown(es, s, q))
    && (r != |es| ==> r < before && IsShown(es, s, r) && forall q :: r < q < before ==> !IsShown(es, s, q))
  }

  // ------------------------------------------- the ordered map it iterates

  datatype Pair = Pair(key: UserKey, value: Value)

  ghost function ViewUpTo(es: Run, s: nat, n: nat): seq<Pair>
    requires n <= |es|
  {
    if n == 0 then []
    else ViewUpTo(es, s, n - 1) + (if IsShown(es, s, n - 1) then [Pair(es[n - 1].key, es[n - 1].op.value)] else [])
  }

  // The key-value pairs visible at s, in key order.
  ghost function View(es: Run, s: nat): seq<Pair> {
    ViewUpTo(es, s, |es|)
  }

  lemma {:induction false} ViewExtends(es: Run, s: nat, m: nat, n: nat)
    requires m <= n <= |es|
    ensures |ViewUpTo(es, s, m)| <= |ViewUpTo(es, s, n)|
    ensures ViewUpTo(es, s, n)[..|ViewUpTo(es, s, m)|] == ViewUpTo(es, s, m)
    ensures (forall q :: m <= q < n ==> !IsShown(es, s, q)) ==> ViewUpTo(es, s, n) == ViewUpTo(es, s, m)
  {
    if m < n { ViewExtends(es, s, m, n - 1); }
  }

  // A shown position is where the view has its pair; the next and the previous
  // shown positions are the neighbours in the view.
  lemma CursorIsIndex(es: Run, s: nat, p: nat, r: nat)
    requires p < |es| && IsShown(es, s, p) && r <= |es|
    ensures var i := |ViewUpTo(es, s, p)|;
      && i < |View(es, s)| && View(es, s)[i] == Pair(es[p].key, es[p].op.value)
      && (IsNextShown(es, s, p + 1, r) ==> |ViewUpTo(es, s, r)| == i + 1)
      && (IsPrevShown(es, s, p, r) ==> if r == |es| then i == 0 else |ViewUpTo(es, s, r)| == i - 1)
  {
    var next := p + 1;
    ViewExtends(es, s, next, |es|);
    if IsNextShown(es, s, next, r) { ViewExtends(es, s, next, r); }
    if IsPrevShown(es, s, p, r) {
      if r == |es| {
        ViewExtends(es, s, 0, p);
      } else {
        var after := r + 1;
        ViewExtends(es, s, after, p);
      }
    }
  }

  lemma {:induction false} ViewMembers(es: Run, s: nat, n: nat, x: Pair)
    requires n <= |es|
    ensures x in ViewUpTo(es, s, n) <==> exists p :: 0 <= p < n && IsShown(es, s, p) && x == Pair(es[p].key, es[p].op.value)
  {
    if n > 0 { ViewMembers(es, s, n - 1, x); }
  }

  // The view holds exactly the answers of reads at s.
  lemma ViewIsAnswers(es: Run, s: nat, k: UserKey, v: Value)
    requires Sorted(es)
    ensures Pair(k, v) in View(es, s) <==> Answer(ToSet(es), k, s, Some(v))
  {
    ViewMembers(es, s, |es|, Pair(k, v));
    if Pair(k, v) in View(es, s) {
      var p :| 0 <= p < |es| && IsShown(es, s, p) && Pair(k, v) == Pair(es[p].key, es[p].op.value);
      ShownIsNewest(es, s, p);
    }
    if Answer(ToSet(es), k, s, Some(v)) {
      var e :| IsNewest(ToSet(es), k, s, e) && Some(v) == ResultOf(e.op);
      var p :| 0 <= p < |es| && es[p] == e;
      forall q | 0 <= q < p && es[q].key == es[p].key ensures es[q].sn > s {
        assert Before(es[q], es[p]) && es[q] in ToSet(es);
      }
      assert IsShown(es, s, p);
    }
  }

  lemma ShownIsNewest(es: Run, s: nat, p: nat)
    requires Sorted(es) && IsShown(es, s, p)
    ensures IsNewest(ToSet(es), es[p].key, s, es[p])
  {
    forall x | x in ToSet(es) && x.key == es[p].key && x.sn <= s ensures x.sn <= es[p].sn {
      var q :| 0 <= q < |es| && es[q] == x;
      assert p < q ==> Before(es[p], es[q]);
    }
  }

  // Keys of the view increase strictly.
  lemma {:induction false} ViewIsOrdered(es: Run, s: nat, n: nat)
    requires Sorted(es) && n <= |es|
    ensures forall i, j :: 0 <= i < j < |ViewUpTo(es, s, n)| ==> ViewUpTo(es, s, n)[i].key < ViewUpTo(es, s, n)[j].key
  {
    if n > 0 {
      ViewIsOrdered(es, s, n - 1);
      var front := ViewUpTo(es, s, n - 1);
      if IsShown(es, s, n - 1) {
        forall i | 0 <= i < |front| ensures front[i].key < es[n - 1].key {
          ViewMembers(es, s, n - 1, front[i]);
          var p :| 0 <= p < n - 1 && IsShown(es, s, p) && front[i] == Pair(es[p].key, es[p].op.value);
          assert Before(es[p], es[n - 1]);
        }
      }
    }
  }

  // ------------------------------------------------------ scanning forward

  // What the forward scan knows at position p: what is to be skipped and what
  // may be accepted, looking for shown positions from `from` on.
  ghost predicate Scanning(es: Run, s: nat, p: nat, skipping: bool, skip: UserKey, from: nat) {
    && p <= |es|
    && (forall q :: from <= q < p ==> !IsShown(es, s, q))
    && (skipping ==> forall q :: p <= q < |es| && from <= q && es[q].key <= skip ==> !IsShown(es, s, q))
    && (forall a, q :: 0 <= a < p <= q < |es| && es[a].key == es[q].key && es[a].sn <= s ==> skipping && es[q].key <= skip)
    && (forall q :: p <= q < from && q < |es| && es[q].sn <= s ==> skipping && es[q].key <= skip && es[q].op.Put?)
  }

  // An entry that is too new or hidden changes nothing.
  lemma ScanPast(es: Run, s: nat, p: nat, skipping: bool, skip: UserKey, from: nat)
    requires Sorted(es) && Scanning(es, s, p, skipping, skip, from) && p < |es|
    requires es[p].sn > s || (skipping && es[p].key <= skip)
    ensures Scanning(es, s, p + 1, skipping, skip, from)
  {
    var next := p + 1;
    assert from <= p ==> !IsShown(es, s, p);
    forall a, q | 0 <= a < next <= q < |es| && es[a].key == es[q].key && es[a].sn <= s
      ensures skipping && es[q].key <= skip
    {
    }
  }

  // A deletion hides what follows for its key.
  lemma ScanDeletion(es: Run, s: nat, p: nat, skipping: bool, skip: UserKey, from: nat)
    requires Sorted(es) && Scanning(es, s, p, skipping, skip, from) && p < |es|
    requires es[p].sn <= s && es[p].op.Deletion?
    ensures Scanning(es, s, p + 1, true, es[p].key, from)
  {
    var next := p + 1;
    assert !IsShown(es, s, p);
    forall q | next <= q < |es| && es[q].key <= es[p].key ensures !IsShown(es, s, q) {
      assert Before(es[p], es[q]);
    }
    forall a, q | 0 <= a < next <= q < |es| && es[a].key == es[q].key && es[a].sn <= s ensures es[q].key <= es[p].key {
      assert a < p ==> Before(es[a], es[p]) && Before(es[p], es[q]);
    }
    assert from <= p;
  }

  lemma ScanAccepts(es: Run, s: nat, p: nat, skipping: bool, skip: UserKey, from: nat)
    requires Sorted(es) && Scanning(es, s, p, skipping, skip, from) && p < |es|
    requires es[p].sn <= s && es[p].op.Put? && !(skipping && es[p].key <= skip)
    ensures from <= p && IsShown(es, s, p)
  {
  }

  lemma ScanStops(es: Run, s: nat, p: nat, skipping: bool, skip: UserKey, from: nat)
    requires Scanning(es, s, p, skipping, skip, from) && from <= |es|
    ensures forall q :: from <= q < p ==> !IsShown(es, s, q)
  {
  }

  // ------------------------------------------------------------ the iterator

  datatype Direction = Forward | Reverse

  class DBIter {
    const iter: RunCursor
    const sequence: nat
    var savedKey: UserKey        // current key while moving in reverse
    var savedValue: Value
    var direction: Direction
    var valid: bool

    // Where the internal cursor would move to, going forward.
    ghost function Start(): nat reads this, iter {
      if direction == Forward then iter.pos else if iter.pos < |iter.list| then iter.pos + 1 else 0
    }

    // In reverse the cursor stands just before the current entry, apart from
    // entries too new to be visible.
    ghost predicate Holds(cur: nat) reads this, iter {
      && IsShown(iter.list, sequence, cur)
      && (direction == Forward ==> iter.pos == cur)
      && (direction == Reverse ==>
            && savedKey == iter.list[cur].key && savedValue == iter.list[cur].op.value
            && Start() <= cur && forall q :: Start() <= q < cur ==> iter.list[q].sn > sequence)
    }

    // The position of the entry shown now, or the end.
    ghost predicate Shows(cur: nat) reads this, iter {
      && Sorted(iter.list) && iter.Ok()
      && (valid ==> Holds(cur))
      && (!valid ==> cur == |iter.list|)
    }

    constructor (iter: RunCursor, sequence: nat)
      requires Sorted(iter.list) && iter.Ok()
      ensures this.iter == iter && this.sequence == sequence && Shows(|iter.list|)
    {
      this.iter, this.sequence := iter, sequence;
      savedKey, savedValue, direction, valid := 0.0, "", Forward, false;
    }

    function Key(): UserKey
      requires iter.AtEntry() || direction == Reverse
      reads this, iter
    {
      if direction == Forward then iter.list[iter.pos].key else savedKey
    }

    function CurrentValue(): Value
      requires direction == Reverse || (iter.AtEntry() && iter.list[iter.pos].op.Put?)
      reads this, iter
    {
      if direction == Forward then iter.list[iter.pos].op.value else savedValue
    }

    lemma ShowsPair(cur: nat)
      requires valid && Shows(cur)
      ensures cur < |iter.list| && (direction == Forward ==> iter.AtEntry() && iter.list[iter.pos].op.Put?)
      ensures Key() == iter.list[cur].key && CurrentValue() == iter.list[cur].op.value
    {
    }

    // Skips what is hidden and stops at the next entry to show.
    method FindNextUserEntry(skip0: bool, ghost from: nat)
      requires Sorted(iter.list) && iter.AtEntry() && direction == Forward && from <= |iter.list|
      requires Scanning(iter.list, sequence, iter.pos, skip0, savedKey, from)
      modifies this, iter
      ensures direction == Forward && iter.Ok() && Shows(if valid then iter.pos else |iter.list|)
      ensures IsNextShown(iter.list, sequence, from, if valid then iter.pos else |iter.list|)
    {
      hide Scanning, Sorted, IsShown;
      var skipping, skip := skip0, savedKey;
      while iter.AtEntry()
        invariant direction == Forward && iter.Ok()
        invariant Scanning(iter.list, sequence, iter.pos, skipping, skip, from)
        decreases |iter.list| - iter.pos
      {
        var e := iter.list[iter.pos];
        if e.sn <= sequence && e.op.Deletion? {
          ScanDeletion(iter.list, sequence, iter.pos, skipping, skip, from);
          skip, skipping := e.key, true;
        } else if e.sn <= sequence && !(skipping && e.key <= skip) {
          ScanAccepts(iter.list, sequence, iter.pos, skipping, skip, from);
          ScanStops(iter.list, sequence, iter.pos, skipping, skip, from);
          valid := true;
          savedKey := 0.0;
          return;
        } else {
          ScanPast(iter.list, sequence, iter.pos, skipping, skip, from);
        }
        iter.Next();
      }
      ScanStops(iter.list, sequence, iter.pos, skipping, skip, from);
      savedKey := 0.0;
      valid := false;
    }

    method SeekToFirst() returns (ghost cur: nat)
      requires Sorted(iter.list) && iter.Ok()
      modifies this, iter
      ensures Shows(cur) && direction == Forward && IsNextShown(iter.list, sequence, 0, cur)
    {
      direction := Forward;
      savedValue := "";
      iter.SeekToFirst();
      if iter.AtEntry() {
        FindNextUserEntry(false, 0);
      } else {
        valid := false;
      }
      cur := if valid then iter.pos else |iter.list|;
    }

    // The first user key at or after the target.
    method Seek(target: UserKey) returns (ghost cur: nat)
      requires Sorted(iter.list) && iter.Ok()
      modifies this, iter
      ensures Shows(cur) && direction == Forward
      ensures cur <= |iter.list| && (cur < |iter.list| ==> IsShown(iter.list, sequence, cur) && iter.list[cur].key >= target)
      ensures forall q :: 0 <= q < cur && IsShown(iter.list, sequence, q) ==> iter.list[q].key < target
    {
      direction := Forward;
      savedValue := "";
      savedKey := target;
      iter.Seek(target, sequence);
      ghost var from := iter.pos;
      SeekSkipsSmaller(iter.list, sequence, target);
      if iter.AtEntry() {
        FindNextUserEntry(false, from);
      } else {
        valid := false;
      }
      cur := if valid then iter.pos else |iter.list|;
    }

    method Next(ghost cur: nat) returns (ghost next: nat)
      requires valid && Shows(cur)
      modifies this, iter
      ensures Shows(next) && direction == Forward && IsNextShown(iter.list, sequence, cur + 1, next)
    {
      hide IsShown, Sorted;
      ScanStarts(iter.list, sequence, Start(), cur);
      if direction == Reverse {
        direction := Forward;
        if !iter.AtEntry() {
          iter.SeekToFirst();
        } else {
          iter.Next();
        }
        ShownIsInside(iter.list, sequence, cur);
        if !iter.AtEntry() {
          assert false;   // the current entry lies ahead
        }
      } else {
        ShownIsInside(iter.list, sequence, cur);
        savedKey := iter.list[iter.pos].key;
      }
      FindNextUserEntry(true, cur + 1);
      next := if valid then iter.pos else |iter.list|;
    }

    method Prev(ghost cur: nat) returns (ghost prev: nat)
      requires valid && Shows(cur)
      modifies this, iter
      ensures Shows(prev) && IsPrevShown(iter.list, sequence, cur, prev)
    {
      ghost var c := cur;
      if direction == Forward {
        savedKey := iter.list[iter.pos].key;
        while true
          invariant iter.AtEntry() && iter.pos <= cur && valid && direction == Forward
          invariant savedKey == iter.list[cur].key
          invariant forall q :: iter.pos <= q < cur ==> !IsShown(iter.list, sequence, q)
          decreases iter.pos
        {
          iter.Prev();
          if !iter.AtEntry() {
            valid := false;
            savedKey := 0.0;
            savedValue := "";
            return |iter.list|;
          }
          if iter.list[iter.pos].key < savedKey { break; }
          assert Before(iter.list[iter.pos], iter.list[cur]);
          SameKeyIsHidden(iter.list, sequence, cur, iter.pos);
        }
        direction := Reverse;
        assert forall q :: iter.pos < q < cur ==> !IsShown(iter.list, sequence, q);
      } else {
        assert forall q :: Start() <= q < cur ==> !IsShown(iter.list, sequence, q);
      }
      prev := FindPrevUserEntry(cur);
    }

    method SeekToLast() returns (ghost cur: nat)
      requires Sorted(iter.list) && iter.Ok()
      modifies this, iter
      ensures Shows(cur) && IsPrevShown(iter.list, sequence, |iter.list|, cur)
    {
      direction := Reverse;
      savedValue := "";
      iter.SeekToLast();
      cur := FindPrevUserEntry(|iter.list|);
    }

    // Scans backwards to the last user key with a value before `before`.
    method FindPrevUserEntry(ghost before: nat) returns (ghost cur: nat)
      requires Sorted(iter.list) && iter.Ok() && direction == Reverse && before <= |iter.list|
      requires iter.AtEntry() ==> iter.pos < before && forall q :: iter.pos < q < before ==> !IsShown(iter.list, sequence, q)
      requires !iter.AtEntry() ==> forall q :: 0 <= q < before ==> !IsShown(iter.list, sequence, q)
      modifies this, iter
      ensures Shows(cur) && IsPrevShown(iter.list, sequence, before, cur)
    {
      hide IsShown, Sorted, ScanningBack;
      BackBegins(iter.list, sequence, Start(), before);
      var found := false;              // value_type is not a deletion
      cur := |iter.list|;
      while iter.AtEntry()
        invariant iter.Ok() && direction == Reverse && ScanningBack(iter.list, sequence, Start(), found, cur, before)
        invariant found ==> cur < |iter.list| && iter.list[cur].op.Put?
        invariant found ==> savedKey == iter.list[cur].key && savedValue == iter.list[cur].op.value
        decreases Start()
      {
        var e := iter.list[iter.pos];
        ghost var start := iter.pos + 1;
        if e.sn <= sequence {
          if found && e.key < savedKey {
            BackStops(iter.list, sequence, start, cur, before);
            break;
          }
          BackVisible(iter.list, sequence, start, found, cur, before);
          match e.op
          case Deletion =>
            found := false;
            savedKey, savedValue := 0.0, "";
          case Put(v) =>
            found := true;
            savedKey, savedValue := e.key, v;
            cur := iter.pos;
        } else {
          BackTooNew(iter.list, sequence, start, found, cur, before);
        }
        iter.Prev();
      }
      if Start() == 0 && found { BackStops(iter.list, sequence, 0, cur, before); }
      BackDone(iter.list, sequence, Start(), found, cur, before);
      if !found {
        valid := false;
        savedKey, savedValue := 0.0, "";
        direction := Forward;
        cur := |iter.list|;
      } else {
        valid := true;
      }
    }
  }

  lemma SeekSkipsSmaller(es: Run, s: nat, target: UserKey)
    requires Sorted(es)
    ensures var i := SeekIndex(es, target, s);
      && (forall q :: 0 <= q < i && IsShown(es, s, q) ==> es[q].key < target)
      && (forall q :: i <= q < |es| ==> es[q].key >= target)
      && Scanning(es, s, i, false, target, i)
  {
    var i := SeekIndex(es, target, s);
    forall q | i <= q < |es| ensures es[q].key >= target {
      assert i < q ==> Before(es[i], es[q]);
    }
    forall a, q | 0 <= a < i <= q < |es| && es[a].key == es[q].key ensures es[a].sn > s {
      assert !AtOrAfter(es[a], target, s);
    }
  }

  lemma ShownIsInside(es: Run, s: nat, p: nat)
    requires IsShown(es, s, p)
    ensures p < |es| && es[p].sn <= s && es[p].op.Put?
  {
  }

  // Skipping the current user key from where the cursor enters its entries.
  lemma ScanStarts(es: Run, s: nat, start: nat, cur: nat)
    requires Sorted(es) && IsShown(es, s, cur) && start <= cur && forall q :: start <= q < cur ==> es[q].sn > s
    ensures Scanning(es, s, start, true, es[cur].key, cur + 1)
  {
    forall q | cur < q < |es| && es[q].key <= es[cur].key ensures !IsShown(es, s, q) {
      assert Before(es[cur], es[q]);
    }
    forall a, q | 0 <= a < start <= q < |es| && es[a].key == es[q].key && es[a].sn <= s ensures es[q].key <= es[cur].key {
      assert a < cur ==> Before(es[a], es[cur]);
      assert cur < q ==> Before(es[cur], es[q]);
    }
  }

  lemma SameKeyIsHidden(es: Run, s: nat, cur: nat, q: nat)
    requires IsShown(es, s, cur) && q < cur && es[q].key == es[cur].key
    ensures !IsShown(es, s, q)
  {
  }

  // --------------------------------------------------- scanning backwards

  // All entries from start on have been seen. With a candidate, nothing after
  // it is shown and what lies between start and it is too new.
  ghost predicate ScanningBack(es: Run, s: nat, start: nat, found: bool, cur: nat, before: nat) {
    && start <= before <= |es|
    && (!found ==> forall q :: start <= q < before ==> !IsShown(es, s, q))
    && (found ==>
          && start <= cur < before && es[cur].sn <= s && es[cur].op.Put?
          && (forall q :: start <= q < cur ==> es[q].sn > s)
          && forall q :: cur < q < before ==> !IsShown(es, s, q))
  }

  lemma BackBegins(es: Run, s: nat, start: nat, before: nat)
    requires start <= before <= |es| && forall q :: start <= q < before ==> !IsShown(es, s, q)
    ensures ScanningBack(es, s, start, false, |es|, before)
  {
  }

  lemma BackTooNew(es: Run, s: nat, start: nat, found: bool, cur: nat, before: nat)
    requires ScanningBack(es, s, start, found, cur, before) && start > 0 && es[start - 1].sn > s
    ensures ScanningBack(es, s, start - 1, found, cur, before)
  {
    var p := start - 1;
    assert !IsShown(es, s, p);
  }

  // A visible entry replaces the candidate, which it hides if there is one.
  lemma BackVisible(es: Run, s: nat, start: nat, found: bool, cur: nat, before: nat)
    requires Sorted(es) && ScanningBack(es, s, start, found, cur, before) && start > 0 && es[start - 1].sn <= s
    requires found ==> es[start - 1].key >= es[cur].key
    ensures var p := start - 1;
      ScanningBack(es, s, p, es[p].op.Put?, if es[p].op.Put? then p else cur, before)
  {
    var p := start - 1;
    if found {
      assert Before(es[p], es[cur]);
      assert !IsShown(es, s, cur);
      forall q | start <= q < cur ensures !IsShown(es, s, q) {
      }
    }
    assert forall q :: start <= q < before ==> !IsShown(es, s, q);
    assert es[p].op.Deletion? ==> !IsShown(es, s, p);
  }

  // Nothing of the candidate's key can come before an entry of a smaller key,
  // nor before the first entry.
  lemma BackStops(es: Run, s: nat, start: nat, cur: nat, before: nat)
    requires Sorted(es) && ScanningBack(es, s, start, true, cur, before)
    requires start > 0 ==> es[start - 1].key < es[cur].key
    ensures IsShown(es, s, cur)
  {
    forall q | 0 <= q < start ensures es[q].key < es[cur].key {
      assert q < start - 1 ==> Before(es[q], es[start - 1]);
    }
  }

  lemma BackDone(es: Run, s: nat, start: nat, found: bool, cur: nat, before: nat)
    requires ScanningBack(es, s, start, found, cur, before)
    ensures found ==> start <= cur < before && forall q :: start <= q < cur ==> es[q].sn > s
    ensures found ==> forall q :: cur < q < before ==> !IsShown(es, s, q)
    ensures !found ==> forall q :: start <= q < before ==> !IsShown(es, s, q)
  {
  }
}
