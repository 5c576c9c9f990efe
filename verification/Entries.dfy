// The vocabulary shared by memtables, table files and the write history:
// entries (user key, sequence number, operation), their internal order, and
// what a read at a sequence number means.

module Wrappers {
  datatype Option<+T> = None | Some(value: T)
}

module Entries {
  import opened Wrappers

  // User keys are ordered by an arbitrary comparator. Every total order on the
  // (countable) set of byte strings embeds in the reals; module Comparator
  // proves the embedding for the default bytewise order.
  type UserKey = real
  type Value = string

  datatype Op = Deletion | Put(value: Value)

  // Sequence numbers leave eight of sixty-four bits for the operation tag.
  const MAX_SEQUENCE_NUMBER := 0xFF_FFFF_FFFF_FFFF
  type SeqNo = n: nat | n <= MAX_SEQUENCE_NUMBER

  datatype Entry = Entry(key: UserKey, sn: SeqNo, op: Op)

  type Run = seq<Entry>

  // Increasing user key, then decreasing sequence number.
  predicate Before(a: Entry, b: Entry) {
    a.key < b.key || (a.key == b.key && a.sn > b.sn)
  }

  ghost predicate Sorted(r: Run) {
    forall i, j :: 0 <= i < j < |r| ==> Before(r[i], r[j])
  }

  // The entry is not ahead of the position (k, s) that a lookup seeks to.
  predicate AtOrAfter(e: Entry, k: UserKey, s: nat) {
    e.key > k || (e.key == k && e.sn <= s)
  }

  function ToSet(r: Run): set<Entry> {
    set e | e in r
  }

  lemma NoEntries(r: Run)
    ensures ToSet(r) == {} <==> r == []
  {
    if r != [] { assert r[0] in ToSet(r); }
  }

  // ---------------------------------------------------------------- meaning

  ghost predicate IsNewest(es: set<Entry>, k: UserKey, s: nat, e: Entry) {
    && e in es && e.key == k && e.sn <= s
    && forall x :: x in es && x.key == k && x.sn <= s ==> x.sn <= e.sn
  }

  ghost predicate Absent(es: set<Entry>, k: UserKey, s: nat) {
    forall x :: x in es && x.key == k ==> s < x.sn
  }

  // No two entries of one user key carry the same sequence number.
  ghost predicate UniqueNumbers(es: set<Entry>) {
    forall x, y :: x in es && y in es && x.key == y.key && x.sn == y.sn ==> x == y
  }

  function ResultOf(op: Op): Option<Value> {
    match op case Deletion => None case Put(v) => Some(v)
  }

  // The value a read of key k at sequence number s must return: the operation
  // of the newest entry numbered at most s, where a deletion reads as absence.
  ghost predicate Answer(es: set<Entry>, k: UserKey, s: nat, r: Option<Value>) {
    || (Absent(es, k, s) && r == None)
    || exists e :: IsNewest(es, k, s, e) && r == ResultOf(e.op)
  }

  // The plain history: operations in the order they were numbered.
  ghost predicate IsHistory(h: seq<Entry>) {
    forall i, j :: 0 <= i < j < |h| ==> h[i].sn < h[j].sn
  }

  // Reference semantics: scan the history backwards for the key.
  function Read(h: seq<Entry>, k: UserKey, s: nat): Option<Value> {
    if |h| == 0 then None
    else
      var e := h[|h| - 1];
      if e.key == k && e.sn <= s then ResultOf(e.op) else Read(h[..|h| - 1], k, s)
  }

  // The backwards scan is the newest visible entry.
  lemma {:induction false} ReadIsAnswer(h: seq<Entry>, k: UserKey, s: nat)
    requires IsHistory(h)
    ensures Answer(ToSet(h), k, s, Read(h, k, s))
  {
    if |h| > 0 {
      var e, front := h[|h| - 1], h[..|h| - 1];
      ReadIsAnswer(front, k, s);
      assert forall x :: x in h <==> x in front || x == e;
      if e.key == k && e.sn <= s {
        assert IsNewest(ToSet(h), k, s, e);
      } else if !Absent(ToSet(front), k, s) {
        var n :| IsNewest(ToSet(front), k, s, n) && Read(front, k, s) == ResultOf(n.op);
        assert IsNewest(ToSet(h), k, s, n);
      }
    }
  }

  lemma AnswerIsUnique(es: set<Entry>, k: UserKey, s: nat, r: Option<Value>, r': Option<Value>)
    requires UniqueNumbers(es)
    requires Answer(es, k, s, r) && Answer(es, k, s, r')
    ensures r == r'
  {
    if Absent(es, k, s) {
    } else {
      var e :| IsNewest(es, k, s, e) && r == ResultOf(e.op);
      var e' :| IsNewest(es, k, s, e') && r' == ResultOf(e'.op);
      assert e == e';
    }
  }

  lemma {:induction false} NewestOf(es: set<Entry>, k: UserKey, s: nat, x: Entry) returns (y: Entry)
    requires x in es && x.key == k && x.sn <= s
    ensures IsNewest(es, k, s, y)
    decreases s - x.sn
  {
    if IsNewest(es, k, s, x) {
      y := x;
    } else {
      var z :| z in es && z.key == k && z.sn <= s && z.sn > x.sn;
      y := NewestOf(es, k, s, z);
    }
  }

  // ------------------------------------------------------------- sorted runs

  // Where a seek to (k, s) lands in a sorted run.
  function SeekIndex(r: Run, k: UserKey, s: nat): (i: nat)
    ensures i <= |r|
    ensures forall j :: 0 <= j < i ==> !AtOrAfter(r[j], k, s)
    ensures i < |r| ==> AtOrAfter(r[i], k, s)
  {
    if |r| == 0 || AtOrAfter(r[0], k, s) then 0
    else
      var i := SeekIndex(r[1..], k, s);
      assert forall j :: 0 < j < |r| ==> r[j] == r[1..][j - 1];
      1 + i
  }

  // What a memtable or table file reports for the key: the operation of the
  // entry the seek lands on, if it has the right user key.
  function RunGet(r: Run, k: UserKey, s: nat): Option<Op> {
    var i := SeekIndex(r, k, s);
    if i < |r| && r[i].key == k then Some(r[i].op) else None
  }

  lemma RunGetIsNewest(r: Run, k: UserKey, s: nat)
    requires Sorted(r)
    ensures RunGet(r, k, s) == None <==> Absent(ToSet(r), k, s)
    ensures RunGet(r, k, s).Some? ==>
      exists e :: IsNewest(ToSet(r), k, s, e) && RunGet(r, k, s) == Some(e.op)
  {
    var i := SeekIndex(r, k, s);
    if i < |r| && r[i].key == k {
      assert IsNewest(ToSet(r), k, s, r[i]);
    } else {
      forall x | x in r && x.key == k ensures s < x.sn {
        var j :| 0 <= j < |r| && r[j] == x;
        assert i < j ==> Before(r[i], r[j]);
      }
    }
  }

  // Insertion at the sorted position (the memtable).
  function Insert(r: Run, e: Entry): Run {
    var i := SeekIndex(r, e.key, e.sn);
    r[..i] + [e] + r[i..]
  }

  lemma InsertKeepsSorted(r: Run, e: Entry)
    requires Sorted(r)
    requires forall x :: x in r ==> !(x.key == e.key && x.sn == e.sn)
    ensures Sorted(Insert(r, e))
    ensures ToSet(Insert(r, e)) == ToSet(r) + {e}
  {
    var i := SeekIndex(r, e.key, e.sn);
    var n := Insert(r, e);
    forall a, b | 0 <= a < b < |n| ensures Before(n[a], n[b]) {
      if b == i { assert n[a] == r[a]; }
      else if a == i { assert n[b] == r[b - 1]; assert r[i] in r; assert i == b - 1 || Before(r[i], r[b - 1]); }
    }
    forall x ensures x in n <==> x in r || x == e {
      if x in r {
        var j :| 0 <= j < |r| && r[j] == x;
        assert n[if j < i then j else j + 1] == x;
      }
      if x == e { assert n[i] == e; }
    }
  }
}
