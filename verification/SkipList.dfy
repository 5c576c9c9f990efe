// The skip list with one writer and readers between any two of its stores.
// Nodes are named by numbers; every link is one memory cell, stored and loaded
// atomically.

module SkipList {
  import opened Wrappers

  type Key = real
  type Ref = nat

  const MAX_HEIGHT := 12
  const HEAD: Ref := 0

  type Links = map<(Ref, nat), Option<Ref>>

  // -------------------------------------------------- what the links mean

  // Node n comes before a key. The head comes before everything.
  predicate ComesBefore(keys: map<Ref, Key>, n: Ref, k: Key) {
    n == HEAD || (n in keys && keys[n] < k)
  }

  // The link of n to the next node among those linked at its level.
  ghost predicate IsNext(keys: map<Ref, Key>, nodes: set<Ref>, n: Ref, r: Option<Ref>) {
    && (r.Some? ==> r.value in nodes && r.value in keys && ComesBefore(keys, n, keys[r.value]))
    && forall y :: y in nodes && y in keys && ComesBefore(keys, n, keys[y]) ==> r.Some? && keys[r.value] <= keys[y]
  }

  // One level: a sorted list of the nodes linked there. Every node in it has
  // its link of that level initialised.
  ghost predicate LevelOk(keys: map<Ref, Key>, next: Links, nodes: set<Ref>, l: nat) {
    && (forall n :: n in nodes ==> n != HEAD && n in keys)
    && forall n :: n in nodes || n == HEAD ==> (n, l) in next && IsNext(keys, nodes, n, next[(n, l)])
  }

  // Every level is a sub-list of the one below.
  ghost predicate Good(keys: map<Ref, Key>, next: Links, linked: seq<set<Ref>>, maxHeight: nat) {
    && |linked| == MAX_HEIGHT && 1 <= maxHeight <= MAX_HEIGHT
    && (forall l :: 0 <= l < MAX_HEIGHT ==> LevelOk(keys, next, linked[l], l))
    && (forall l :: 0 < l < MAX_HEIGHT ==> linked[l] <= linked[l - 1])
    && (forall l :: maxHeight <= l < MAX_HEIGHT ==> linked[l] == {})
    && (forall a, b :: a in linked[0] && b in linked[0] && keys[a] == keys[b] ==> a == b)
  }

  // The node after which a key belongs at a level.
  ghost predicate IsPrev(keys: map<Ref, Key>, nodes: set<Ref>, k: Key, p: Ref) {
    && (p == HEAD || p in nodes) && ComesBefore(keys, p, k)
    && forall y :: y in nodes && y in keys && keys[y] < k ==> p != HEAD && p in keys && keys[y] <= keys[p]
  }

  // The first node at or after a key.
  ghost predicate IsFirst(keys: map<Ref, Key>, nodes: set<Ref>, k: Key, r: Option<Ref>) {
    && (r.Some? ==> r.value in nodes && r.value in keys && keys[r.value] >= k)
    && forall y :: y in nodes && y in keys && keys[y] >= k ==> r.Some? && keys[r.value] <= keys[y]
  }

  // The last node, or the head of an empty list.
  ghost predicate IsLast(keys: map<Ref, Key>, nodes: set<Ref>, r: Ref) {
    && (r == HEAD || (r in nodes && r in keys))
    && forall y :: y in nodes && y in keys ==> r != HEAD && keys[y] <= keys[r]
  }

  // What the writer is about to store.
  datatype Writer =
    | Idle
    | Linking(x: Ref, height: nat, prev: seq<Ref>, level: nat, ready: bool)

  ghost predicate WriterOk(keys: map<Ref, Key>, next: Links, linked: seq<set<Ref>>, maxHeight: nat, w: Writer)
    requires |linked| == MAX_HEIGHT
  {
    w.Linking? ==>
      && w.level < w.height <= maxHeight <= MAX_HEIGHT && |w.prev| == MAX_HEIGHT
      && w.x != HEAD && w.x in keys
      && (forall l :: 0 <= l < MAX_HEIGHT ==> (w.x in linked[l] <==> l < w.level))
      && (forall a :: a in linked[0] && a in keys && keys[a] == keys[w.x] ==> a == w.x)
      && (forall l :: w.level <= l < w.height ==> IsPrev(keys, linked[l], keys[w.x], w.prev[l]))
      && (w.ready ==> (w.x, w.level) in next && (w.prev[w.level], w.level) in next
                      && next[(w.x, w.level)] == next[(w.prev[w.level], w.level)])
  }

  lemma LinkedBelow(keys: map<Ref, Key>, next: Links, linked: seq<set<Ref>>, maxHeight: nat, l: nat)
    requires Good(keys, next, linked, maxHeight) && l < MAX_HEIGHT
    ensures linked[l] <= linked[0]
  {
    if l > 0 { LinkedBelow(keys, next, linked, maxHeight, l - 1); }
  }

  // ------------------------------------------------- the writer's stores

  // The new node's own link, not reachable yet at this level.
  lemma InitKeepsGood(keys: map<Ref, Key>, next: Links, linked: seq<set<Ref>>, maxHeight: nat, w: Writer)
    requires Good(keys, next, linked, maxHeight) && WriterOk(keys, next, linked, maxHeight, w) && w.Linking? && !w.ready
    ensures (w.prev[w.level], w.level) in next
    ensures var next' := next[(w.x, w.level) := next[(w.prev[w.level], w.level)]];
      Good(keys, next', linked, maxHeight) && WriterOk(keys, next', linked, maxHeight, w.(ready := true))
  {
    var l := w.level;
    assert LevelOk(keys, next, linked[l], l) && IsPrev(keys, linked[l], keys[w.x], w.prev[l]);
    var next' := next[(w.x, l) := next[(w.prev[l], l)]];
    forall i | 0 <= i < MAX_HEIGHT ensures LevelOk(keys, next', linked[i], i) {
      assert LevelOk(keys, next, linked[i], i);
      assert w.x !in linked[l];
    }
  }

  // Publishing: the level's list gains the node at its place.
  lemma PublishLevel(keys: map<Ref, Key>, next: Links, nodes: set<Ref>, l: nat, x: Ref, p: Ref)
    requires LevelOk(keys, next, nodes, l) && x in keys && x != HEAD && x !in nodes
    requires forall a :: a in nodes && a in keys && keys[a] == keys[x] ==> a == x
    requires forall a, b :: a in nodes && b in nodes && keys[a] == keys[b] ==> a == b
    requires IsPrev(keys, nodes, keys[x], p) && (p, l) in next && (x, l) in next && next[(x, l)] == next[(p, l)]
    ensures LevelOk(keys, next[(p, l) := Some(x)], nodes + {x}, l)
  {
    var next', nodes' := next[(p, l) := Some(x)], nodes + {x};
    assert IsNext(keys, nodes, p, next[(p, l)]);
    forall n | n in nodes' || n == HEAD ensures (n, l) in next' && IsNext(keys, nodes', n, next'[(n, l)]) {
      if n == x {
        assert p != x;
      } else if n != p {
        assert IsNext(keys, nodes, n, next[(n, l)]);
        assert ComesBefore(keys, n, keys[x]) ==> p != HEAD && ComesBefore(keys, n, keys[p]);
      }
    }
  }

  lemma PublishKeepsGood(keys: map<Ref, Key>, next: Links, linked: seq<set<Ref>>, maxHeight: nat, w: Writer)
    requires Good(keys, next, linked, maxHeight) && WriterOk(keys, next, linked, maxHeight, w) && w.Linking? && w.ready
    ensures Good(keys, next[(w.prev[w.level], w.level) := Some(w.x)], linked[w.level := linked[w.level] + {w.x}], maxHeight)
  {
    hide IsNext, ComesBefore, IsPrev;
    var l := w.level;
    var next', linked' := next[(w.prev[l], l) := Some(w.x)], linked[l := linked[l] + {w.x}];
    LinkedBelow(keys, next, linked, maxHeight, l);
    PublishLevel(keys, next, linked[l], l, w.x, w.prev[l]);
    forall i | 0 <= i < MAX_HEIGHT ensures LevelOk(keys, next', linked'[i], i) {
      if i != l { OtherLevelStays(keys, next, linked[i], i, w.prev[l], l, Some(w.x)); }
    }
  }

  lemma OtherLevelStays(keys: map<Ref, Key>, next: Links, nodes: set<Ref>, i: nat, n: Ref, l: nat, r: Option<Ref>)
    requires LevelOk(keys, next, nodes, i) && i != l
    ensures LevelOk(keys, next[(n, l) := r], nodes, i)
  {
    hide IsNext;
  }

  lemma PublishKeepsWriter(keys: map<Ref, Key>, next: Links, linked: seq<set<Ref>>, maxHeight: nat, w: Writer)
    requires Good(keys, next, linked, maxHeight) && WriterOk(keys, next, linked, maxHeight, w) && w.Linking? && w.ready
    ensures WriterOk(keys, next[(w.prev[w.level], w.level) := Some(w.x)], linked[w.level := linked[w.level] + {w.x}], maxHeight,
                     if w.level + 1 < w.height then w.(level := w.level + 1, ready := false) else Idle)
  {
    hide LevelOk, IsPrev, ComesBefore;
  }

  lemma WriterInRange(keys: map<Ref, Key>, next: Links, linked: seq<set<Ref>>, maxHeight: nat, w: Writer)
    requires Good(keys, next, linked, maxHeight) && WriterOk(keys, next, linked, maxHeight, w) && w.Linking?
    ensures |linked| == MAX_HEIGHT && w.level < w.height <= MAX_HEIGHT && |w.prev| == MAX_HEIGHT
    ensures w.level + 1 == w.height ==> w.height == 1 || w.x in linked[0]
    ensures w.level > 0 ==> w.x in linked[0]
  {
  }

  // ------------------------------------------------------------- the list

  class SkipList {
    var keys: map<Ref, Key>
    var next: Links
    var maxHeight: nat
    var writer: Writer
    var arenaNodes: nat                 // nodes taken from the arena, the head included
    ghost var linked: seq<set<Ref>>    // nodes linked at each level

    ghost predicate Valid() reads this {
      && Good(keys, next, linked, maxHeight) && WriterOk(keys, next, linked, maxHeight, writer)
      && 0 < arenaNodes && forall r :: r in keys ==> 0 < r < arenaNodes
    }

    constructor ()
      ensures Valid() && linked[0] == {} && writer == Idle
    {
      keys, maxHeight, writer, arenaNodes := map[], 1, Idle, 1;
      next := map l: nat | l < MAX_HEIGHT :: (HEAD, l) := None;
      linked := seq(MAX_HEIGHT, _ => {});
    }

    // One store of the insertion under way.
    method Store()
      requires Valid() && writer.Linking?
      modifies this
      ensures Valid() && keys == old(keys) && maxHeight == old(maxHeight)
      ensures forall l :: 0 <= l < MAX_HEIGHT ==> old(linked)[l] <= linked[l] <= old(linked)[l] + {old(writer).x}
      ensures writer == Idle ==> linked[0] == old(linked)[0] + {old(writer).x}
      ensures writer.Linking? ==> writer.x == old(writer).x
      ensures Remaining() < old(Remaining())
    {
      hide Good, WriterOk;
      WriterInRange(keys, next, linked, maxHeight, writer);
      var w := writer;
      if !w.ready {
        InitKeepsGood(keys, next, linked, maxHeight, w);
        next := next[(w.x, w.level) := next[(w.prev[w.level], w.level)]];
        writer := w.(ready := true);
      } else {
        PublishKeepsGood(keys, next, linked, maxHeight, w);
        PublishKeepsWriter(keys, next, linked, maxHeight, w);
        next := next[(w.prev[w.level], w.level) := Some(w.x)];
        linked := linked[w.level := linked[w.level] + {w.x}];
        writer := if w.level + 1 < w.height then w.(level := w.level + 1, ready := false) else Idle;
      }
    }

    // Stores left in the insertion under way.
    ghost function Remaining(): nat reads this requires writer.Linking? ==> writer.level < writer.height {
      if writer == Idle then 0 else 2 * (writer.height - writer.level) - (if writer.ready then 1 else 0)
    }

    // Where the key belongs at every level. No store happens meanwhile: there
    // is one writer.
    method FindPrev(k: Key) returns (prev: seq<Ref>, found: Option<Ref>)
      requires Valid()
      ensures |prev| == MAX_HEIGHT && forall l :: 0 <= l < MAX_HEIGHT ==> IsPrev(keys, linked[l], k, prev[l])
      ensures IsFirst(keys, linked[0], k, found)
    {
      hide WriterOk;
      prev := seq(MAX_HEIGHT, _ => HEAD);
      var x, level := HEAD, maxHeight - 1;
      while true
        invariant 0 <= level < maxHeight && |prev| == MAX_HEIGHT
        invariant Reached(keys, linked[level], x, k)
        invariant forall l :: level < l < MAX_HEIGHT ==> IsPrev(keys, linked[l], k, prev[l])
        decreases level, |Ahead(keys, linked[level], x)|
      {
        LinkIsNext(level, x);
        var n := next[(x, level)];
        if n.Some? && keys[n.value] < k {
          AheadShrinks(keys, linked[level], x, n.value);
          x := n.value;
        } else {
          StopsAtPrev(keys, linked[level], x, k, n);
          prev := prev[level := x];
          if level == 0 {
            found := n;
            StopsAtFirst(keys, linked[0], x, k, n);
            return;
          }
          level := level - 1;
        }
      }
    }

    // Insert, up to its stores: find the place, raise the height, make a node.
    method StartInsert(k: Key, height: nat)
      requires Valid() && writer == Idle && 1 <= height <= MAX_HEIGHT
      requires forall a :: a in linked[0] && a in keys ==> keys[a] != k
      modifies this
      ensures Valid() && writer.Linking? && writer.x !in old(keys) && keys == old(keys)[writer.x := k]
      ensures linked == old(linked) && maxHeight >= old(maxHeight)
    {
      hide IsPrev, WriterOk;
      var prev, found := FindPrev(k);
      if height > maxHeight { maxHeight := height; }
      var x := arenaNodes;
      NewNodeKeepsGood(keys, next, linked, maxHeight, x, k);
      NewNodeIsReady(keys, next, linked, maxHeight, x, k, height, prev);
      arenaNodes := arenaNodes + 1;
      keys := keys[x := k];
      writer := Linking(x, height, prev, 0, false);
    }

    // The whole insertion with nobody else around.
    method Insert(k: Key, height: nat)
      requires Valid() && writer == Idle && 1 <= height <= MAX_HEIGHT
      requires forall a :: a in linked[0] && a in keys ==> keys[a] != k
      modifies this
      ensures Valid() && writer == Idle
      ensures exists x :: x !in old(keys) && keys == old(keys)[x := k] && linked[0] == old(linked)[0] + {x}
    {
      StartInsert(k, height);
      ghost var x := writer.x;
      while writer.Linking?
        invariant Valid() && keys == old(keys)[x := k] && (writer.Linking? ==> writer.x == x)
        invariant old(linked)[0] <= linked[0] <= old(linked)[0] + {x}
        invariant writer == Idle ==> linked[0] == old(linked)[0] + {x}
        decreases Remaining()
      {
        Store();
      }
    }

    // Anything the writer may do between two loads of a reader: one store, or
    // beginning another insertion.
    method WriterMoves()
      requires Valid()
      modifies this
      ensures Valid()
      ensures forall r :: r in old(keys) ==> r in keys && keys[r] == old(keys)[r]
      ensures forall l :: 0 <= l < MAX_HEIGHT ==> old(linked)[l] <= linked[l]
      ensures maxHeight >= old(maxHeight)
    {
      if writer.Linking? {
        Store();
      } else {
        var k: Key :| true;
        var height: nat :| 1 <= height <= MAX_HEIGHT;
        var prev, found := FindPrev(k);
        if !(found.Some? && keys[found.value] == k) {
          StartInsert(k, height);
        }
      }
    }

    // ------------------------------------------------- concurrent readers

    // A reader's search. Before every load the writer may make any number of
    // stores, `budget` in all. The result is the first node at or after the key
    // in the lowest list at the last load, so no key present at the start and
    // no key published before can be missed.
    method FindGreaterOrEqual(k: Key, budget: nat) returns (r: Option<Ref>)
      requires Valid()
      modifies this
      ensures Valid() && IsFirst(keys, linked[0], k, r)
      ensures forall x :: x in old(keys) ==> x in keys && keys[x] == old(keys)[x]
      ensures old(linked)[0] <= linked[0]
    {
      hide WriterOk, Good;
      var x, level, left := HEAD, maxHeight - 1, budget;
      LevelsAre();
      while true
        invariant Valid() && 0 <= level < maxHeight <= MAX_HEIGHT == |linked| && Reached(keys, linked[level], x, k)
        invariant forall y :: y in old(keys) ==> y in keys && keys[y] == old(keys)[y]
        invariant old(linked)[0] <= linked[0]
        decreases left, level, |Ahead(keys, linked[level], x)|
      {
        left := Interfere(left);
        LevelsAre();
        LinkIsNext(level, x);
        var n := next[(x, level)];
        if n.Some? && keys[n.value] < k {
          AheadShrinks(keys, linked[level], x, n.value);
          x := n.value;
        } else if level == 0 {
          StopsAtFirst(keys, linked[0], x, k, n);
          return n;
        } else {
          level := level - 1;
        }
      }
    }

    // The last node before a key, for stepping backwards.
    method FindLessThan(k: Key, budget: nat) returns (x: Ref)
      requires Valid()
      modifies this
      ensures Valid() && IsPrev(keys, linked[0], k, x)
      ensures forall y :: y in old(keys) ==> y in keys && keys[y] == old(keys)[y]
      ensures old(linked)[0] <= linked[0]
    {
      hide WriterOk, Good;
      var level, left := maxHeight - 1, budget;
      x := HEAD;
      LevelsAre();
      while true
        invariant Valid() && 0 <= level < maxHeight <= MAX_HEIGHT == |linked| && Reached(keys, linked[level], x, k)
        invariant forall y :: y in old(keys) ==> y in keys && keys[y] == old(keys)[y]
        invariant old(linked)[0] <= linked[0]
        decreases left, level, |Ahead(keys, linked[level], x)|
      {
        left := Interfere(left);
        LevelsAre();
        LinkIsNext(level, x);
        var n := next[(x, level)];
        if n == None || keys[n.value] >= k {
          if level == 0 {
            StopsAtPrev(keys, linked[0], x, k, n);
            return;
          }
          level := level - 1;
        } else {
          AheadShrinks(keys, linked[level], x, n.value);
          x := n.value;
        }
      }
    }

    method FindLast(budget: nat) returns (x: Ref)
      requires Valid()
      modifies this
      ensures Valid() && IsLast(keys, linked[0], x)
      ensures forall y :: y in old(keys) ==> y in keys && keys[y] == old(keys)[y]
      ensures old(linked)[0] <= linked[0]
    {
      hide WriterOk, Good;
      var level, left := maxHeight - 1, budget;
      x := HEAD;
      LevelsAre();
      while true
        invariant Valid() && 0 <= level < maxHeight <= MAX_HEIGHT == |linked| && (x == HEAD || (x in linked[level] && x in keys))
        invariant forall y :: y in old(keys) ==> y in keys && keys[y] == old(keys)[y]
        invariant old(linked)[0] <= linked[0]
        decreases left, level, |Ahead(keys, linked[level], x)|
      {
        left := Interfere(left);
        LevelsAre();
        LinkIsNext(level, x);
        var n := next[(x, level)];
        if n == None {
          if level == 0 { return; }
          level := level - 1;
        } else {
          AheadShrinks(keys, linked[level], x, n.value);
          x := n.value;
        }
      }
    }

    // Some of the stores the writer has left to make meanwhile.
    method Interfere(budget: nat) returns (left: nat)
      requires Valid()
      modifies this
      ensures Valid() && left <= budget && (left == budget ==> unchanged(this))
      ensures forall r :: r in old(keys) ==> r in keys && keys[r] == old(keys)[r]
      ensures forall l :: 0 <= l < MAX_HEIGHT ==> old(linked)[l] <= linked[l]
      ensures maxHeight >= old(maxHeight)
    {
      hide Good, WriterOk;
      LevelsAre();
      left := budget;
      var moving: bool := *;
      while moving && left > 0
        invariant Valid() && left <= budget && (left == budget ==> unchanged(this)) && |linked| == |old(linked)| == MAX_HEIGHT
        invariant forall r :: r in old(keys) ==> r in keys && keys[r] == old(keys)[r]
        invariant forall l :: 0 <= l < MAX_HEIGHT ==> old(linked)[l] <= linked[l]
        invariant maxHeight >= old(maxHeight)
        decreases left
      {
        WriterMoves();
        LevelsAre();
        left := left - 1;
        moving := *;
      }
    }

    lemma LevelsAre()
      requires Valid()
      ensures 1 <= maxHeight <= MAX_HEIGHT == |linked|
    {
    }

    // A node met on the way has its link, and the link leads on in the list.
    lemma LinkIsNext(l: nat, x: Ref)
      requires Valid() && l < MAX_HEIGHT && (x == HEAD || x in linked[l])
      ensures (x, l) in next && IsNext(keys, linked[l], x, next[(x, l)])
      ensures forall n :: n in linked[l] ==> n in keys && n != HEAD
      ensures l > 0 ==> linked[l] <= linked[l - 1]
    {
      assert LevelOk(keys, next, linked[l], l);
    }
  }

  lemma NewNodeKeepsGood(keys: map<Ref, Key>, next: Links, linked: seq<set<Ref>>, maxHeight: nat, x: Ref, k: Key)
    requires Good(keys, next, linked, maxHeight) && x !in keys && x != HEAD
    ensures Good(keys[x := k], next, linked, maxHeight)
  {
    forall l | 0 <= l < MAX_HEIGHT ensures LevelOk(keys[x := k], next, linked[l], l) {
      assert LevelOk(keys, next, linked[l], l);
    }
  }

  lemma NewNodeIsReady(keys: map<Ref, Key>, next: Links, linked: seq<set<Ref>>, maxHeight: nat, x: Ref, k: Key,
                       height: nat, prev: seq<Ref>)
    requires Good(keys, next, linked, maxHeight) && x !in keys && x != HEAD
    requires 1 <= height <= maxHeight && |prev| == MAX_HEIGHT
    requires forall a :: a in linked[0] && a in keys ==> keys[a] != k
    requires forall l :: 0 <= l < MAX_HEIGHT ==> IsPrev(keys, linked[l], k, prev[l])
    ensures WriterOk(keys[x := k], next, linked, maxHeight, Linking(x, height, prev, 0, false))
  {
    forall l | 0 <= l < MAX_HEIGHT ensures IsPrev(keys[x := k], linked[l], k, prev[l]) && x !in linked[l] {
      assert LevelOk(keys, next, linked[l], l) && IsPrev(keys, linked[l], k, prev[l]);
    }
  }

  // A search position: the head or a node of the level before the key.
  ghost predicate Reached(keys: map<Ref, Key>, nodes: set<Ref>, x: Ref, k: Key) {
    (x == HEAD || x in nodes) && ComesBefore(keys, x, k)
  }

  ghost function Ahead(keys: map<Ref, Key>, nodes: set<Ref>, x: Ref): set<Ref> {
    set y | y in nodes && y in keys && ComesBefore(keys, x, keys[y])
  }

  lemma AheadShrinks(keys: map<Ref, Key>, nodes: set<Ref>, x: Ref, n: Ref)
    requires IsNext(keys, nodes, x, Some(n)) && n != HEAD
    ensures Ahead(keys, nodes, n) < Ahead(keys, nodes, x)
    ensures |Ahead(keys, nodes, n)| < |Ahead(keys, nodes, x)|
  {
    assert n in Ahead(keys, nodes, x) && n !in Ahead(keys, nodes, n);
    SmallerSet(Ahead(keys, nodes, n), Ahead(keys, nodes, x));
  }

  lemma SmallerSet(a: set<Ref>, b: set<Ref>)
    requires a < b
    ensures |a| < |b|
  {
    var rest := b - a;
    assert b == a + rest && rest != {};
  }

  // The search leaves a level at the node after which the key belongs.
  lemma StopsAtPrev(keys: map<Ref, Key>, nodes: set<Ref>, x: Ref, k: Key, n: Option<Ref>)
    requires Reached(keys, nodes, x, k) && IsNext(keys, nodes, x, n) && (n.Some? ==> keys[n.value] >= k)
    requires forall y :: y in nodes ==> y in keys
    ensures IsPrev(keys, nodes, k, x)
  {
  }

  // At the lowest level it has found the first node at or after the key.
  lemma StopsAtFirst(keys: map<Ref, Key>, nodes: set<Ref>, x: Ref, k: Key, n: Option<Ref>)
    requires Reached(keys, nodes, x, k) && IsNext(keys, nodes, x, n) && (n.Some? ==> keys[n.value] >= k)
    ensures IsFirst(keys, nodes, k, n)
  {
    forall y | y in nodes && y in keys && keys[y] >= k ensures n.Some? && keys[n.value] <= keys[y] {
      assert ComesBefore(keys, x, keys[y]);
    }
  }
}
