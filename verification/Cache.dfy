// The LRU cache: handles in a circular list by age, and in a hash table of
// bucket chains that grows with the number of entries.

module CacheHandles {
  import opened Coding

  class LRUHandle {
    const key: Bytes
    const hash: nat
    const value: nat // what the caller stored, by address
    const charge: nat
    var refs: nat
    var nextHash: LRUHandle?
    var next: LRUHandle?
    var prev: LRUHandle?

    constructor (key: Bytes, hash: nat, value: nat, charge: nat)
      ensures this.key == key && this.hash == hash && this.value == value && this.charge == charge
      ensures refs == 2 && nextHash == null
    {
      this.key, this.hash, this.value, this.charge := key, hash, value, charge;
      refs, nextHash := 2, null;
      next, prev := null, null;
    }
  }

  ghost predicate SameId(a: LRUHandle, b: LRUHandle) {
    a.hash == b.hash && a.key == b.key
  }

  predicate Matches(h: LRUHandle, key: Bytes, hash: nat) {
    h.hash == hash && h.key == key
  }
}

module HandleTables {
  import opened Coding
  import opened CacheHandles

  // Bitwise and.
  function And(x: nat, y: nat): (r: nat)
    ensures r <= y
  {
    if x == 0 || y == 0 then 0
    else 2 * And(x / 2, y / 2) + (if x % 2 == 1 && y % 2 == 1 then 1 else 0)
  }

  function Bucket(hash: nat, length: nat): (b: nat)
    requires 0 < length
    ensures b < length
  {
    And(hash, length - 1)
  }

  function At(c: seq<LRUHandle>, i: nat): LRUHandle? {
    if i < |c| then c[i] else null
  }

  // The handles of c from position k on are linked in order.
  ghost predicate Tail(c: seq<LRUHandle>, k: nat)
    reads c`nextHash
  {
    forall i, j :: k <= i < |c| && j == i + 1 ==> c[i].nextHash == At(c, j)
  }

  ghost predicate Chain(head: LRUHandle?, c: seq<LRUHandle>)
    reads c`nextHash
  {
    head == At(c, 0) && Tail(c, 0)
  }

  ghost predicate Unique(c: seq<LRUHandle>) {
    forall i, j :: 0 <= i < j < |c| ==> !SameId(c[i], c[j])
  }

  // Every handle is in the chain of its bucket, and no two have the same key.
  ghost predicate ChainsOk(chains: seq<seq<LRUHandle>>, nodes: set<LRUHandle>) {
    && (forall b :: 0 <= b < |chains| ==> InBucket(chains[b], nodes, |chains|, b) && Unique(chains[b]))
    && (forall h :: h in nodes ==> |chains| > 0 && h in chains[Bucket(h.hash, |chains|)])
  }

  ghost predicate InBucket(c: seq<LRUHandle>, nodes: set<LRUHandle>, length: nat, b: nat)
    requires 0 < length
  {
    forall i :: 0 <= i < |c| ==> c[i] in nodes && Bucket(c[i].hash, length) == b
  }

  ghost predicate Linked(list: array<LRUHandle?>, chains: seq<seq<LRUHandle>>, nodes: set<LRUHandle>)
    requires ChainsOk(chains, nodes)
    reads list, nodes`nextHash
  {
    list.Length == |chains| && forall b :: 0 <= b < |chains| ==> Chain(list[b], chains[b])
  }

  lemma NodesUnique(chains: seq<seq<LRUHandle>>, nodes: set<LRUHandle>, x: LRUHandle, y: LRUHandle)
    requires ChainsOk(chains, nodes) && x in nodes && y in nodes && SameId(x, y)
    ensures x == y
  {
    hide Bucket;
    var c := chains[Bucket(x.hash, |chains|)];
    var i :| 0 <= i < |c| && c[i] == x;
    var j :| 0 <= j < |c| && c[j] == y;
    assert Unique(c);
  }

  class HandleTable {
    var list: array<LRUHandle?>
    var elems: nat
    ghost var chains: seq<seq<LRUHandle>>
    ghost var nodes: set<LRUHandle>

    ghost predicate Sound()
      reads this, list, nodes`nextHash
    {
      ChainsOk(chains, nodes) && Linked(list, chains, nodes) && |chains| > 0 && elems == |nodes|
    }

    // A chain holds at most one handle on average.
    ghost predicate Valid()
      reads this, list, nodes`nextHash
    {
      Sound() && |nodes| <= |chains|
    }

    lemma ValidChains()
      requires Valid()
      ensures ChainsOk(chains, nodes)
    {
    }

    constructor ()
      ensures Valid() && nodes == {} && fresh(this) && fresh(list)
    {
      list := new LRUHandle?[0];
      elems, chains, nodes := 0, [], {};
      new;
      Resize();
    }

    // Where a key is in its chain: the slot before it, and the handle or null.
    method FindPointer(key: Bytes, hash: nat) returns (prev: LRUHandle?, cur: LRUHandle?, ghost k: nat)
      requires Valid()
      ensures var c := chains[Bucket(hash, |chains|)];
        && k <= |c| && cur == At(c, k) && prev == (if k == 0 then null else c[k - 1])
        && (k < |c| ==> Matches(c[k], key, hash))
        && forall i :: 0 <= i < k ==> !Matches(c[i], key, hash)
    {
      hide Bucket;
      ghost var c := chains[Bucket(hash, |chains|)];
      prev, cur, k := null, list[Bucket(hash, list.Length)], 0;
      assert Chain(cur, c);
      while cur != null && !Matches(cur, key, hash)
        invariant k <= |c| && cur == At(c, k) && prev == (if k == 0 then null else c[k - 1])
        invariant forall i :: 0 <= i < k ==> !Matches(c[i], key, hash)
        decreases |c| - k
      {
        assert c[k].nextHash == At(c, k + 1);
        prev, cur, k := cur, cur.nextHash, k + 1;
      }
    }

    method Lookup(key: Bytes, hash: nat) returns (h: LRUHandle?)
      requires Valid()
      ensures h != null ==> h in nodes && Matches(h, key, hash)
      ensures h == null ==> forall x :: x in nodes ==> !Matches(x, key, hash)
    {
      hide Bucket;
      ghost var prev, k;
      prev, h, k := FindPointer(key, hash);
      FoundOrAbsent(chains, nodes, key, hash, k);
    }

    // Stores h in the slot after prev in the chain of bucket b.
    method SetSlot(b: nat, prev: LRUHandle?, h: LRUHandle?, ghost c: seq<LRUHandle>, ghost k: nat, ghost rest: seq<LRUHandle>)
      requires b < list.Length && k <= |c| && Unique(c)
      requires Chain(list[b], c) && prev == (if k == 0 then null else c[k - 1])
      requires Chain(h, rest) && forall x :: x in rest ==> x !in c[..k]
      modifies list, if k == 0 then {} else {c[k - 1]}`nextHash
      ensures Chain(list[b], c[..k] + rest)
      ensures forall i :: 0 <= i < list.Length && i != b ==> list[i] == old(list[i])
    {
      ghost var after := c[..k] + rest;
      if prev == null {
        list[b] := h;
        assert after == rest;
      } else {
        prev.nextHash := h;
        assert c[..k][k - 1] == prev && prev !in rest;
        assert Chain(h, rest);
        forall i, j | 0 <= i < |after| && j == i + 1 ensures after[i].nextHash == At(after, j) {
          if i < k - 1 {
            assert after[i] == c[i] && !SameId(c[i], prev) && c[i].nextHash == At(c, j);
          } else if i >= k {
            assert after[i] == rest[i - k] && At(rest, i - k + 1) == rest[i - k].nextHash;
          }
        }
      }
    }

    // The handle that had the key of h before, or null.
    method Insert(h: LRUHandle) returns (replaced: LRUHandle?)
      requires Valid() && h !in nodes
      modifies this, list, nodes`nextHash, h`nextHash
      ensures Valid() && (list == old(list) || fresh(list))
      ensures replaced != null ==> replaced in old(nodes) && SameId(replaced, h) && nodes == old(nodes) - {replaced} + {h}
      ensures replaced == null ==> nodes == old(nodes) + {h} && forall x :: x in old(nodes) ==> !SameId(x, h)
    {
      hide ChainsOk, Linked;
      replaced := Put(h);
      if replaced == null && elems > list.Length { Resize(); }
    }

    // Puts h in the place of the handle with its key, or at the end of its chain.
    method Put(h: LRUHandle) returns (old_: LRUHandle?)
      requires Valid() && h !in nodes
      modifies this`chains, this`nodes, this`elems, list, nodes`nextHash, h`nextHash
      ensures Sound() && |chains| == list.Length && (|nodes| <= |chains| || old_ == null)
      ensures old_ != null ==> old_ in old(nodes) && SameId(old_, h) && nodes == old(nodes) - {old_} + {h}
      ensures old_ == null ==> nodes == old(nodes) + {h} && forall x :: x in old(nodes) ==> !SameId(x, h)
    {
      hide Bucket, ChainsOk;
      var prev; ghost var k;
      prev, old_, k := FindPointer(h.key, h.hash);
      FoundOrAbsent(chains, nodes, h.key, h.hash, k);
      ghost var b := Bucket(h.hash, |chains|);
      ghost var c := chains[b];
      Replaced(chains, nodes, b, k, h);
      ChainFacts(chains, nodes, b);
      ghost var gone := if old_ == null then {} else {old_};
      assert Chain(list[b], c);
      h.nextHash := if old_ == null then null else old_.nextHash;
      assert Linked(list, chains, nodes);
      LinkedRest(c, k, h);
      Splice(Bucket(h.hash, list.Length), prev, h, k, [h] + After(c, k), nodes - gone + {h});
      if old_ == null { elems := elems + 1; }
    }

    method Remove(key: Bytes, hash: nat) returns (result: LRUHandle?)
      requires Valid()
      modifies this`chains, this`nodes, this`elems, list, nodes`nextHash
      ensures Valid()
      ensures result != null ==> result in old(nodes) && Matches(result, key, hash) && nodes == old(nodes) - {result}
      ensures result == null ==> nodes == old(nodes) && forall x :: x in nodes ==> !Matches(x, key, hash)
    {
      hide Bucket, ChainsOk;
      var prev; ghost var k;
      prev, result, k := FindPointer(key, hash);
      FoundOrAbsent(chains, nodes, key, hash, k);
      if result != null {
        ghost var b := Bucket(hash, |chains|);
        ghost var c := chains[b];
        assert Chain(list[b], c);
        Removed(chains, nodes, b, k);
        ChainFacts(chains, nodes, b);
        LinkedAfter(c, k);
        Splice(Bucket(hash, list.Length), prev, result.nextHash, k, After(c, k), nodes - {result});
        elems := elems - 1;
      }
    }

    // Moves every handle to its bucket of a list of at least elems buckets.
    method Resize()
      requires ChainsOk(chains, nodes) && Linked(list, chains, nodes) && elems == |nodes|
      modifies this`list, this`chains, nodes`nextHash
      ensures Valid() && fresh(list) && elems <= |chains|
    {
      hide Bucket, ChainsOk, Chain, Tail, MovedUpTo;
      var length := 4;
      while length < elems
        invariant length >= 4
      {
        length := length * 2;
      }
      var to := new LRUHandle?[length](_ => null);
      ghost var moved, done: set<LRUHandle> := seq(length, _ => []), {};
      NothingMoved(to, moved, chains, nodes);
      var i := 0;
      while i < list.Length
        invariant 0 <= i <= list.Length == |chains| && to.Length == |moved| == length && fresh(to)
        invariant MovedUpTo(chains, nodes, done, i, 0)
        invariant ChainsOk(moved, done) && Linked(to, moved, done)
        invariant forall d :: i <= d < |chains| ==> Chain(list[d], chains[d])
        modifies to, nodes`nextHash
      {
        var h := list[i];
        ghost var c := chains[i];
        ghost var k := 0;
        assert c[0..] == c;
        while h != null
          invariant k <= |c| && Chain(h, c[k..]) && to.Length == |moved| == length
          invariant MovedUpTo(chains, nodes, done, i, k)
          invariant ChainsOk(moved, done) && Linked(to, moved, done)
          invariant forall d :: i < d < |chains| ==> Chain(list[d], chains[d])
          decreases |c| - k
          modifies to, nodes`nextHash
        {
          var next := h.nextHash;
          ChainNext(h, c, k);
          MoreMoved(chains, nodes, done, i, k);
          Apart(chains, nodes, i, k);
          moved := MoveTo(to, h, moved, done);
          done := done + {h};
          h, k := next, k + 1;
        }
        assert k == |c| by { ChainEnd(c, k); }
        RowMoved(chains, nodes, done, i);
        i := i + 1;
      }
      AllMoved(chains, nodes, done);
      list, chains := to, moved;
    }

    static method MoveTo(to: array<LRUHandle?>, h: LRUHandle, ghost moved: seq<seq<LRUHandle>>, ghost done: set<LRUHandle>)
      returns (ghost moved': seq<seq<LRUHandle>>)
      requires to.Length == |moved| > 0 && ChainsOk(moved, done) && Linked(to, moved, done)
      requires h !in done && forall x :: x in done ==> !SameId(x, h)
      modifies to, h`nextHash
      ensures |moved'| == |moved| && ChainsOk(moved', done + {h}) && Linked(to, moved', done + {h})
    {
      hide Bucket, ChainsOk;
      ghost var b := Bucket(h.hash, |moved|);
      ghost var c := moved[b];
      Prepended(moved, done, h);
      ChainFacts(moved, done, b);
      var slot := Bucket(h.hash, to.Length);
      assert Chain(to[slot], c);
      h.nextHash := to[slot];
      PrependLinked(h, c);
      to[slot] := h;
      moved' := moved[b := [h] + c];
    }

    // The chain of bucket b goes on with other handles from position k on.
    method Splice(b: nat, prev: LRUHandle?, h: LRUHandle?, ghost k: nat, ghost rest: seq<LRUHandle>, ghost left: set<LRUHandle>)
      requires ChainsOk(chains, nodes) && Linked(list, chains, nodes) && b < |chains|
      requires k <= |chains[b]| && prev == (if k == 0 then null else chains[b][k - 1])
      requires Chain(h, rest) && forall x :: x in rest ==> x !in chains[b][..k]
      requires ChainsOk(chains[b := chains[b][..k] + rest], left)
      modifies this`chains, this`nodes, list, nodes`nextHash
      ensures chains == old(chains)[b := old(chains)[b][..k] + rest] && nodes == left
      ensures Linked(list, chains, nodes)
    {
      hide ChainsOk, Chain;
      ghost var c := chains[b];
      ChainFacts(chains, nodes, b);
      assert Chain(list[b], c);
      SetSlot(b, prev, h, c, k, rest);
      forall d | 0 <= d < |chains| && d != b ensures Chain(list[d], chains[d]) {
        assert old(Chain(list[d], chains[d]));
      }
      chains := chains[b := c[..k] + rest];
      nodes := left;
    }
  }

  lemma FoundOrAbsent(chains: seq<seq<LRUHandle>>, nodes: set<LRUHandle>, key: Bytes, hash: nat, k: nat)
    requires ChainsOk(chains, nodes) && |chains| > 0
    requires var c := chains[Bucket(hash, |chains|)]; k <= |c| && forall i :: 0 <= i < k ==> !Matches(c[i], key, hash)
    ensures var c := chains[Bucket(hash, |chains|)];
      && (k < |c| ==> c[k] in nodes)
      && (k == |c| ==> forall x :: x in nodes ==> !Matches(x, key, hash))
  {
    hide Bucket;
    var c := chains[Bucket(hash, |chains|)];
    assert InBucket(c, nodes, |chains|, Bucket(hash, |chains|));
    if k == |c| {
      forall x | x in nodes ensures !Matches(x, key, hash) {
        assert x.hash == hash ==> x in c;
      }
    }
  }

  function After(c: seq<LRUHandle>, k: nat): seq<LRUHandle> {
    if k < |c| then c[k + 1..] else []
  }

  lemma LinkedRest(c: seq<LRUHandle>, k: nat, h: LRUHandle)
    requires Tail(c, 0) && k <= |c| && h.nextHash == (if k < |c| then c[k].nextHash else null)
    ensures Chain(h, [h] + After(c, k))
  {
    var rest := [h] + After(c, k);
    forall i, j | 0 <= i < |rest| && j == i + 1 ensures rest[i].nextHash == At(rest, j) {
      assert At(c, k + j) == At(rest, j);
    }
  }

  lemma LinkedAfter(c: seq<LRUHandle>, k: nat)
    requires Tail(c, 0) && k < |c| && Unique(c)
    ensures Chain(c[k].nextHash, After(c, k)) && forall x :: x in After(c, k) ==> x !in c[..k]
  {
    var rest := After(c, k);
    assert At(c, k + 1) == At(rest, 0);
    forall i, j | 0 <= i < |rest| && j == i + 1 ensures rest[i].nextHash == At(rest, j) {
      assert At(c, k + 1 + j) == At(rest, j);
    }
    forall i, j | 0 <= i < |rest| && 0 <= j < k ensures rest[i] != c[..k][j] {
      assert !SameId(c[j], c[k + 1 + i]);
    }
  }

  lemma Removed(chains: seq<seq<LRUHandle>>, nodes: set<LRUHandle>, b: nat, k: nat)
    requires ChainsOk(chains, nodes) && b < |chains| && k < |chains[b]|
    ensures ChainsOk(chains[b := chains[b][..k] + After(chains[b], k)], nodes - {chains[b][k]})
    ensures chains[b][k] in nodes
  {
    hide Bucket;
    var c := chains[b];
    var nodes' := nodes - {c[k]};
    var c' := c[..k] + After(c, k);
    assert InBucket(c, nodes, |chains|, b) && Unique(c);
    assert forall i :: 0 <= i < |c'| ==> c'[i] == c[if i < k then i else i + 1];
    forall i | 0 <= i < |c| && i != k ensures c[i] in c' {
      assert c'[if i < k then i else i - 1] == c[i];
    }
    forall x | x in nodes' ensures x in chains[b := c'][Bucket(x.hash, |chains|)] {
      StaysInChain(chains, nodes, x, b, c, k, c');
    }
    UniqueRest(c, k);
    OtherBuckets(chains, nodes, nodes', b, {c[k]});
  }

  lemma UniqueRest(c: seq<LRUHandle>, k: nat)
    requires Unique(c) && k < |c|
    ensures Unique(c[..k] + After(c, k))
    ensures forall i :: 0 <= i < |c| - 1 ==> (c[..k] + After(c, k))[i] != c[k]
  {
    var c' := c[..k] + After(c, k);
    assert forall i :: 0 <= i < |c'| ==> c'[i] == c[if i < k then i else i + 1];
    forall i, j | 0 <= i < j < |c'| ensures !SameId(c'[i], c'[j]) {
      assert !SameId(c[if i < k then i else i + 1], c[if j < k then j else j + 1]);
    }
    forall i | 0 <= i < |c'| ensures c'[i] != c[k] {
      assert if i < k then !SameId(c[i], c[k]) else !SameId(c[k], c[i + 1]);
    }
  }

  lemma PrependLinked(h: LRUHandle, c: seq<LRUHandle>)
    requires Chain(h.nextHash, c)
    ensures Chain(h, [h] + c)
  {
    forall i, j | 0 <= i < |[h] + c| && j == i + 1 ensures ([h] + c)[i].nextHash == At([h] + c, j) {
      if i > 0 { assert c[i - 1].nextHash == At(c, i); }
    }
  }

  lemma Prepended(chains: seq<seq<LRUHandle>>, nodes: set<LRUHandle>, h: LRUHandle)
    requires ChainsOk(chains, nodes) && |chains| > 0
    requires h !in nodes && forall x :: x in nodes ==> !SameId(x, h)
    ensures var b := Bucket(h.hash, |chains|); ChainsOk(chains[b := [h] + chains[b]], nodes + {h})
  {
    hide Bucket;
    var b := Bucket(h.hash, |chains|);
    var c := chains[b];
    assert InBucket(c, nodes, |chains|, b) && Unique(c);
    forall x | x in nodes + {h} ensures x in chains[b := [h] + c][Bucket(x.hash, |chains|)] {
      if x != h { assert x in chains[Bucket(x.hash, |chains|)]; }
    }
    assert Unique([h] + c) by {
      forall i, j | 0 <= i < j < |c| + 1 ensures !SameId(([h] + c)[i], ([h] + c)[j]) {
        assert c[j - 1] in nodes;
        if i > 0 { assert !SameId(c[i - 1], c[j - 1]); }
      }
    }
    OtherBuckets(chains, nodes, nodes + {h}, b, {});
  }

  // The handles of the first i chains, and k of the next, have been moved.
  ghost predicate MovedUpTo(chains: seq<seq<LRUHandle>>, nodes: set<LRUHandle>, done: set<LRUHandle>, i: nat, k: nat) {
    && done <= nodes
    && forall b, j :: 0 <= b < |chains| && 0 <= j < |chains[b]| ==> (chains[b][j] in done <==> b < i || (b == i && j < k))
  }

  lemma NothingMoved(to: array<LRUHandle?>, moved: seq<seq<LRUHandle>>, chains: seq<seq<LRUHandle>>, nodes: set<LRUHandle>)
    requires to.Length == |moved| && forall i :: 0 <= i < to.Length ==> to[i] == null && moved[i] == []
    ensures ChainsOk(moved, {}) && Linked(to, moved, {}) && MovedUpTo(chains, nodes, {}, 0, 0)
  {
  }

  lemma MoreMoved(chains: seq<seq<LRUHandle>>, nodes: set<LRUHandle>, done: set<LRUHandle>, i: nat, k: nat)
    requires ChainsOk(chains, nodes) && MovedUpTo(chains, nodes, done, i, k) && i < |chains| && k < |chains[i]|
    ensures var h := chains[i][k];
      && MovedUpTo(chains, nodes, done + {h}, i, k + 1)
      && h in nodes && h !in done && forall x :: x in done ==> !SameId(x, h)
  {
    hide Bucket, ChainsOk;
    var h := chains[i][k];
    ChainFacts(chains, nodes, i);
    forall x | x in done ensures !SameId(x, h) {
      if SameId(x, h) { NodesUnique(chains, nodes, x, h); }
    }
    forall b, j | 0 <= b < |chains| && 0 <= j < |chains[b]| && (b != i || j != k) ensures chains[b][j] != h {
      if b == i && j < k {
        assert !SameId(chains[i][j], chains[i][k]);
      } else if b == i && j > k {
        assert !SameId(chains[i][k], chains[i][j]);
      }
    }
  }

  lemma RowMoved(chains: seq<seq<LRUHandle>>, nodes: set<LRUHandle>, done: set<LRUHandle>, i: nat)
    requires i < |chains| && MovedUpTo(chains, nodes, done, i, |chains[i]|)
    ensures MovedUpTo(chains, nodes, done, i + 1, 0)
  {
  }

  lemma AllMoved(chains: seq<seq<LRUHandle>>, nodes: set<LRUHandle>, done: set<LRUHandle>)
    requires ChainsOk(chains, nodes) && MovedUpTo(chains, nodes, done, |chains|, 0)
    ensures done == nodes
  {
    hide Bucket;
    forall x | x in nodes ensures x in done {
      assert x in chains[Bucket(x.hash, |chains|)];
    }
  }

  lemma ChainNext(h: LRUHandle, c: seq<LRUHandle>, k: nat)
    requires k <= |c| && Chain(h, c[k..])
    ensures k < |c| && h == c[k] && Chain(h.nextHash, c[k + 1..])
  {
    var rest, more := c[k..], c[k + 1..];
    assert rest[0].nextHash == At(rest, 1);
    forall i, j | 0 <= i < |more| && j == i + 1 ensures more[i].nextHash == At(more, j) {
      assert more[i] == rest[j] && At(rest, j + 1) == rest[j].nextHash;
    }
  }

  lemma ChainEnd(c: seq<LRUHandle>, k: nat)
    requires k <= |c| && Chain(null, c[k..])
    ensures k == |c|
  {
  }

  lemma Apart(chains: seq<seq<LRUHandle>>, nodes: set<LRUHandle>, i: nat, k: nat)
    requires ChainsOk(chains, nodes) && i < |chains| && k < |chains[i]|
    ensures forall d :: i < d < |chains| ==> chains[i][k] !in chains[d]
    ensures chains[i][k] !in chains[i][k + 1..]
  {
    hide Bucket, ChainsOk;
    ChainFacts(chains, nodes, i);
    forall j | k < j < |chains[i]| ensures chains[i][j] != chains[i][k] {
      assert !SameId(chains[i][k], chains[i][j]);
    }
  }

  // A chain changes at position k.
  lemma Replaced(chains: seq<seq<LRUHandle>>, nodes: set<LRUHandle>, b: nat, k: nat, h: LRUHandle)
    requires ChainsOk(chains, nodes) && b < |chains| && b == Bucket(h.hash, |chains|) && h !in nodes
    requires k <= |chains[b]| && (k < |chains[b]| ==> SameId(chains[b][k], h))
    requires forall i :: 0 <= i < k ==> !SameId(chains[b][i], h)
    ensures var old_ := if k < |chains[b]| then {chains[b][k]} else {};
      && ChainsOk(chains[b := chains[b][..k] + ([h] + After(chains[b], k))], nodes - old_ + {h})
      && old_ <= nodes
  {
    hide Bucket;
    var c := chains[b];
    var old_ := if k < |c| then {c[k]} else {};
    var nodes' := nodes - old_ + {h};
    var c' := c[..k] + ([h] + After(c, k));
    assert InBucket(c, nodes, |chains|, b) && Unique(c);
    assert forall i :: 0 <= i < |c'| ==> c'[i] == if i == k then h else c[i];
    forall x | x in nodes' ensures x in chains[b := c'][Bucket(x.hash, |chains|)] {
      if x == h {
        assert c'[k] == h;
      } else {
        StaysInChain(chains, nodes, x, b, c, k, c');
      }
    }
    assert Unique(c') by {
      forall i, j | 0 <= i < j < |c'| ensures !SameId(c'[i], c'[j]) {
        assert j < |c| ==> !SameId(c[i], c[j]);
      }
    }
    OtherBuckets(chains, nodes, nodes', b, old_);
  }

  lemma StaysInChain(chains: seq<seq<LRUHandle>>, nodes: set<LRUHandle>, x: LRUHandle, b: nat, c: seq<LRUHandle>, k: nat,
                     c': seq<LRUHandle>)
    requires ChainsOk(chains, nodes) && x in nodes && b < |chains| && chains[b] == c && k <= |c|
    requires k < |c| ==> x != c[k]
    requires |c| <= |c'| + 1 && forall i :: 0 <= i < |c| && i != k ==> c[i] in c'
    ensures x in chains[b := c'][Bucket(x.hash, |chains|)]
  {
    hide Bucket;
    assert x in chains[Bucket(x.hash, |chains|)];
  }

  lemma OtherBuckets(chains: seq<seq<LRUHandle>>, nodes: set<LRUHandle>, nodes': set<LRUHandle>, b: nat, old_: set<LRUHandle>)
    requires ChainsOk(chains, nodes) && b < |chains| && nodes - old_ <= nodes'
    requires forall x :: x in old_ ==> x in chains[b]
    ensures forall d :: 0 <= d < |chains| && d != b ==> InBucket(chains[d], nodes', |chains|, d) && Unique(chains[d])
  {
    hide Bucket;
    forall d | 0 <= d < |chains| && d != b ensures InBucket(chains[d], nodes', |chains|, d) && Unique(chains[d]) {
      assert InBucket(chains[d], nodes, |chains|, d) && InBucket(chains[b], nodes, |chains|, b);
    }
  }

  lemma ChainFacts(chains: seq<seq<LRUHandle>>, nodes: set<LRUHandle>, b: nat)
    requires ChainsOk(chains, nodes) && b < |chains|
    ensures Unique(chains[b])
    ensures forall d, i :: 0 <= d < |chains| && 0 <= i < |chains[d]| ==> chains[d][i] in nodes
    ensures forall d, i, j :: 0 <= d < |chains| && d != b && 0 <= i < |chains[d]| && 0 <= j < |chains[b]| ==>
              chains[d][i] != chains[b][j]
  {
    hide Bucket;
    forall d | 0 <= d < |chains| ensures InBucket(chains[d], nodes, |chains|, d) {}
  }
}
