// Building a table and looking a key up in it.

module TableSearch {
  import opened Coding
  import opened BlockFormat
  import opened Comparator
  import opened DbFormat
  import opened TableFormat

  // ---------------------------------------------------------- key order

  ghost function UserRank(key: Bytes): real
    requires IsInternal(key)
  {
    Rank(ExtractUserKey(key))
  }

  // InternalLess, with user keys as numbers.
  ghost predicate KeyBefore(a: Bytes, b: Bytes)
    requires IsInternal(a) && IsInternal(b)
  {
    UserRank(a) < UserRank(b) || (UserRank(a) == UserRank(b) && Tag(a) > Tag(b))
  }

  lemma KeyOrder(a: Bytes, b: Bytes)
    requires IsInternal(a) && IsInternal(b)
    ensures InternalLess(a, b) <==> KeyBefore(a, b)
    ensures ExtractUserKey(a) == ExtractUserKey(b) <==> UserRank(a) == UserRank(b)
  {
    RankIsOrder(ExtractUserKey(a), ExtractUserKey(b));
    RankIsInjective(ExtractUserKey(a), ExtractUserKey(b));
  }

  // ------------------------------------------------------------ the layout

  ghost predicate BlockSorted(kvs: seq<KeyValue>) {
    && (forall i :: 0 <= i < |kvs| ==> IsInternal(kvs[i].key))
    && (forall i, j :: 0 <= i < j < |kvs| ==> KeyBefore(kvs[i].key, kvs[j].key))
  }

  // Every key of xs is before every key of ys.
  ghost predicate Precedes(xs: seq<KeyValue>, ys: seq<KeyValue>) {
    forall i, j :: 0 <= i < |xs| && 0 <= j < |ys| ==>
      IsInternal(xs[i].key) && IsInternal(ys[j].key) && KeyBefore(xs[i].key, ys[j].key)
  }

  // No key of xs is after the given one.
  ghost predicate AtMost(xs: seq<KeyValue>, key: Bytes) {
    IsInternal(key) && forall i :: 0 <= i < |xs| ==> IsInternal(xs[i].key) && !KeyBefore(key, xs[i].key)
  }

  ghost predicate BlocksSorted(blocks: seq<seq<KeyValue>>) {
    && (forall i :: 0 <= i < |blocks| ==> blocks[i] != [] && BlockSorted(blocks[i]))
    && (forall i, j :: 0 <= i < j < |blocks| ==> Precedes(blocks[i], blocks[j]))
  }

  // The index key of a block: at or after its last key, before the next one;
  // unless it is the last key itself, its user key is smaller than the next.
  ghost predicate Separates(sep: Bytes, block: seq<KeyValue>, next: seq<KeyValue>) {
    && block != [] && AtMost(block, sep)
    && (next != [] ==>
          && IsInternal(next[0].key) && KeyBefore(sep, next[0].key)
          && (sep == block[|block| - 1].key || UserRank(sep) < UserRank(next[0].key)))
  }

  datatype Layout = Layout(blocks: seq<seq<KeyValue>>, handles: seq<Handle>, seps: seq<Bytes>)

  function NextBlock(blocks: seq<seq<KeyValue>>, i: nat): seq<KeyValue> {
    if i + 1 < |blocks| then blocks[i + 1] else []
  }

  ghost predicate IsLayout(t: Layout) {
    && |t.handles| == |t.blocks| == |t.seps| && BlocksSorted(t.blocks)
    && forall i :: 0 <= i < |t.blocks| ==> Separates(t.seps[i], t.blocks[i], NextBlock(t.blocks, i))
  }

  function IndexEntries(t: Layout): (r: seq<KeyValue>)
    ensures |r| == |t.seps|
  {
    seq(|t.seps|, i requires 0 <= i < |t.seps| =>
      KeyValue(t.seps[i], if i < |t.handles| then EncodeHandle(t.handles[i]) else []))
  }

  // -------------------------------------------------------------- searching

  lemma BlockAt(t: Layout, i: nat)
    requires IsLayout(t) && i < |t.blocks|
    ensures t.blocks[i] != [] && BlockSorted(t.blocks[i])
  {
  }

  lemma SepAt(t: Layout, i: nat)
    requires IsLayout(t) && i < |t.blocks|
    ensures |t.seps| == |t.blocks| && IsInternal(t.seps[i]) && Separates(t.seps[i], t.blocks[i], NextBlock(t.blocks, i))
  {
  }

  lemma InOrder(t: Layout, i: nat, j: nat)
    requires IsLayout(t) && i < j < |t.blocks|
    ensures Precedes(t.blocks[i], t.blocks[j])
  {
  }

  // Index keys never decrease.
  lemma {:induction false} SepsIncrease(t: Layout, i: nat, j: nat)
    requires IsLayout(t) && i <= j < |t.blocks|
    ensures |t.seps| == |t.blocks| && IsInternal(t.seps[i]) && IsInternal(t.seps[j]) && !KeyBefore(t.seps[j], t.seps[i])
    decreases j
  {
    hide IsLayout, UserRank, Tag;
    SepAt(t, j);
    if i < j {
      SepsIncrease(t, i, j - 1);
      SepAt(t, j - 1);
    }
  }

  // The index leads past all blocks whose keys are below the target.
  lemma EarlierBlocksAreBelow(t: Layout, target: Bytes, i: nat, j: nat, n: nat)
    requires IsLayout(t) && IsInternal(target) && j < i <= |t.blocks| && n < |t.blocks[j]|
    requires |t.seps| == |t.blocks| && IsInternal(t.seps[j]) && KeyBefore(t.seps[j], target)
    ensures IsInternal(t.blocks[j][n].key) && KeyBefore(t.blocks[j][n].key, target)
  {
    hide IsLayout, UserRank, Tag;
    SepAt(t, j);
  }

  // The entry is not what a lookup of the target is after.
  ghost predicate Passed(kv: KeyValue, target: Bytes)
    requires IsInternal(target)
  {
    IsInternal(kv.key) && ExtractUserKey(kv.key) == ExtractUserKey(target) ==> KeyBefore(kv.key, target)
  }

  ghost predicate NoneBetween(t: Layout, target: Bytes, key: Bytes)
    requires IsInternal(target) && IsInternal(key)
  {
    forall i, n :: 0 <= i < |t.blocks| && 0 <= n < |t.blocks[i]| ==>
      IsInternal(t.blocks[i][n].key) && (KeyBefore(t.blocks[i][n].key, key) ==> KeyBefore(t.blocks[i][n].key, target))
  }

  // What a lookup may report: the least key of the table that is not below the
  // target, or nothing of the sought user key if there is none.
  ghost predicate IsLookup(t: Layout, target: Bytes, found: bool, kv: KeyValue)
    requires IsInternal(target)
  {
    if found && IsInternal(kv.key) && ExtractUserKey(kv.key) == ExtractUserKey(target) then
      && (exists i :: 0 <= i < |t.blocks| && kv in t.blocks[i])
      && !KeyBefore(kv.key, target) && NoneBetween(t, target, kv.key)
    else forall i, n :: 0 <= i < |t.blocks| && 0 <= n < |t.blocks[i]| ==> Passed(t.blocks[i][n], target)
  }

  // Where the index leads: the first block whose index key is not below.
  ghost predicate IndexAt(t: Layout, target: Bytes, i: nat)
    requires IsInternal(target) && |t.seps| == |t.blocks|
  {
    && i <= |t.blocks|
    && (forall j :: 0 <= j < i ==> IsInternal(t.seps[j]) && KeyBefore(t.seps[j], target))
    && (i < |t.blocks| ==> IsInternal(t.seps[i]) && !KeyBefore(t.seps[i], target))
  }

  // The position of a search: entry n of block i, the first of its block that
  // is not below the target, where block i is the first whose index key is not.
  ghost predicate IsSought(t: Layout, target: Bytes, i: nat, n: nat)
    requires IsInternal(target) && |t.seps| == |t.blocks|
  {
    && IndexAt(t, target, i)
    && (i < |t.blocks| ==>
          && n <= |t.blocks[i]|
          && (forall m :: 0 <= m < n ==> IsInternal(t.blocks[i][m].key) && KeyBefore(t.blocks[i][m].key, target))
          && (n < |t.blocks[i]| ==> IsInternal(t.blocks[i][n].key) && !KeyBefore(t.blocks[i][n].key, target)))
  }

  lemma LaterKey(t: Layout, i: nat, n: nat, j: nat, m: nat)
    requires IsLayout(t) && i <= j < |t.blocks| && n < |t.blocks[i]| && m < |t.blocks[j]| && (i < j || n <= m)
    ensures BlockSorted(t.blocks[i]) && BlockSorted(t.blocks[j])
    ensures !KeyBefore(t.blocks[j][m].key, t.blocks[i][n].key)
  {
    hide IsLayout, UserRank, Tag;
    BlockAt(t, i);
    BlockAt(t, j);
    if i < j { InOrder(t, i, j); }
  }

  // Found inside the chosen block: the least key not below the target.
  lemma SoughtIsLeast(t: Layout, target: Bytes, i: nat, n: nat)
    requires IsLayout(t) && IsInternal(target) && |t.seps| == |t.blocks| && IsSought(t, target, i, n) && i < |t.blocks| && n < |t.blocks[i]|
    ensures IsLookup(t, target, true, t.blocks[i][n])
  {
    hide IsLayout, UserRank, Tag, ExtractUserKey;
    var kv := t.blocks[i][n];
    assert kv in t.blocks[i];
    KeyOrder(kv.key, target);
    forall j, m | 0 <= j < |t.blocks| && 0 <= m < |t.blocks[j]|
      ensures IsInternal(t.blocks[j][m].key)
      ensures KeyBefore(t.blocks[j][m].key, kv.key) ==> KeyBefore(t.blocks[j][m].key, target)
      ensures ExtractUserKey(kv.key) == ExtractUserKey(target) || Passed(t.blocks[j][m], target)
    {
      BlockAt(t, j);
      KeyOrder(t.blocks[j][m].key, target);
      if j < i {
        EarlierBlocksAreBelow(t, target, i, j, m);
      } else if j > i || m >= n {
        LaterKey(t, i, n, j, m);
      }
    }
  }

  // Past the end of the chosen block: its shortened index key tells that no
  // later block holds the sought user key.
  lemma NothingBehindBlock(t: Layout, target: Bytes, i: nat)
    requires IsLayout(t) && IsInternal(target) && |t.seps| == |t.blocks| && i < |t.blocks| && IsSought(t, target, i, |t.blocks[i]|)
    ensures forall j, m :: i < j < |t.blocks| && 0 <= m < |t.blocks[j]| ==>
      IsInternal(t.blocks[j][m].key) && UserRank(target) < UserRank(t.blocks[j][m].key)
  {
    hide IsLayout, UserRank, Tag, ExtractUserKey;
    SepAt(t, i);
    var last := |t.blocks[i]| - 1;
    assert KeyBefore(t.blocks[i][last].key, target);
    forall j, m | i < j < |t.blocks| && 0 <= m < |t.blocks[j]|
      ensures IsInternal(t.blocks[j][m].key) && UserRank(target) < UserRank(t.blocks[j][m].key)
    {
      BlockAt(t, i + 1);
      LaterKey(t, i + 1, 0, j, m);
    }
  }

  lemma NothingSought(t: Layout, target: Bytes, i: nat, n: nat, kv: KeyValue)
    requires IsLayout(t) && IsInternal(target) && |t.seps| == |t.blocks| && IsSought(t, target, i, n) && (i < |t.blocks| ==> n == |t.blocks[i]|)
    ensures IsLookup(t, target, false, kv)
  {
    hide IsLayout, UserRank, Tag, ExtractUserKey;
    if i < |t.blocks| { NothingBehindBlock(t, target, i); }
    forall j, m | 0 <= j < |t.blocks| && 0 <= m < |t.blocks[j]| ensures Passed(t.blocks[j][m], target) {
      BlockAt(t, j);
      KeyOrder(t.blocks[j][m].key, target);
      if j < i { EarlierBlocksAreBelow(t, target, i, j, m); }
    }
  }
}
