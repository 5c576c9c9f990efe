// TwoLevelIterator: a cursor over the entries of all blocks, by way of an
// index with one key per block.

module TwoLevel {
  import opened Entries
  import opened Cursors
  import opened CompactionWork

  // Where block i starts in the concatenation of all blocks.
  function Base(blocks: seq<Run>, i: nat): nat
    requires i <= |blocks|
  {
    if i == 0 then 0 else Base(blocks, i - 1) + |blocks[i - 1]|
  }

  lemma {:induction false} BaseIsPrefix(blocks: seq<Run>, i: nat)
    requires i <= |blocks|
    ensures |Flatten(blocks[..i])| == Base(blocks, i) <= |Flatten(blocks)|
    ensures Flatten(blocks)[..Base(blocks, i)] == Flatten(blocks[..i])
    decreases |blocks|
  {
    if i == |blocks| {
      assert blocks[..i] == blocks;
      if i > 0 {
        var front := blocks[..i - 1];
        BaseIsPrefix(front, i - 1);
        SameBase(front, blocks, i - 1);
        assert front[..i - 1] == front;
      }
    } else {
      var front := blocks[..|blocks| - 1];
      BaseIsPrefix(front, i);
      SameBase(front, blocks, i);
      assert front[..i] == blocks[..i];
    }
  }

  lemma {:induction false} SameBase(a: seq<Run>, b: seq<Run>, i: nat)
    requires i <= |a| <= |b| && a == b[..|a|]
    ensures Base(a, i) == Base(b, i)
  {
    if i > 0 { SameBase(a, b, i - 1); }
  }

  // Entry j of block i in the concatenation.
  lemma EntryOfBlock(blocks: seq<Run>, i: nat, j: nat)
    requires i < |blocks| && j < |blocks[i]|
    ensures Base(blocks, i) + j < |Flatten(blocks)| && Flatten(blocks)[Base(blocks, i) + j] == blocks[i][j]
  {
    BaseIsPrefix(blocks, i + 1);
    var part := blocks[..i + 1];
    assert part[..i] == blocks[..i];
    BaseIsPrefix(blocks, i);
    assert Flatten(part) == Flatten(blocks[..i]) + blocks[i];
    assert Flatten(blocks)[..Base(blocks, i + 1)][Base(blocks, i) + j] == blocks[i][j];
  }

  lemma {:induction false} BaseGrows(blocks: seq<Run>, i: nat, n: nat)
    requires i <= n <= |blocks|
    ensures Base(blocks, i) <= Base(blocks, n)
    ensures i < n ==> Base(blocks, i) + |blocks[i]| <= Base(blocks, n)
    decreases n
  {
    if i < n { BaseGrows(blocks, i, n - 1); }
  }

  lemma WholeSize(blocks: seq<Run>)
    ensures Base(blocks, |blocks|) == |Flatten(blocks)|
  {
    BaseIsPrefix(blocks, |blocks|);
    assert blocks[..|blocks|] == blocks;
  }

  // One index key per block: not before any of its entries or earlier ones,
  // before all later ones.
  ghost predicate IsIndex(index: Run, blocks: seq<Run>) {
    && |index| == |blocks|
    && (forall i, j, e :: 0 <= j <= i < |blocks| && e in blocks[j] ==> !Before(index[i], e))
    && (forall i, j, e :: 0 <= i < j < |blocks| && e in blocks[j] ==> Before(index[i], e))
  }

  // The block an entry of the concatenation is in.
  lemma {:induction false} BlockOf(blocks: seq<Run>, n: nat) returns (i: nat, j: nat)
    requires n < |Flatten(blocks)|
    ensures i < |blocks| && j < |blocks[i]| && n == Base(blocks, i) + j && Flatten(blocks)[n] == blocks[i][j]
  {
    var last := |blocks| - 1;
    var front := blocks[..last];
    if n < |Flatten(front)| {
      i, j := BlockOf(front, n);
      SameBase(front, blocks, i);
    } else {
      i, j := last, n - |Flatten(front)|;
      BaseIsPrefix(blocks, last);
    }
  }

  // Looking the target up in the index and then in the block it leads to.
  lemma SeekThroughIndex(index: Run, blocks: seq<Run>, k: UserKey, s: nat, i: nat, j: nat)
    requires IsIndex(index, blocks) && Sorted(Flatten(blocks)) && i == SeekIndex(index, k, s)
    requires i < |blocks| ==> j == SeekIndex(blocks[i], k, s)
    ensures i < |blocks| ==> SeekIndex(Flatten(blocks), k, s) == Base(blocks, i) + j
    ensures i == |blocks| ==> SeekIndex(Flatten(blocks), k, s) == |Flatten(blocks)|
  {
    var all, n := Flatten(blocks), if i < |blocks| then Base(blocks, i) + j else |Flatten(blocks)|;
    forall m | 0 <= m < |all|
      ensures m < n ==> !AtOrAfter(all[m], k, s)
      ensures m == n ==> AtOrAfter(all[m], k, s)
    {
      var bi, bj := BlockOf(blocks, m);
      EntryAgainstTarget(index, blocks, k, s, i, j, bi, bj);
      if i < |blocks| {
        if bi < i { BaseGrows(blocks, bi, i); }
        if bi > i { BaseGrows(blocks, i, bi); }
      }
    }
    WholeSize(blocks);
    if i < |blocks| { BaseGrows(blocks, i, |blocks|); }
    FirstIsSeekIndex(all, k, s, n);
  }

  lemma EntryAgainstTarget(index: Run, blocks: seq<Run>, k: UserKey, s: nat, i: nat, j: nat, bi: nat, bj: nat)
    requires IsIndex(index, blocks) && i == SeekIndex(index, k, s) && bi < |blocks| && bj < |blocks[bi]|
    requires i < |blocks| ==> j == SeekIndex(blocks[i], k, s)
    ensures bi < i ==> !AtOrAfter(blocks[bi][bj], k, s)
    ensures bi > i ==> AtOrAfter(blocks[bi][bj], k, s)
    ensures bi == i && bj < j ==> !AtOrAfter(blocks[bi][bj], k, s)
    ensures bi == i && bj == j ==> AtOrAfter(blocks[bi][bj], k, s)
  {
    var e := blocks[bi][bj];
    assert e in blocks[bi];
    if bi < i {
      assert !AtOrAfter(index[bi], k, s) && !Before(index[bi], e);
    } else if bi > i {
      assert AtOrAfter(index[i], k, s) && Before(index[i], e);
    }
  }

  lemma {:induction false} FirstIsSeekIndex(run: Run, k: UserKey, s: nat, n: nat)
    requires n <= |run| && (forall m :: 0 <= m < n ==> !AtOrAfter(run[m], k, s))
    requires n < |run| ==> AtOrAfter(run[n], k, s)
    ensures SeekIndex(run, k, s) == n
  {
    if n > 0 {
      assert forall m :: 0 <= m < |run| - 1 ==> run[1..][m] == run[m + 1];
      FirstIsSeekIndex(run[1..], k, s, n - 1);
    }
  }

  class TwoLevelIterator {
    const blocks: seq<Run>       // what the block function yields for a handle
    const indexIter: RunCursor
    var dataIter: RunCursor?
    var dataBlock: nat           // the handle dataIter was made from

    ghost predicate Valid() reads this, indexIter, dataIter {
      && IsIndex(indexIter.list, blocks) && Sorted(Flatten(blocks)) && indexIter.Ok()
      && (dataIter != null ==>
            dataIter != indexIter && dataBlock < |blocks| && dataIter.list == blocks[dataBlock] && dataIter.Ok())
    }

    predicate AtEntry() reads this, dataIter {
      dataIter != null && dataIter.AtEntry()
    }

    // The data iterator belongs to the block the index is at.
    ghost predicate InStep() reads this, indexIter, dataIter {
      Valid() && (indexIter.AtEntry() <==> dataIter != null) && (dataIter != null ==> dataBlock == indexIter.pos)
    }

    // Going forward, everything before position n has been passed.
    ghost predicate Front(n: nat) reads this, indexIter, dataIter {
      InStep() && n == if dataIter != null then Base(blocks, dataBlock) + dataIter.pos else |Flatten(blocks)|
    }

    // Going backward, n entries are not passed yet.
    ghost predicate Back(n: nat) reads this, indexIter, dataIter {
      InStep() && n == if dataIter != null then Base(blocks, dataBlock) + CountOf(dataIter.pos, |dataIter.list|) else 0
    }

    // The iterator stands at entry n of the concatenation, or nowhere.
    ghost predicate At(n: nat) reads this, indexIter, dataIter {
      && InStep() && n <= |Flatten(blocks)| && (AtEntry() <==> n < |Flatten(blocks)|)
      && (AtEntry() ==> n == Base(blocks, dataBlock) + dataIter.pos)
      && (!AtEntry() ==> dataIter == null)
    }

    lemma ShowsEntry(n: nat)
      requires At(n) && AtEntry()
      ensures n < |Flatten(blocks)| && dataIter.list[dataIter.pos] == Flatten(blocks)[n]
    {
      EntryOfBlock(blocks, dataBlock, dataIter.pos);
    }

    constructor (indexIter: RunCursor, blocks: seq<Run>)
      requires IsIndex(indexIter.list, blocks) && Sorted(Flatten(blocks)) && indexIter.pos == |indexIter.list|
      ensures this.indexIter == indexIter && this.blocks == blocks && At(|Flatten(blocks)|)
    {
      this.indexIter, this.blocks := indexIter, blocks;
      dataIter, dataBlock := null, 0;
    }

    method InitDataBlock()
      requires Valid()
      modifies this
      ensures InStep() && indexIter.pos == old(indexIter.pos)
      ensures dataIter != null ==> dataIter == old(dataIter) || fresh(dataIter)
    {
      if !indexIter.AtEntry() {
        dataIter := null;
      } else if dataIter != null && indexIter.pos == dataBlock {
        // already made from this handle
      } else {
        dataIter := new RunCursor(blocks[indexIter.pos]);
        dataBlock := indexIter.pos;
      }
    }

    method SkipEmptyDataBlocksForward(ghost n: nat)
      requires Front(n)
      modifies this, indexIter, dataIter
      ensures At(n)
      ensures dataIter != null ==> dataIter == old(dataIter) || fresh(dataIter)
    {
      hide IsIndex, Sorted, Flatten;
      WholeSize(blocks);
      while dataIter == null || !dataIter.AtEntry()
        invariant Front(n)
        invariant dataIter != null ==> dataIter == old(dataIter) || fresh(dataIter)
        decreases |blocks| - indexIter.pos, dataIter != null
      {
        SameLengths();
        if !indexIter.AtEntry() {
          dataIter := null;
          return;
        }
        indexIter.Next();
        InitDataBlock();
        if dataIter != null { dataIter.SeekToFirst(); }
      }
      EntryOfBlock(blocks, dataBlock, dataIter.pos);
    }

    method SkipEmptyDataBlocksBackward(ghost n: nat)
      requires Back(n)
      modifies this, indexIter, dataIter
      ensures At(if n == 0 then |Flatten(blocks)| else n - 1)
      ensures dataIter != null ==> dataIter == old(dataIter) || fresh(dataIter)
    {
      hide IsIndex, Sorted, Flatten;
      WholeSize(blocks);
      while dataIter == null || !dataIter.AtEntry()
        invariant Back(n)
        invariant dataIter != null ==> dataIter == old(dataIter) || fresh(dataIter)
        decreases if dataIter == null then 0 else indexIter.pos + 1
      {
        SameLengths();
        if !indexIter.AtEntry() {
          dataIter := null;
          return;
        }
        indexIter.Prev();
        InitDataBlock();
        if dataIter != null { dataIter.SeekToLast(); }
      }
      EntryOfBlock(blocks, dataBlock, dataIter.pos);
    }

    lemma SameLengths()
      requires Valid()
      ensures |indexIter.list| == |blocks|
    {
    }

    method Seek(k: UserKey, s: nat)
      requires Valid()
      modifies this, indexIter, dataIter
      ensures At(SeekIndex(Flatten(blocks), k, s))
      ensures dataIter != null ==> dataIter == old(dataIter) || fresh(dataIter)
    {
      SameLengths();
      indexIter.Seek(k, s);
      InitDataBlock();
      if dataIter != null { dataIter.Seek(k, s); }
      SeekThroughIndex(indexIter.list, blocks, k, s, indexIter.pos, if dataIter != null then dataIter.pos else 0);
      SkipEmptyDataBlocksForward(SeekIndex(Flatten(blocks), k, s));
    }

    method SeekToFirst()
      requires Valid()
      modifies this, indexIter, dataIter
      ensures At(0)
      ensures dataIter != null ==> dataIter == old(dataIter) || fresh(dataIter)
    {
      SameLengths();
      WholeSize(blocks);
      indexIter.SeekToFirst();
      InitDataBlock();
      if dataIter != null { dataIter.SeekToFirst(); }
      SkipEmptyDataBlocksForward(0);
    }

    method SeekToLast()
      requires Valid()
      modifies this, indexIter, dataIter
      ensures At(if |Flatten(blocks)| == 0 then 0 else |Flatten(blocks)| - 1)
      ensures dataIter != null ==> dataIter == old(dataIter) || fresh(dataIter)
    {
      SameLengths();
      WholeSize(blocks);
      indexIter.SeekToLast();
      InitDataBlock();
      if dataIter != null { dataIter.SeekToLast(); }
      SkipEmptyDataBlocksBackward(|Flatten(blocks)|);
    }

    method Next(ghost n: nat)
      requires At(n) && AtEntry()
      modifies this, indexIter, dataIter
      ensures At(n + 1)
      ensures dataIter != null ==> dataIter == old(dataIter) || fresh(dataIter)
    {
      dataIter.Next();
      SkipEmptyDataBlocksForward(n + 1);
    }

    method Prev(ghost n: nat)
      requires At(n) && AtEntry()
      modifies this, indexIter, dataIter
      ensures At(if n == 0 then |Flatten(blocks)| else n - 1)
      ensures dataIter != null ==> dataIter == old(dataIter) || fresh(dataIter)
    {
      dataIter.Prev();
      SkipEmptyDataBlocksBackward(n);
    }
  }
}
