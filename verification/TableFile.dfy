// Table files byte by byte: the builder that writes one and the lookup that
// reads one.

module TableFile {
  import opened Wrappers
  import opened Coding
  import opened BlockFormat
  import opened BlockReader
  import Comparator
  import opened DbFormat
  import opened TableFormat
  import opened TableSearch
  import Crc32c
  import FilterBlock
  import opened TableFilters

  // The blocks of the layout lie in the file where their handles say.
  ghost predicate BlocksStored(file: Bytes, blocks: seq<seq<KeyValue>>, handles: seq<Handle>, interval: nat) {
    |handles| == |blocks| && forall i :: 0 <= i < |blocks| ==> Stored(file, handles[i], RawBlock(blocks[i], interval))
  }

  // A complete table file.
  ghost predicate IsTableFile(file: Bytes, t: Layout, meta: Handle, index: Handle, interval: nat) {
    && IsLayout(t) && BlocksStored(file, t.blocks, t.handles, interval)
    && Stored(file, index, RawBlock(IndexEntries(t), 1))
    && meta.offset + meta.size <= |file|
    && |file| >= FOOTER_SIZE && file[|file| - FOOTER_SIZE..] == Footer(meta, index)
  }

  // ------------------------------------------------------------ Table::Open

  // The index block, if the footer and the block can be read.
  method Open(file: Bytes, verify: bool, ghost t: Layout, ghost meta: Handle, ghost index: Handle, ghost interval: nat)
    returns (indexBlock: Option<Bytes>)
    requires IsTableFile(file, t, meta, index, interval) && |file| < TWO_TO_32
    ensures indexBlock == Some(RawBlock(IndexEntries(t), 1))
  {
    hide IsLayout, BlocksStored, RawBlock, EncodeHandle, DecodeFooter, ReadBlock, Footer, Stored, IndexEntries;
    if |file| < FOOTER_SIZE { return None; }
    HandleFits(file, index, RawBlock(IndexEntries(t), 1));
    FooterRoundTrip(meta, index);
    var handle := DecodeFooter(file[|file| - FOOTER_SIZE..]);
    if handle == None { return None; }
    StoredIsRead(file, index, RawBlock(IndexEntries(t), 1), verify);
    indexBlock := ReadBlock(file, handle.value.1, verify);
  }

  // Table::ReadMeta and ReadFilter: through the metaindex to the filter block of
  // the given policy.
  method ReadMeta(file: Bytes, policy: FilterBlock.Policy, name: Bytes, verify: bool,
                  ghost t: Layout, ghost meta: Handle, ghost index: Handle, ghost interval: nat, ghost f: Option<FilterInfo>)
    returns (filter: FilterBlock.FilterBlockReader?)
    requires IsTableFile(file, t, meta, index, interval) && HasMeta(file, t.blocks, t.handles, meta, interval, f) && |file| < TWO_TO_32
    requires f.Some? ==> f.value.name == name && f.value.policy == policy
    ensures if f.Some? then filter != null && FilterOf(t.blocks, t.handles, filter, f.value.slots) else filter == null
  {
    hide IsLayout, BlocksStored, RawBlock, EncodeHandle, DecodeFooter, DecodeHandle, ReadBlock, Footer, Stored, IndexEntries, Reported,
      IsBlock, FilterBlock.IsFilterBlock, FilterBlock.PolicyOk, FilterBlock.FilterBlockReader.Valid, BlockIter.At, BlockIter.Block, Comparator.Less;
    HandleFits(file, index, RawBlock(IndexEntries(t), 1));
    HandleFits(file, meta, RawBlock(MetaEntries(f), interval));
    FooterRoundTrip(meta, index);
    var handles := DecodeFooter(file[|file| - FOOTER_SIZE..]);
    StoredIsRead(file, meta, RawBlock(MetaEntries(f), interval), verify);
    StoredFits(file, meta, MetaEntries(f), interval);
    var block := ReadBlock(file, handles.value.0, verify);
    var key := FILTER_PREFIX + name;
    var iter := new BlockIter(block.value, MetaEntries(f), interval);
    NotLessThanItself(key);
    ghost var n := iter.Seek(k => Comparator.Less(k, key));
    iter.AtEntryIffInside(n);
    if iter.AtEntry() {
      iter.CurrentIsEntry(n);
      if iter.key == key {
        filter := ReadFilter(file, iter.Value(), policy, verify, f.value.handle, f.value.data);
        return;
      }
    }
    filter := null;
  }

  method ReadFilter(file: Bytes, value: Bytes, policy: FilterBlock.Policy, verify: bool, ghost h: Handle, ghost data: Bytes)
    returns (filter: FilterBlock.FilterBlockReader)
    requires Stored(file, h, data) && value == HandleBytes(h) && |file| < TWO_TO_32
    ensures filter.Valid() && filter.policy == policy && filter.contents == data && |data| < TWO_TO_32
  {
    hide EncodeHandle, DecodeHandle, ReadBlock, Stored, FilterBlock.FilterBlockReader.Valid;
    HandleFits(file, h, data);
    StoredIsInside(file, h, data);
    assert value[0..|value|] == value;
    HandleRoundTrip(h, value, 0);
    var handle := DecodeHandle(value, 0);
    StoredIsRead(file, h, data, verify);
    var block := ReadBlock(file, handle.value.0, verify);
    filter := new FilterBlock.FilterBlockReader(policy, block.value);
  }

  lemma StoredIsInside(file: Bytes, h: Handle, block: Bytes)
    requires Stored(file, h, block)
    ensures |block| <= |file|
  {
  }

  lemma NotLessThanItself(key: Bytes)
    ensures !Comparator.Less(key, key)
  {
    Comparator.RankIsOrder(key, key);
  }

  lemma HandleFits(file: Bytes, h: Handle, block: Bytes)
    requires Stored(file, h, block) && |file| < TWO_TO_32
    ensures h.offset < TWO_TO_64 && h.size < TWO_TO_64
  {
  }

  lemma StoredFits(file: Bytes, h: Handle, kvs: seq<KeyValue>, interval: nat)
    requires Stored(file, h, RawBlock(kvs, interval)) && |file| < TWO_TO_32
    ensures IsBlock(RawBlock(kvs, interval), kvs, interval) && h.offset < TWO_TO_64 && h.size < TWO_TO_64
  {
    hide Data, Restarts, Fixed32s;
  }

  lemma IndexEntry(t: Layout, i: nat)
    requires IsLayout(t) && i < |t.seps|
    ensures i < |t.blocks| && IndexEntries(t)[i] == KeyValue(t.seps[i], EncodeHandle(t.handles[i]))
  {
  }

  lemma LayoutSizes(t: Layout)
    requires IsLayout(t)
    ensures |t.seps| == |t.blocks| == |t.handles|
  {
  }

  // The handle of the first block whose index key is not below the target.
  method FindBlock(indexBlock: Bytes, target: Bytes, ghost t: Layout) returns (h: Option<Bytes>, ghost i: nat)
    requires IsLayout(t) && IsInternal(target) && IsBlock(indexBlock, IndexEntries(t), 1)
    ensures |t.seps| == |t.blocks| == |t.handles| && i <= |t.blocks| && IndexAt(t, target, i)
    ensures h == if i < |t.blocks| then Some(EncodeHandle(t.handles[i])) else None
  {
    hide IsLayout, IsBlock, EncodeHandle, IndexAt, IndexEntries, InternalLess, BlockIter.At, BlockIter.Block;
    LayoutSizes(t);
    var below := k => IsInternal(k) && InternalLess(k, target);
    IndexIsMonotone(t, target, below);
    var iter := new BlockIter(indexBlock, IndexEntries(t), 1);
    i := iter.Seek(below);
    iter.AtEntryIffInside(i);
    SoughtBlock(t, target, below, i);
    if iter.AtEntry() {
      IndexEntry(t, i);
      iter.CurrentIsEntry(i);
      h := Some(iter.Value());
    } else {
      h := None;
    }
  }

  // The first entry of the block that is not below the target.
  method FindInBlock(block: Bytes, target: Bytes, ghost t: Layout, ghost i: nat, ghost interval: nat) returns (r: Option<KeyValue>)
    requires IsLayout(t) && IsInternal(target) && |t.seps| == |t.blocks| && IndexAt(t, target, i) && i < |t.blocks|
    requires IsBlock(block, t.blocks[i], interval)
    ensures IsLookup(t, target, r.Some?, if r.Some? then r.value else KeyValue([], []))
  {
    hide IsLayout, IsBlock, IndexAt, IsLookup, IsSought, InternalLess, BlockIter.At, BlockIter.Block;
    var below := k => IsInternal(k) && InternalLess(k, target);
    BlockIsMonotone(t, target, below, i);
    var iter := new BlockIter(block, t.blocks[i], interval);
    ghost var n := iter.Seek(below);
    iter.AtEntryIffInside(n);
    SoughtEntry(t, target, below, i, n);
    if iter.AtEntry() {
      iter.CurrentIsEntry(n);
      r := Some(KeyValue(iter.key, iter.Value()));
      SoughtIsLeast(t, target, i, n);
    } else {
      NothingSought(t, target, i, n, KeyValue([], []));
      r := None;
    }
  }

  // The least key of the table not below the target, if it is in the block the
  // index leads to; the filter, if there is one, may say that the user key is
  // not there.
  method InternalGet(file: Bytes, indexBlock: Bytes, target: Bytes, filter: FilterBlock.FilterBlockReader?, verify: bool,
                     ghost t: Layout, ghost meta: Handle, ghost index: Handle, ghost interval: nat, ghost slots: seq<seq<Bytes>>)
    returns (r: Option<KeyValue>)
    requires IsTableFile(file, t, meta, index, interval) && |file| < TWO_TO_32
    requires indexBlock == RawBlock(IndexEntries(t), 1) && IsInternal(target)
    requires filter != null ==> FilterOf(t.blocks, t.handles, filter, slots)
    ensures IsLookup(t, target, r.Some?, if r.Some? then r.value else KeyValue([], []))
  {
    hide IsLayout, BlocksStored, RawBlock, EncodeHandle, ReadBlock, IsLookup, IndexAt, Stored, IsBlock, DecodeHandle, Footer,
      FilterBlock.FilterBlockReader.SlotMatches, FilterBlock.FilterBlockReader.SlotOf, FilterOf;
    ghost var none := KeyValue([], []);
    StoredFits(file, index, IndexEntries(t), 1);
    var h, i := FindBlock(indexBlock, target, t);
    if h == None {
      SoughtNowhere(t, target, i);
      NothingSought(t, target, i, 0, none);
      return None;
    }
    HandleIsRead(file, t, i, interval);
    var handle := DecodeHandle(h.value, 0);
    if filter != null {
      FilterIsUsable(t.blocks, t.handles, filter, slots);
      var mayMatch := filter.KeyMayMatch(handle.value.0.offset, ExtractUserKey(target));
      if !mayMatch {
        FilteredOut(t, target, filter, slots, i, none);
        return None;
      }
    }
    BlockIsStored(file, t, i, interval);
    StoredIsRead(file, t.handles[i], RawBlock(t.blocks[i], interval), verify);
    StoredFits(file, t.handles[i], t.blocks[i], interval);
    var block := ReadBlock(file, handle.value.0, verify);
    r := FindInBlock(block.value, target, t, i, interval);
  }

  lemma IndexIsMonotone(t: Layout, target: Bytes, below: Bytes -> bool)
    requires IsLayout(t) && IsInternal(target) && forall k :: below(k) <==> IsInternal(k) && InternalLess(k, target)
    ensures forall i, j :: 0 <= i < j < |t.seps| && below(IndexEntries(t)[j].key) ==> below(IndexEntries(t)[i].key)
  {
    hide IsLayout, InternalLess, KeyBefore;
    forall i, j | 0 <= i < j < |t.seps| && below(IndexEntries(t)[j].key) ensures below(IndexEntries(t)[i].key) {
      IndexEntry(t, i);
      IndexEntry(t, j);
      SepsIncrease(t, i, j);
      OrderOfThree(t.seps[i], t.seps[j], target);
    }
  }

  lemma OrderOfThree(a: Bytes, b: Bytes, target: Bytes)
    requires IsInternal(a) && IsInternal(b) && IsInternal(target)
    ensures !KeyBefore(b, a) && InternalLess(b, target) ==> InternalLess(a, target)
    ensures KeyBefore(a, b) && InternalLess(b, target) ==> InternalLess(a, target)
  {
    hide UserRank, Tag;
    KeyOrder(b, target);
    KeyOrder(a, target);
  }

  lemma BlockIsMonotone(t: Layout, target: Bytes, below: Bytes -> bool, i: nat)
    requires IsLayout(t) && i < |t.blocks| && IsInternal(target)
    requires forall k :: below(k) <==> IsInternal(k) && InternalLess(k, target)
    ensures forall m, n :: 0 <= m < n < |t.blocks[i]| && below(t.blocks[i][n].key) ==> below(t.blocks[i][m].key)
  {
    hide IsLayout, InternalLess, KeyBefore;
    BlockAt(t, i);
    forall m, n | 0 <= m < n < |t.blocks[i]| && below(t.blocks[i][n].key) ensures below(t.blocks[i][m].key) {
      OrderOfThree(t.blocks[i][m].key, t.blocks[i][n].key, target);
    }
  }

  lemma SoughtBlock(t: Layout, target: Bytes, below: Bytes -> bool, i: nat)
    requires IsLayout(t) && IsInternal(target) && i <= |t.seps|
    requires forall k :: below(k) <==> IsInternal(k) && InternalLess(k, target)
    requires forall j :: 0 <= j < i ==> below(IndexEntries(t)[j].key)
    requires i < |t.seps| ==> !below(IndexEntries(t)[i].key)
    ensures |t.seps| == |t.blocks| && IndexAt(t, target, i)
  {
    hide InternalLess, KeyBefore;
    forall j | 0 <= j < |t.seps|
      ensures IsInternal(t.seps[j]) && (below(IndexEntries(t)[j].key) <==> KeyBefore(t.seps[j], target))
    {
      IndexEntry(t, j);
      SepAt(t, j);
      KeyOrder(t.seps[j], target);
    }
  }

  lemma SoughtEntry(t: Layout, target: Bytes, below: Bytes -> bool, i: nat, n: nat)
    requires IsLayout(t) && IsInternal(target) && |t.seps| == |t.blocks| && IndexAt(t, target, i) && i < |t.blocks| && n <= |t.blocks[i]|
    requires forall k :: below(k) <==> IsInternal(k) && InternalLess(k, target)
    requires forall m :: 0 <= m < n ==> below(t.blocks[i][m].key)
    requires n < |t.blocks[i]| ==> !below(t.blocks[i][n].key)
    ensures IsSought(t, target, i, n)
  {
    hide InternalLess, KeyBefore, IsLayout, IndexAt;
    BlockAt(t, i);
    forall m | 0 <= m < |t.blocks[i]| ensures below(t.blocks[i][m].key) <==> KeyBefore(t.blocks[i][m].key, target) {
      KeyOrder(t.blocks[i][m].key, target);
    }
  }

  lemma SoughtNowhere(t: Layout, target: Bytes, i: nat)
    requires IsInternal(target) && |t.seps| == |t.blocks| && IndexAt(t, target, i) && i == |t.blocks|
    ensures IsSought(t, target, i, 0)
  {
  }

  lemma HandleIsRead(file: Bytes, t: Layout, i: nat, interval: nat)
    requires IsLayout(t) && i < |t.blocks| && BlocksStored(file, t.blocks, t.handles, interval) && |file| < TWO_TO_32
    ensures DecodeHandle(EncodeHandle(t.handles[i]), 0) == Some((t.handles[i], |EncodeHandle(t.handles[i])|))
  {
    hide RawBlock, EncodeHandle;
    var e := EncodeHandle(t.handles[i]);
    assert Stored(file, t.handles[i], RawBlock(t.blocks[i], interval));
    assert e[0..|e|] == e;
    HandleRoundTrip(t.handles[i], e, 0);
  }

  lemma BlockIsStored(file: Bytes, t: Layout, i: nat, interval: nat)
    requires i < |t.blocks| && BlocksStored(file, t.blocks, t.handles, interval)
    ensures |t.handles| == |t.blocks| && Stored(file, t.handles[i], RawBlock(t.blocks[i], interval))
  {
    hide RawBlock;
  }

  // The filter may only skip a block without the key, and then no later block
  // has it either.
  lemma FilteredOut(t: Layout, target: Bytes, filter: FilterBlock.FilterBlockReader, slots: seq<seq<Bytes>>, i: nat, none: KeyValue)
    requires IsLayout(t) && IsInternal(target) && i < |t.blocks| && |t.seps| == |t.blocks| && IndexAt(t, target, i)
    requires FilterOf(t.blocks, t.handles, filter, slots) && !filter.SlotMatches(filter.SlotOf(t.handles[i].offset), ExtractUserKey(target))
    requires none.key == []
    ensures IsLookup(t, target, false, none)
  {
    hide FilterBlock.FilterBlockReader.SlotMatches, FilterBlock.FilterBlockReader.SlotOf;
    forall n | 0 <= n < |t.blocks[i]| ensures !HasUserKey(t.blocks[i][n].key, target) {
      NoFalseNegatives(t.blocks, t.handles, filter, slots, target, i, n);
    }
    hide FilterOf;
    NotInBlock(t, target, i, none);
  }

  lemma NotInBlock(t: Layout, target: Bytes, i: nat, none: KeyValue)
    requires IsLayout(t) && IsInternal(target) && i < |t.blocks| && |t.seps| == |t.blocks| && IndexAt(t, target, i)
    requires forall n :: 0 <= n < |t.blocks[i]| ==> !HasUserKey(t.blocks[i][n].key, target)
    requires none.key == []
    ensures IsLookup(t, target, false, none)
  {
    hide IsLayout, UserRank, Tag, ExtractUserKey;
    BlockAt(t, i);
    SepAt(t, i);
    var last := |t.blocks[i]| - 1;
    KeyOrder(t.blocks[i][last].key, target);
    assert !HasUserKey(t.blocks[i][last].key, target);
    forall j, m | 0 <= j < |t.blocks| && 0 <= m < |t.blocks[j]| ensures Passed(t.blocks[j][m], target) {
      BlockAt(t, j);
      KeyOrder(t.blocks[j][m].key, target);
      if j < i {
        EarlierBlocksAreBelow(t, target, i, j, m);
      } else if j == i {
        assert !HasUserKey(t.blocks[j][m].key, target);
      } else {
        BlockAt(t, i + 1);
        LaterKey(t, i + 1, 0, j, m);
        LaterKey(t, i, last, j, m);
      }
    }
  }

  // ----------------------------------------------------------- TableBuilder

  // The last key added, if any.
  function LastKey(blocks: seq<seq<KeyValue>>, rest: seq<KeyValue>): Bytes {
    if rest != [] then rest[|rest| - 1].key
    else if |blocks| > 0 && blocks[|blocks| - 1] != [] then blocks[|blocks| - 1][|blocks[|blocks| - 1]| - 1].key
    else []
  }

  function NextOf(blocks: seq<seq<KeyValue>>, rest: seq<KeyValue>, i: nat): seq<KeyValue> {
    if i + 1 < |blocks| then blocks[i + 1] else rest
  }

  // The builder's bookkeeping: blocks written, entries of the block being
  // filled, and the index entries made so far.
  ghost predicate Building(blocks: seq<seq<KeyValue>>, handles: seq<Handle>, rest: seq<KeyValue>, index: seq<KeyValue>, pending: bool) {
    && BlocksSorted(blocks) && BlockSorted(rest) && (forall i :: 0 <= i < |blocks| ==> Precedes(blocks[i], rest))
    && |handles| == |blocks|
    && (pending <==> |blocks| > 0 && rest == [])
    && |index| == |blocks| - (if pending then 1 else 0)
    && forall i :: 0 <= i < |index| ==>
         index[i].value == EncodeHandle(handles[i]) && Separates(index[i].key, blocks[i], NextOf(blocks, rest, i))
  }

  lemma NothingBuilt(interval: nat)
    ensures Building([], [], [], [], false) && BlocksStored([], [], [], interval)
  {
  }

  lemma LastIsInternal(blocks: seq<seq<KeyValue>>, rest: seq<KeyValue>)
    requires BlocksSorted(blocks) && BlockSorted(rest) && (|blocks| > 0 || rest != [])
    ensures IsInternal(LastKey(blocks, rest))
  {
  }

  lemma AllAtMostLast(blocks: seq<seq<KeyValue>>, rest: seq<KeyValue>)
    requires BlocksSorted(blocks) && BlockSorted(rest) && (|blocks| > 0 || rest != [])
    requires forall i :: 0 <= i < |blocks| ==> Precedes(blocks[i], rest)
    ensures AtMost(rest, LastKey(blocks, rest)) && forall i :: 0 <= i < |blocks| ==> AtMost(blocks[i], LastKey(blocks, rest))
  {
    hide UserRank, Tag;
    LastIsInternal(blocks, rest);
    var last := LastKey(blocks, rest);
    forall i | 0 <= i < |blocks| ensures AtMost(blocks[i], last) {
      assert BlockSorted(blocks[i]);
      if rest != [] {
        assert Precedes(blocks[i], rest);
      } else if i < |blocks| - 1 {
        assert Precedes(blocks[i], blocks[|blocks| - 1]);
      }
    }
  }

  lemma KeyGoesLast(xs: seq<KeyValue>, last: Bytes, kv: KeyValue)
    requires AtMost(xs, last) && IsInternal(kv.key) && KeyBefore(last, kv.key)
    ensures forall i :: 0 <= i < |xs| ==> IsInternal(xs[i].key) && KeyBefore(xs[i].key, kv.key)
  {
    hide UserRank, Tag;
  }

  // Adding a greater key, with an index entry for the block before if that was
  // still missing.
  lemma AddKeepsBuilding(blocks: seq<seq<KeyValue>>, handles: seq<Handle>, rest: seq<KeyValue>, index: seq<KeyValue>,
                         pending: bool, kv: KeyValue, sep: Bytes)
    requires Building(blocks, handles, rest, index, pending) && IsInternal(kv.key)
    requires |blocks| > 0 || rest != [] ==> IsInternal(LastKey(blocks, rest)) && KeyBefore(LastKey(blocks, rest), kv.key)
    requires pending ==> Separates(sep, blocks[|blocks| - 1], [kv])
    ensures var index' := if pending then index + [KeyValue(sep, EncodeHandle(handles[|blocks| - 1]))] else index;
      Building(blocks, handles, rest + [kv], index', false)
  {
    hide UserRank, Tag, EncodeHandle, KeyBefore, Precedes, BlockSorted, BlocksSorted, AtMost, Separates, LastKey;
    var rest' := rest + [kv];
    OneMoreEntry(blocks, rest, kv);
    var index' := if pending then index + [KeyValue(sep, EncodeHandle(handles[|blocks| - 1]))] else index;
    forall i | 0 <= i < |index'|
      ensures index'[i].value == EncodeHandle(handles[i]) && Separates(index'[i].key, blocks[i], NextOf(blocks, rest', i))
    {
      if i < |index| {
        assert Separates(index[i].key, blocks[i], NextOf(blocks, rest, i));
        if i + 1 == |blocks| { SeparatesStays(index[i].key, blocks[i], rest, kv); }
      } else {
        assert rest' == [kv];
      }
    }
  }

  lemma SeparatesStays(sep: Bytes, block: seq<KeyValue>, rest: seq<KeyValue>, kv: KeyValue)
    requires Separates(sep, block, rest) && rest != []
    ensures Separates(sep, block, rest + [kv])
  {
    hide UserRank, Tag, AtMost;
  }

  lemma OneMoreEntry(blocks: seq<seq<KeyValue>>, rest: seq<KeyValue>, kv: KeyValue)
    requires BlocksSorted(blocks) && BlockSorted(rest) && IsInternal(kv.key)
    requires forall i :: 0 <= i < |blocks| ==> Precedes(blocks[i], rest)
    requires |blocks| > 0 || rest != [] ==> IsInternal(LastKey(blocks, rest)) && KeyBefore(LastKey(blocks, rest), kv.key)
    ensures BlockSorted(rest + [kv]) && forall i :: 0 <= i < |blocks| ==> Precedes(blocks[i], rest + [kv])
  {
    hide UserRank, Tag, KeyBefore, LastKey, BlocksSorted, AtMost;
    if |blocks| > 0 || rest != [] {
      AllAtMostLast(blocks, rest);
      KeyGoesLast(rest, LastKey(blocks, rest), kv);
    }
    forall i | 0 <= i < |blocks| ensures Precedes(blocks[i], rest + [kv]) {
      assert Precedes(blocks[i], rest);
      KeyGoesLast(blocks[i], LastKey(blocks, rest), kv);
    }
  }

  lemma OneMoreBlock(blocks: seq<seq<KeyValue>>, rest: seq<KeyValue>)
    requires BlocksSorted(blocks) && BlockSorted(rest) && rest != [] && forall i :: 0 <= i < |blocks| ==> Precedes(blocks[i], rest)
    ensures BlocksSorted(blocks + [rest]) && BlockSorted([])
    ensures forall i :: 0 <= i < |blocks| + 1 ==> Precedes((blocks + [rest])[i], [])
  {
    hide BlockSorted, KeyBefore;
    NothingSorted();
    var all := blocks + [rest];
    forall i, j | 0 <= i < j < |all| ensures Precedes(all[i], all[j]) {
      hide Precedes;
      assert all[i] == blocks[i];
      assert j < |blocks| ==> all[j] == blocks[j];
    }
  }

  lemma NothingSorted()
    ensures BlockSorted([])
  {
  }

  lemma FlushKeepsBuilding(blocks: seq<seq<KeyValue>>, handles: seq<Handle>, rest: seq<KeyValue>, index: seq<KeyValue>, h: Handle)
    requires Building(blocks, handles, rest, index, false) && rest != []
    ensures Building(blocks + [rest], handles + [h], [], index, true)
  {
    hide UserRank, Tag, EncodeHandle, KeyBefore, Precedes, BlockSorted, BlocksSorted, AtMost;
    var blocks', handles' := blocks + [rest], handles + [h];
    OneMoreBlock(blocks, rest);
    forall i | 0 <= i < |index|
      ensures index[i].value == EncodeHandle(handles'[i]) && Separates(index[i].key, blocks'[i], NextOf(blocks', [], i))
    {
      assert Separates(index[i].key, blocks[i], NextOf(blocks, rest, i));
    }
  }

  function Seps(index: seq<KeyValue>): (r: seq<Bytes>)
    ensures |r| == |index|
  {
    seq(|index|, i requires 0 <= i < |index| => index[i].key)
  }

  // All blocks written and indexed: a complete layout.
  lemma BuiltIsLayout(blocks: seq<seq<KeyValue>>, handles: seq<Handle>, index: seq<KeyValue>, index': seq<KeyValue>, pending: bool, sep: Bytes)
    requires Building(blocks, handles, [], index, pending)
    requires pending ==> Separates(sep, blocks[|blocks| - 1], [])
    requires index' == if pending then index + [KeyValue(sep, EncodeHandle(handles[|blocks| - 1]))] else index
    ensures IsLayout(Layout(blocks, handles, Seps(index'))) && IndexEntries(Layout(blocks, handles, Seps(index'))) == index'
  {
    hide EncodeHandle, BlocksSorted, AtMost;
    var t := Layout(blocks, handles, Seps(index'));
    forall i | 0 <= i < |blocks| ensures Separates(t.seps[i], blocks[i], NextBlock(blocks, i)) && index'[i].value == EncodeHandle(handles[i]) {
      if i < |index| { assert Separates(index[i].key, blocks[i], NextOf(blocks, [], i)); }
    }
  }

  // Appending to the file leaves stored blocks where they are.
  lemma BlocksStayStored(file: Bytes, more: Bytes, blocks: seq<seq<KeyValue>>, handles: seq<Handle>, interval: nat)
    requires BlocksStored(file, blocks, handles, interval)
    ensures BlocksStored(file + more, blocks, handles, interval)
  {
    hide Stored, RawBlock;
    forall i | 0 <= i < |blocks| ensures Stored(file + more, handles[i], RawBlock(blocks[i], interval)) {
      StoredStays(file, more, handles[i], RawBlock(blocks[i], interval));
    }
  }

  class TableBuilder {
    const interval: nat
    const blockSize: nat
    const dataBlock: BlockBuilder
    const indexBlock: BlockBuilder
    const filterBlock: FilterBlock.FilterBlockBuilder?
    const filterName: Bytes      // filter_policy->Name()
    var file: Bytes              // its length is the offset
    var lastKey: Bytes
    var numEntries: nat
    var pendingIndexEntry: bool
    var pendingHandle: Handle
    ghost var blocks: seq<seq<KeyValue>>
    ghost var handles: seq<Handle>

    ghost predicate Valid() reads this, dataBlock, indexBlock, filterBlock {
      BlocksValid() && FilterValid()
    }

    ghost predicate BlocksValid() reads this, dataBlock, indexBlock {
      && dataBlock != indexBlock && dataBlock.Valid() && indexBlock.Valid()
      && dataBlock.interval == interval && indexBlock.interval == 1
      && BlocksStored(file, blocks, handles, interval)
      && Building(blocks, handles, dataBlock.added, indexBlock.added, pendingIndexEntry)
      && (pendingIndexEntry ==> pendingHandle == handles[|blocks| - 1])
      && lastKey == LastKey(blocks, dataBlock.added)
      && (numEntries == 0 <==> |blocks| == 0 && dataBlock.added == [])
    }

    ghost predicate FilterValid() reads this, dataBlock, filterBlock {
      filterBlock != null ==>
        && filterBlock.Valid()
        && FilterBehind(blocks, handles, dataBlock.added, filterBlock.slots, filterBlock.pending, |file|)
    }

    // Every entry added so far.
    ghost function Entries(): seq<seq<KeyValue>> reads this, dataBlock {
      blocks + (if dataBlock.added == [] then [] else [dataBlock.added])
    }

    constructor (interval: nat, blockSize: nat, policy: Option<FilterBlock.Policy>, filterName: Bytes)
      requires interval >= 1 && (policy.Some? ==> FilterBlock.PolicyOk(policy.value))
      ensures Valid() && Entries() == [] && fresh(dataBlock) && fresh(indexBlock)
      ensures this.interval == interval && this.filterName == filterName
      ensures if policy.Some? then filterBlock != null && fresh(filterBlock) && filterBlock.policy == policy.value
        else filterBlock == null
    {
      hide FilterBlock.FilterBlockBuilder.Valid, FilterBehind, Building, BlocksStored, BlockBuilder.Valid;
      this.interval, this.blockSize, this.filterName := interval, blockSize, filterName;
      dataBlock := new BlockBuilder(interval);
      indexBlock := new BlockBuilder(1);
      filterBlock := null;
      if policy.Some? { filterBlock := new FilterBlock.FilterBlockBuilder(policy.value); }
      file, lastKey, numEntries, pendingIndexEntry, pendingHandle := [], [], 0, false, Handle(0, 0);
      blocks, handles := [], [];
      new;
      NothingBuilt(interval);
      NothingBehind();
      if filterBlock != null { filterBlock.StartBlock(0); }
    }

    // A block and its trailer at the end of the file.
    method WriteRawBlock(contents: Bytes) returns (h: Handle)
      modifies this`file
      ensures file == old(file) + (contents + Trailer(contents))
      ensures h == Handle(|old(file)|, |contents|) && Stored(file, h, contents)
    {
      hide Crc32c.Mask, Crc32c.Extended, Crc32c.Value, BlockChecksum, EncodeFixed32;
      h := Handle(|file|, |contents|);
      var address: nat :| true;
      var crc := Crc32c.Extend(0, Bits(contents), address);
      ValueIsExtended(Bits(contents));
      crc := Crc32c.Extend(crc, [NO_COMPRESSION as bv8], address);
      ChecksumInParts(contents, NO_COMPRESSION);
      var trailer := [NO_COMPRESSION] + EncodeFixed32(Crc32c.Mask(crc) as int);
      assert trailer == Trailer(contents);
      file := file + (contents + trailer);
    }

    method Flush()
      requires Valid()
      modifies this, dataBlock, filterBlock
      ensures Valid() && dataBlock.added == [] && Entries() == old(Entries()) && |file| >= |old(file)|
      ensures pendingIndexEntry <==> |blocks| > 0
      ensures lastKey == old(lastKey) && numEntries == old(numEntries)
      ensures |file| <= |old(file)| + old(dataBlock.CurrentSizeEstimate()) + TRAILER_SIZE
    {
      hide BlocksStored, Building, BlockBuilder.Valid, FilterBlock.FilterBlockBuilder.Valid, FilterBehind;
      NotPending();
      dataBlock.EmptyIffNothingAdded();
      if dataBlock.Empty() { return; }
      ghost var rest := dataBlock.added;
      ghost var h := WriteDataBlock();
      StartFilter(rest, h);
    }

    // The block being filled goes to the end of the file.
    method WriteDataBlock() returns (ghost h: Handle)
      requires BlocksValid() && dataBlock.added != []
      modifies this, dataBlock
      ensures BlocksValid() && dataBlock.added == [] && pendingIndexEntry && |blocks| > 0
      ensures blocks == old(blocks) + [old(dataBlock.added)] && handles == old(handles) + [h] && h.offset == |old(file)|
      ensures |file| == EndOf(h) && lastKey == old(lastKey) && numEntries == old(numEntries)
      ensures |file| <= |old(file)| + old(dataBlock.CurrentSizeEstimate()) + TRAILER_SIZE
    {
      hide BlocksStored, Building, Stored, Trailer, RawBlock, BlockBuilder.Valid;
      NotPending();
      dataBlock.EstimateIsExact();
      ghost var rest := dataBlock.added;
      var raw := dataBlock.Finish();
      ghost var before := file;
      var handle := WriteRawBlock(raw);
      h := handle;
      BlocksStayStored(before, raw + Trailer(raw), blocks, handles, interval);
      StoredOneMore(file, blocks, handles, interval, rest, h);
      FlushKeepsBuilding(blocks, handles, rest, indexBlock.added, h);
      dataBlock.Reset();
      pendingIndexEntry, pendingHandle := true, handle;
      blocks, handles := blocks + [rest], handles + [h];
    }

    method StartFilter(ghost rest: seq<KeyValue>, ghost h: Handle)
      requires |blocks| > 0 && blocks[|blocks| - 1] == rest && |handles| == |blocks| && handles[|handles| - 1] == h
      requires dataBlock.added == [] && |file| == EndOf(h)
      requires filterBlock != null ==> filterBlock.Valid()
      requires filterBlock != null ==>
        FilterBehind(blocks[..|blocks| - 1], handles[..|blocks| - 1], rest, filterBlock.slots, filterBlock.pending, h.offset)
      modifies filterBlock
      ensures FilterValid()
    {
      hide FilterBlock.FilterBlockBuilder.Valid;
      if filterBlock != null {
        ghost var slots, pending := filterBlock.slots, filterBlock.pending;
        ghost var n := |blocks| - 1;
        BlockIsBehind(blocks[..n], handles[..n], rest, slots, pending, h);
        OneMoreHandle(handles[..n], h);
        assert blocks[..n] + [rest] == blocks && handles[..n] + [h] == handles;
        hide FilterBehind, Contiguous;
        SlotsUpTo(h.offset, |file|);
        filterBlock.StartBlock(|file|);
        StartedIsBehind(blocks, handles, slots, pending, filterBlock.slots, filterBlock.pending, |file|);
      }
    }

    // The block is written as soon as it has reached its size.
    method Add(key: Bytes, value: Bytes)
      requires Valid() && IsInternal(key) && |key| < TWO_TO_32 && |value| < TWO_TO_32 && |file| < TWO_TO_64
      requires numEntries > 0 ==> IsInternal(lastKey) && InternalLess(lastKey, key) && |lastKey| < TWO_TO_32
      modifies this, dataBlock, indexBlock, filterBlock
      ensures Valid() && Added(old(Entries()), Entries(), KeyValue(key, value)) && lastKey == key && numEntries > 0
      ensures var block := old(dataBlock.added) + [KeyValue(key, value)];
        if |RawBlock(block, interval)| >= blockSize then blocks == old(blocks) + [block] && dataBlock.added == []
        else blocks == old(blocks) && dataBlock.added == block
    {
      hide BlocksStored, Building, BlockBuilder.Valid, InternalLess, KeyBefore, BlocksSorted, Added, RawBlock;
      hide FilterBlock.FilterBlockBuilder.Valid, FilterBehind;
      ghost var kv := KeyValue(key, value);
      AddToFilter(key, kv);
      AddedAtEnd(blocks, dataBlock.added, kv);
      AddToBlock(key, value);
      dataBlock.EstimateIsExact();
      if dataBlock.CurrentSizeEstimate() >= blockSize {
        Flush();
      }
    }

    method AddToFilter(key: Bytes, ghost kv: KeyValue)
      requires FilterValid() && IsInternal(key) && kv.key == key
      modifies filterBlock
      ensures filterBlock != null ==> filterBlock.Valid()
      ensures filterBlock != null ==>
        FilterBehind(blocks, handles, dataBlock.added + [kv], filterBlock.slots, filterBlock.pending, |file|)
    {
      hide FilterBlock.FilterBlockBuilder.Valid, FilterBehind;
      if filterBlock != null {
        KeyIsBehind(blocks, handles, dataBlock.added, filterBlock.slots, filterBlock.pending, |file|, kv);
        filterBlock.AddKey(ExtractUserKey(key));
      }
    }

    // The entry joins the block being filled. If a block was just written, the
    // first key after it now tells how short its index key may be.
    method AddToBlock(key: Bytes, value: Bytes)
      requires BlocksValid() && IsInternal(key) && |key| < TWO_TO_32 && |value| < TWO_TO_32 && |file| < TWO_TO_64
      requires numEntries > 0 ==> IsInternal(lastKey) && InternalLess(lastKey, key) && |lastKey| < TWO_TO_32
      modifies this, dataBlock, indexBlock
      ensures BlocksValid() && dataBlock.added == old(dataBlock.added) + [KeyValue(key, value)]
      ensures file == old(file) && blocks == old(blocks) && handles == old(handles) && lastKey == key && numEntries > 0
    {
      hide BlocksStored, Building, BlockBuilder.Valid, InternalLess, KeyBefore, BlocksSorted;
      if numEntries > 0 { KeyOrder(lastKey, key); }
      ghost var rest, index, kv := dataBlock.added, indexBlock.added, KeyValue(key, value);
      ghost var sep := [];
      NotPending();
      if pendingIndexEntry {
        sep := lastKey;
        PendingHandleIsShort();
        lastKey := DbFormat.FindShortestSeparator(lastKey, key);
        SeparatorSeparates(blocks, sep, lastKey, kv);
        sep := lastKey;
        var encoded := EncodeHandle(pendingHandle);
        indexBlock.Add(lastKey, encoded);
      }
      AddKeepsBuilding(blocks, handles, rest, index, pendingIndexEntry, kv, sep);
      pendingIndexEntry := false;
      lastKey := key;
      numEntries := numEntries + 1;
      dataBlock.Add(key, value);
    }

    // The filter block, the last index entry, the index block and the footer.
    method Finish() returns (contents: Bytes, ghost t: Layout, ghost meta: Handle, ghost index: Handle, ghost f: Option<FilterInfo>)
      requires Valid() && |lastKey| < TWO_TO_32 && |filterName| < TWO_TO_32 - 7
      requires |file| + dataBlock.CurrentSizeEstimate() + TRAILER_SIZE < TWO_TO_64
      modifies this, dataBlock, indexBlock, filterBlock
      ensures t.blocks == old(Entries())
      ensures IsTableFile(contents, t, meta, index, interval) && HasMeta(contents, t.blocks, t.handles, meta, interval, f)
      ensures f == None <==> filterBlock == null
      ensures f.Some? ==> f.value.name == filterName && f.value.policy == filterBlock.policy
    {
      hide BlocksStored, Building, BlockBuilder.Valid, InternalLess, KeyBefore, BlocksSorted, IsLayout, Stored, Trailer, RawBlock, Footer;
      hide FilterBlock.FilterBlockBuilder.Valid, FilterBehind, MetaEntries, HasMeta;
      Flush();
      NotPending();
      ghost var entries, sep := indexBlock.added, [];
      if pendingIndexEntry {
        PendingHandleIsShort();
        var short := FindLastSeparator();
        sep := short;
        indexBlock.Add(short, EncodeHandle(pendingHandle));
      }
      BuiltIsLayout(blocks, handles, entries, indexBlock.added, pendingIndexEntry, sep);
      assert |handles| == |blocks|;
      t := Layout(blocks, handles, Seps(indexBlock.added));
      ghost var f0;
      var handle;
      handle, f0 := WriteFilter();
      f := f0;
      contents, meta, index := WriteTail(handle, t, f);
    }

    // The filter block at the end of the file, if there is one.
    method WriteFilter() returns (handle: Option<Handle>, ghost f: Option<FilterInfo>)
      requires FilterValid() && |handles| == |blocks| && BlocksStored(file, blocks, handles, interval)
      modifies this`file, filterBlock
      ensures BlocksStored(file, blocks, handles, interval)
      ensures (f == None <==> filterBlock == null) && (handle == None <==> filterBlock == null)
      ensures f.Some? ==> f.value.name == filterName && f.value.policy == filterBlock.policy && handle == Some(f.value.handle)
      ensures f.Some? ==> FilterStored(file, blocks, handles, f.value)
    {
      hide BlocksStored, Stored, Trailer, FilterBlock.FilterBlockBuilder.Valid, FilterBehind, Reported, FilterBlock.IsFilterBlock;
      handle, f := None, None;
      if filterBlock != null {
        ghost var slots, pending := filterBlock.slots, filterBlock.pending;
        var data := filterBlock.Finish();
        FinishedFilter(blocks, handles, dataBlock.added, slots, pending, filterBlock.slots, |file|);
        FilterBlock.FinishedIsFilterBlock(filterBlock, data);
        BuilderPolicyOk(filterBlock);
        ghost var before := file;
        var h := WriteRawBlock(data);
        BlocksStayStored(before, data + Trailer(data), blocks, handles, interval);
        handle := Some(h);
        f := Some(FilterInfo(filterName, filterBlock.policy, h, data, filterBlock.slots));
      }
    }

    method FindLastSeparator() returns (sep: Bytes)
      requires BlocksValid() && pendingIndexEntry
      ensures Separates(sep, blocks[|blocks| - 1], []) && |sep| <= |lastKey|
    {
      hide BlocksStored, BlockBuilder.Valid, InternalLess, BlocksSorted;
      NotPending();
      SortedWithNothing(blocks);
      LastIsInternal(blocks, []);
      sep := FindShortSuccessor(lastKey);
      LastSeparates(blocks, lastKey, sep);
    }

    // Metaindex block, index block and footer at the end of the file.
    method WriteTail(filterHandle: Option<Handle>, ghost t: Layout, ghost f: Option<FilterInfo>)
      returns (contents: Bytes, ghost meta: Handle, ghost index: Handle)
      requires IsLayout(t) && BlocksStored(file, t.blocks, t.handles, interval) && interval >= 1
      requires indexBlock.Valid() && indexBlock.interval == 1 && indexBlock.added == IndexEntries(t)
      requires if f.Some? then filterHandle == Some(f.value.handle) && f.value.name == filterName else filterHandle == None
      requires |filterName| < TWO_TO_32 - 7 && (f.Some? ==> FilterStored(file, t.blocks, t.handles, f.value))
      modifies this, indexBlock
      ensures IsTableFile(contents, t, meta, index, interval) && HasMeta(contents, t.blocks, t.handles, meta, interval, f)
    {
      hide BlocksStored, IsLayout, Stored, Trailer, RawBlock, Footer, IndexEntries, FilterStored, HasMeta;
      var rawMeta := MetaBlock(filterHandle, f);
      ghost var f0 := file;
      var metaHandle := WriteRawBlock(rawMeta);
      ghost var tail := rawMeta + Trailer(rawMeta);
      BlocksStayStored(f0, tail, t.blocks, t.handles, interval);
      var rawIndex := indexBlock.Finish();
      ghost var f1 := file;
      var indexHandle := WriteRawBlock(rawIndex);
      ghost var tail1 := rawIndex + Trailer(rawIndex);
      BlocksStayStored(f1, tail1, t.blocks, t.handles, interval);
      var footer := Footer(metaHandle, indexHandle);
      BlocksStayStored(file, footer, t.blocks, t.handles, interval);
      StoredStays(file, footer, indexHandle, rawIndex);
      StoredStays(f1, tail1, metaHandle, rawMeta);
      StoredStays(f1 + tail1, footer, metaHandle, rawMeta);
      if f.Some? {
        FilterStaysStored(f0, tail, t.blocks, t.handles, f.value);
        FilterStaysStored(f1, tail1, t.blocks, t.handles, f.value);
        FilterStaysStored(f1 + tail1, footer, t.blocks, t.handles, f.value);
      }
      file := file + footer;
      assert file[|file| - FOOTER_SIZE..] == footer;
      contents, meta, index := file, metaHandle, indexHandle;
      MetaIsThere(contents, t.blocks, t.handles, meta, interval, f);
    }

    method MetaBlock(filterHandle: Option<Handle>, ghost f: Option<FilterInfo>) returns (raw: Bytes)
      requires interval >= 1 && |filterName| < TWO_TO_32 - 7
      requires if f.Some? then filterHandle == Some(f.value.handle) && f.value.name == filterName else filterHandle == None
      ensures raw == RawBlock(MetaEntries(f), interval)
    {
      hide RawBlock, EncodeHandle;
      var metaBlock := new BlockBuilder(interval);
      if filterHandle.Some? {
        HandleBytesAreShort(filterHandle.value);
        metaBlock.Add(FILTER_PREFIX + filterName, HandleBytes(filterHandle.value));
      }
      assert metaBlock.added == MetaEntries(f);
      raw := metaBlock.Finish();
    }

    lemma PendingHandleIsShort()
      requires BlocksValid() && pendingIndexEntry && |file| < TWO_TO_64
      ensures |EncodeHandle(pendingHandle)| <= 20
    {
      hide RawBlock, Building, EncodeHandle;
      NotPending();
      var i := |blocks| - 1;
      assert Stored(file, handles[i], RawBlock(blocks[i], interval));
      var e := EncodeHandle(pendingHandle);
      assert e[0..|e|] == e;
      HandleRoundTrip(pendingHandle, e, 0);
    }

    lemma NotPending()
      requires BlocksValid()
      ensures pendingIndexEntry <==> |blocks| > 0 && dataBlock.added == []
      ensures |handles| == |blocks| && interval >= 1 && BlocksSorted(blocks)
    {
    }
  }

  lemma FilterStaysStored(file: Bytes, more: Bytes, blocks: seq<seq<KeyValue>>, handles: seq<Handle>, f: FilterInfo)
    requires FilterStored(file, blocks, handles, f)
    ensures FilterStored(file + more, blocks, handles, f)
  {
    hide Stored, Reported, FilterBlock.IsFilterBlock;
    StoredStays(file, more, f.handle, f.data);
  }

  lemma MetaIsThere(file: Bytes, blocks: seq<seq<KeyValue>>, handles: seq<Handle>, meta: Handle, interval: nat, f: Option<FilterInfo>)
    requires Stored(file, meta, RawBlock(MetaEntries(f), interval)) && (f.Some? ==> FilterStored(file, blocks, handles, f.value))
    ensures HasMeta(file, blocks, handles, meta, interval, f)
  {
    hide Stored, Reported, FilterBlock.IsFilterBlock;
  }

  lemma BuilderPolicyOk(builder: FilterBlock.FilterBlockBuilder)
    requires builder.Valid()
    ensures FilterBlock.PolicyOk(builder.policy)
  {
  }

  lemma ValueIsExtended(data: seq<bv8>)
    ensures Crc32c.Extended(0, data) == Crc32c.Value(data)
  {
  }

  lemma StoredOneMore(file: Bytes, blocks: seq<seq<KeyValue>>, handles: seq<Handle>, interval: nat, rest: seq<KeyValue>, h: Handle)
    requires BlocksStored(file, blocks, handles, interval) && Stored(file, h, RawBlock(rest, interval))
    ensures BlocksStored(file, blocks + [rest], handles + [h], interval)
  {
    hide Stored, RawBlock;
  }

  // The same entries in the same order, cut into blocks somehow, and one more.
  ghost predicate Added(before: seq<seq<KeyValue>>, after: seq<seq<KeyValue>>, kv: KeyValue) {
    || after == before + [[kv]]
    || (|before| > 0 && after == before[..|before| - 1] + [before[|before| - 1] + [kv]])
  }

  lemma SortedWithNothing(blocks: seq<seq<KeyValue>>)
    ensures BlockSorted([]) && forall i :: 0 <= i < |blocks| ==> Precedes(blocks[i], [])
  {
  }

  lemma LastSeparates(blocks: seq<seq<KeyValue>>, last: Bytes, sep: Bytes)
    requires |blocks| > 0 && BlocksSorted(blocks) && last == LastKey(blocks, []) && IsInternal(last) && IsInternal(sep)
    requires sep == last || InternalLess(last, sep)
    ensures Separates(sep, blocks[|blocks| - 1], [])
  {
    hide UserRank, Tag, InternalLess;
    SortedWithNothing(blocks);
    AllAtMostLast(blocks, []);
    KeyOrder(last, sep);
    assert AtMost(blocks[|blocks| - 1], last);
  }

  lemma AddedAtEnd(blocks: seq<seq<KeyValue>>, rest: seq<KeyValue>, kv: KeyValue)
    ensures Added(blocks + (if rest == [] then [] else [rest]), blocks + [rest + [kv]], kv)
  {
    assert rest == [] ==> rest + [kv] == [kv] && blocks + [] == blocks;
    assert rest != [] ==> (blocks + [rest])[..|blocks|] == blocks;
  }

  lemma SeparatorSeparates(blocks: seq<seq<KeyValue>>, last: Bytes, sep: Bytes, kv: KeyValue)
    requires |blocks| > 0 && BlocksSorted(blocks) && last == LastKey(blocks, []) && IsInternal(last) && IsInternal(kv.key)
    requires InternalLess(last, kv.key) && IsInternal(sep)
    requires sep == last || InternalLess(last, sep)
    requires sep == last || Comparator.Less(ExtractUserKey(sep), ExtractUserKey(kv.key))
    requires InternalLess(sep, kv.key)
    ensures Separates(sep, blocks[|blocks| - 1], [kv])
  {
    hide UserRank, Tag, InternalLess;
    NothingSorted();
    assert forall i :: 0 <= i < |blocks| ==> Precedes(blocks[i], []);
    AllAtMostLast(blocks, []);
    KeyOrder(last, sep);
    KeyOrder(sep, kv.key);
    SmallerUserKey(sep, kv.key);
    assert AtMost(blocks[|blocks| - 1], last);
  }

  lemma SmallerUserKey(a: Bytes, b: Bytes)
    requires IsInternal(a) && IsInternal(b)
    ensures Comparator.Less(ExtractUserKey(a), ExtractUserKey(b)) <==> UserRank(a) < UserRank(b)
  {
    Comparator.RankIsOrder(ExtractUserKey(a), ExtractUserKey(b));
  }
}
