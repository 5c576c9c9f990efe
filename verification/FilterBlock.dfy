// Filter blocks: one filter for every 2 KiB of file offsets.

module FilterBlock {
  import opened Coding
  import opened BlockFormat
  import Bloom

  const FILTER_BASE := 2048
  const FILTER_BASE_LG: Byte := 11

  // The filter policy: any number of probes and any 32-bit hash function.
  datatype Policy = Policy(bitsPerKey: nat, k: nat, hash: Bytes -> nat)

  ghost predicate PolicyOk(p: Policy) {
    1 <= p.k <= 30 && forall key :: p.hash(key) < TWO_TO_32
  }

  // The filter of these keys; no keys leave an empty one.
  ghost predicate IsFilter(p: Policy, filter: Bytes, keys: seq<Bytes>)
    requires PolicyOk(p)
  {
    if keys == [] then filter == [] else Bloom.IsFilter(keys, p.bitsPerKey, p.k, p.hash, filter)
  }

  function Flat(keys: seq<Bytes>): Bytes {
    if |keys| == 0 then [] else Flat(keys[..|keys| - 1]) + keys[|keys| - 1]
  }

  // Where slot i's filter lies: up to the next one, or to the end.
  function SlotEnd(offsets: seq<nat>, size: nat, i: nat): nat
    requires i < |offsets|
  {
    if i + 1 < |offsets| then offsets[i + 1] else size
  }

  ghost predicate SlotOk(p: Policy, filters: Bytes, offsets: seq<nat>, keys: seq<Bytes>, i: nat)
    requires PolicyOk(p) && i < |offsets|
  {
    && offsets[i] <= SlotEnd(offsets, |filters|, i) <= |filters|
    && IsFilter(p, filters[offsets[i]..SlotEnd(offsets, |filters|, i)], keys)
  }

  // ------------------------------------------------------ FilterBlockBuilder

  // From this slot on there are no keys.
  ghost predicate NoKeysFrom(slots: seq<seq<Bytes>>, n: nat) {
    forall i :: n <= i < |slots| ==> slots[i] == []
  }

  class FilterBlockBuilder {
    const policy: Policy
    var keys: Bytes              // keys of the filter to come, one after another
    var start: seq<nat>          // where each of them starts
    var filters: Bytes           // result_
    var filterOffsets: seq<nat>
    ghost var pending: seq<Bytes>
    ghost var slots: seq<seq<Bytes>>

    ghost predicate Valid() reads this {
      && PolicyOk(policy)
      && keys == Flat(pending) && |start| == |pending|
      && (forall i :: 0 <= i < |start| ==> start[i] == |Flat(pending[..i])|)
      && |slots| == |filterOffsets|
      && (forall i :: 0 <= i < |slots| ==> SlotOk(policy, filters, filterOffsets, slots[i], i))
    }

    constructor (policy: Policy)
      requires PolicyOk(policy)
      ensures Valid() && this.policy == policy && pending == [] && slots == []
    {
      this.policy := policy;
      keys, start, filters, filterOffsets, pending, slots := [], [], [], [], [], [];
    }

    // The keys so far become the filters of all slots before the block's; only
    // the first of them has keys.
    method StartBlock(blockOffset: nat)
      requires Valid() && |slots| <= blockOffset / FILTER_BASE
      modifies this
      ensures Valid() && |slots| == blockOffset / FILTER_BASE
      ensures if |old(slots)| == |slots| then slots == old(slots) && pending == old(pending)
        else pending == [] && old(slots) + [old(pending)] <= slots && NoKeysFrom(slots, |old(slots)| + 1)
    {
      var index := blockOffset / FILTER_BASE;
      while index > |filterOffsets|
        invariant Valid() && |slots| <= index
        invariant if |old(slots)| == |slots| then slots == old(slots) && pending == old(pending)
          else pending == [] && old(slots) + [old(pending)] <= slots && NoKeysFrom(slots, |old(slots)| + 1)
        decreases index - |filterOffsets|
      {
        GenerateFilter();
      }
    }

    method AddKey(key: Bytes)
      requires Valid()
      modifies this
      ensures Valid() && pending == old(pending) + [key] && slots == old(slots)
    {
      ghost var all := pending + [key];
      assert all[..|pending|] == pending;
      assert forall i :: 0 <= i < |pending| ==> all[..i] == pending[..i];
      start := start + [|keys|];
      keys := keys + key;
      pending := all;
    }

    // The keys of one block.
    method AddKeys(list: seq<Bytes>)
      requires Valid()
      modifies this
      ensures Valid() && pending == old(pending) + list && slots == old(slots)
    {
      hide Valid;
      var j := 0;
      while j < |list|
        invariant j <= |list| && Valid() && slots == old(slots) && pending == old(pending) + list[..j]
      {
        AddKey(list[j]);
        assert list[..j + 1] == list[..j] + [list[j]];
        j := j + 1;
      }
      assert list[..j] == list;
    }

    method GenerateFilter()
      requires Valid()
      modifies this
      ensures Valid() && pending == [] && slots == old(slots) + [old(pending)]
    {
      var n := |start|;
      if n == 0 {
        AddedSlot(policy, filters, filterOffsets, slots, [], []);
        filterOffsets := filterOffsets + [|filters|];
        slots := slots + [pending];
        return;
      }
      var list := CutKeys();
      var more := Bloom.CreateFilter(list, policy.bitsPerKey, policy.k, policy.hash, filters);
      AddedSlot(policy, filters, filterOffsets, slots, pending, more[|filters|..]);
      assert filters + more[|filters|..] == more;
      filterOffsets := filterOffsets + [|filters|];
      filters := more;
      slots := slots + [pending];
      keys, start, pending := [], [], [];
    }

    // The keys cut out of the flattened string again.
    method CutKeys() returns (list: seq<Bytes>)
      requires Valid()
      ensures list == pending
    {
      list := [];
      var bounds := start + [|keys|];
      var i := 0;
      while i < |start|
        invariant i <= |start| && list == pending[..i]
      {
        FlatBounds(pending, i);
        assert pending[..|pending|] == pending;
        list := list + [keys[bounds[i]..bounds[i + 1]]];
        i := i + 1;
      }
      assert pending[..i] == pending;
    }

    // All slots filled, then the offset array, its own offset, and the base.
    method Finish() returns (contents: Bytes)
      requires Valid()
      modifies this
      ensures Valid() && (if old(pending) == [] then slots == old(slots) else slots == old(slots) + [old(pending)])
      ensures contents == filters + Fixed32s(filterOffsets) + EncodeFixed32(|filters| % TWO_TO_32) + [FILTER_BASE_LG]
    {
      if |start| > 0 { GenerateFilter(); }
      contents := filters;
      var i := 0;
      while i < |filterOffsets|
        invariant i <= |filterOffsets| && contents == filters + Fixed32s(filterOffsets[..i])
      {
        assert filterOffsets[..i + 1][..i] == filterOffsets[..i];
        contents := contents + EncodeFixed32(filterOffsets[i] % TWO_TO_32);
        i := i + 1;
      }
      assert filterOffsets[..i] == filterOffsets;
      contents := contents + EncodeFixed32(|filters| % TWO_TO_32);
      contents := contents + [FILTER_BASE_LG];
    }
  }

  lemma {:induction false} FlatBounds(keys: seq<Bytes>, i: nat)
    requires i < |keys|
    ensures |Flat(keys[..i])| + |keys[i]| == |Flat(keys[..i + 1])| <= |Flat(keys)|
    ensures Flat(keys)[|Flat(keys[..i])|..|Flat(keys[..i + 1])|] == keys[i]
    decreases |keys| - i
  {
    FlatPrefix(keys, i + 1);
    assert keys[..i + 1][..i] == keys[..i];
    var upTo := Flat(keys[..i + 1]);
    assert upTo == Flat(keys[..i]) + keys[i];
    assert Flat(keys)[|Flat(keys[..i])|..|upTo|] == Flat(keys)[..|upTo|][|Flat(keys[..i])|..];
  }

  lemma {:induction false} FlatPrefix(keys: seq<Bytes>, i: nat)
    requires i <= |keys|
    ensures Flat(keys[..i]) <= Flat(keys)
  {
    if i == |keys| {
      assert keys[..i] == keys;
    } else {
      var front := keys[..|keys| - 1];
      FlatPrefix(front, i);
      assert front[..i] == keys[..i];
    }
  }

  // Appending a filter ends the previous slot and keeps all others.
  lemma AddedSlot(p: Policy, filters: Bytes, offsets: seq<nat>, slots: seq<seq<Bytes>>, keys: seq<Bytes>, filter: Bytes)
    requires PolicyOk(p) && |slots| == |offsets|
    requires forall i :: 0 <= i < |slots| ==> SlotOk(p, filters, offsets, slots[i], i)
    requires IsFilter(p, filter, keys)
    ensures var slots', offsets' := slots + [keys], offsets + [|filters|];
      forall i :: 0 <= i < |slots'| ==> SlotOk(p, filters + filter, offsets', slots'[i], i)
  {
    var slots', offsets', filters' := slots + [keys], offsets + [|filters|], filters + filter;
    assert filters'[|filters|..|filters'|] == filter;
    forall i | 0 <= i < |slots| ensures SlotOk(p, filters', offsets', slots[i], i) {
      assert SlotOk(p, filters, offsets, slots[i], i);
      assert SlotEnd(offsets', |filters'|, i) == SlotEnd(offsets, |filters|, i);
      assert filters'[offsets[i]..SlotEnd(offsets, |filters|, i)] == filters[offsets[i]..SlotEnd(offsets, |filters|, i)];
    }
  }

  // ------------------------------------------------------- FilterBlockReader

  function ShiftRight(v: nat, n: nat): nat {
    if n == 0 then v else ShiftRight(v / 2, n - 1)
  }

  lemma {:induction false} ShiftIsDivision(v: nat, n: nat, q: nat, r: nat)
    requires v == q * Bloom.Pow2(n) + r && r < Bloom.Pow2(n)
    ensures ShiftRight(v, n) == q
  {
    if n > 0 {
      var m := q * Bloom.Pow2(n - 1);
      assert q * Bloom.Pow2(n) == 2 * m;
      ShiftIsDivision(v / 2, n - 1, q, r / 2);
    }
  }

  class FilterBlockReader {
    const policy: Policy
    const contents: Bytes
    const arrayOffset: nat       // offset_ - data_
    const num: nat
    const baseLg: nat

    // What the constructor read from the end of the block.
    predicate Valid() {
      var n := |contents|;
      if n < 5 || DecodeFixed32(contents[n - 5..n - 1]) > n - 5 then num == 0
      else
        && arrayOffset == DecodeFixed32(contents[n - 5..n - 1])
        && num == (n - 5 - arrayOffset) / 4 && baseLg == contents[n - 1] as nat
    }

    constructor (policy: Policy, contents: Bytes)
      ensures Valid() && this.policy == policy && this.contents == contents
    {
      this.policy, this.contents := policy, contents;
      var n := |contents|;
      arrayOffset, num, baseLg := 0, 0, 0;
      if n >= 5 {
        var lastWord := DecodeFixed32(contents[n - 5..n - 1]);
        if lastWord <= n - 5 {
          arrayOffset, num, baseLg := lastWord, (n - 5 - lastWord) / 4, contents[n - 1] as nat;
        }
      }
    }

    function SlotOf(blockOffset: nat): nat {
      ShiftRight(blockOffset, baseLg)
    }

    function OffsetAt(i: nat): nat
      requires arrayOffset + 4 * i + 4 <= |contents|
    {
      DecodeFixed32(contents[arrayOffset + 4 * i..arrayOffset + 4 * i + 4])
    }

    lemma SlotsFitAt(i: nat)
      requires Valid()
      ensures i < num ==> arrayOffset + 4 * i + 8 <= |contents|
    {
      hide DecodeFixed32;
    }

    // Errors are treated as potential matches, empty filters match nothing.
    ghost predicate SlotMatches(i: nat, key: Bytes)
      requires Valid() && PolicyOk(policy)
    {
      SlotsFitAt(i);
      i < num ==>
        var start, limit := OffsetAt(i), OffsetAt(i + 1);
        if start <= limit <= arrayOffset then Bloom.Matches(policy.hash(key), contents[start..limit]) else start != limit
    }

    method KeyMayMatch(blockOffset: nat, key: Bytes) returns (r: bool)
      requires Valid() && PolicyOk(policy)
      ensures r <==> SlotMatches(SlotOf(blockOffset), key)
    {
      hide SlotOf, OffsetAt, Bloom.Matches;
      var index := SlotOf(blockOffset);
      SlotsFitAt(index);
      if index < num {
        var start, limit := OffsetAt(index), OffsetAt(index + 1);
        if start <= limit <= arrayOffset {
          r := Bloom.KeyMayMatch(policy.hash(key), contents[start..limit]);
          return;
        } else if start == limit {
          return false;
        }
      }
      r := true;
    }
  }

  // ------------------------------------------------- no false negatives

  // What a finished filter block looks like.
  ghost predicate IsLayout(p: Policy, contents: Bytes, slots: seq<seq<Bytes>>, filters: Bytes, offsets: seq<nat>)
    requires PolicyOk(p)
  {
    && |slots| == |offsets| && |filters| < TWO_TO_32
    && (forall i :: 0 <= i < |slots| ==> SlotOk(p, filters, offsets, slots[i], i))
    && contents == filters + Fixed32s(offsets) + EncodeFixed32(|filters|) + [FILTER_BASE_LG]
  }

  ghost predicate IsFilterBlock(p: Policy, contents: Bytes, slots: seq<seq<Bytes>>)
    requires PolicyOk(p)
  {
    exists filters, offsets :: IsLayout(p, contents, slots, filters, offsets)
  }

  lemma FourParts(a: Bytes, b: Bytes, c: Bytes, d: Bytes)
    ensures var all := a + b + c + d;
      && all[..|a|] == a && all[|a|..|a| + |b|] == b
      && all[|a| + |b|..|a| + |b| + |c|] == c && all[|a| + |b| + |c|..] == d
  {
  }

  lemma LastOf(front: Bytes, last: Byte)
    ensures (front + [last])[|front|] == last
  {
  }

  lemma LayoutParts(filters: Bytes, words: Bytes, size: Bytes, last: Byte, contents: Bytes, m: nat)
    requires |size| == 4 && contents == filters + words + size + [last] && m == |filters| + |words|
    ensures |contents| == m + 5 && contents[m + 4] == last && contents[..|filters|] == filters
    ensures contents[|filters|..m] == words && contents[m..m + 4] == size
  {
    FourParts(filters, words, size, [last]);
    LastOf(filters + words + size, last);
  }

  lemma Layout(filters: Bytes, offsets: seq<nat>, size: Bytes, contents: Bytes)
    requires |size| == 4 && contents == filters + Fixed32s(offsets) + size + [FILTER_BASE_LG]
    ensures var n, m := |contents|, |filters| + 4 * |offsets|;
      && n == m + 5 && contents[n - 1] == FILTER_BASE_LG && contents[..|filters|] == filters
      && contents[|filters|..m] == Fixed32s(offsets) && contents[m..m + 4] == size
  {
    hide Fixed32s;
    LayoutParts(filters, Fixed32s(offsets), size, FILTER_BASE_LG, contents, |filters| + 4 * |offsets|);
  }

  lemma FinishedLayout(filters: Bytes, offsets: seq<nat>, contents: Bytes)
    requires |filters| < TWO_TO_32
    requires contents == filters + Fixed32s(offsets) + EncodeFixed32(|filters|) + [FILTER_BASE_LG]
    ensures var n, m := |contents|, |filters| + 4 * |offsets|;
      && n == m + 5 && contents[n - 1] == FILTER_BASE_LG && contents[..|filters|] == filters
      && contents[|filters|..m] == Fixed32s(offsets) && DecodeFixed32(contents[m..m + 4]) == |filters|
  {
    hide EncodeFixed32, DecodeFixed32, Fixed32s;
    Layout(filters, offsets, EncodeFixed32(|filters|), contents);
    Fixed32RoundTrip(|filters|);
  }

  lemma Nested(c: Bytes, from: nat, to: nat, a: nat, b: nat)
    requires from <= to <= |c| && a <= b <= to - from
    ensures c[from..to][a..b] == c[from + a..from + b]
  {
    var x, y := c[from..to][a..b], c[from + a..from + b];
    assert forall k :: 0 <= k < |x| ==> x[k] == c[from..to][a + k] == y[k];
  }

  // The reader finds the offsets the builder recorded.
  lemma OffsetIsRead(reader: FilterBlockReader, filters: Bytes, offsets: seq<nat>, i: nat)
    requires |filters| < TWO_TO_32 && i < |offsets| && offsets[i] <= |filters|
    requires reader.contents == filters + Fixed32s(offsets) + EncodeFixed32(|filters|) + [FILTER_BASE_LG]
    requires reader.arrayOffset == |filters|
    ensures reader.arrayOffset + 4 * i + 8 <= |reader.contents|
    ensures reader.OffsetAt(i) == offsets[i]
  {
    hide EncodeFixed32, DecodeFixed32, Fixed32s;
    FinishedLayout(filters, offsets, reader.contents);
    Fixed32At(offsets, i);
    Fixed32RoundTrip(offsets[i]);
    Nested(reader.contents, |filters|, |filters| + 4 * |offsets|, 4 * i, 4 * i + 4);
  }

  lemma OffsetsAreRead(reader: FilterBlockReader, filters: Bytes, offsets: seq<nat>, i: nat)
    requires |filters| < TWO_TO_32 && i < |offsets| && (forall j :: 0 <= j < |offsets| ==> offsets[j] <= |filters|)
    requires reader.contents == filters + Fixed32s(offsets) + EncodeFixed32(|filters|) + [FILTER_BASE_LG]
    requires reader.arrayOffset == |filters|
    ensures reader.arrayOffset + 4 * i + 8 <= |reader.contents|
    ensures reader.OffsetAt(i) == offsets[i] && reader.OffsetAt(i + 1) == SlotEnd(offsets, |filters|, i)
  {
    hide EncodeFixed32, DecodeFixed32, Fixed32s;
    OffsetIsRead(reader, filters, offsets, i);
    if i + 1 < |offsets| {
      OffsetIsRead(reader, filters, offsets, i + 1);
    } else {
      FinishedLayout(filters, offsets, reader.contents);
    }
  }

  // A key of a slot's filter matches in that slot.
  lemma SlotKeysMatch(reader: FilterBlockReader, slots: seq<seq<Bytes>>, i: nat, j: nat)
    requires PolicyOk(reader.policy) && IsFilterBlock(reader.policy, reader.contents, slots)
    requires i < |slots| && j < |slots[i]|
    requires reader.Valid()
    ensures reader.SlotMatches(i, slots[i][j])
  {
    hide EncodeFixed32, DecodeFixed32, Fixed32s, Bloom.Matches;
    var p, c := reader.policy, reader.contents;
    var filters, offsets :| IsLayout(p, c, slots, filters, offsets);
    FinishedLayout(filters, offsets, c);
    forall k | 0 <= k < |offsets| ensures offsets[k] <= |filters| { assert SlotOk(p, filters, offsets, slots[k], k); }
    OffsetsAreRead(reader, filters, offsets, i);
    assert SlotOk(p, filters, offsets, slots[i], i);
    var filter := filters[offsets[i]..SlotEnd(offsets, |filters|, i)];
    assert c[offsets[i]..SlotEnd(offsets, |filters|, i)] == filter;
    Bloom.KeysMatch(slots[i], p.bitsPerKey, p.k, p.hash, filter);
  }

  // A data block as the table builder reports it: its size in the file, and
  // the keys added while it was filled.
  datatype BlockKeys = BlockKeys(size: nat, keys: seq<Bytes>)

  function BlockOffset(blocks: seq<BlockKeys>, i: nat): nat
    requires i <= |blocks|
  {
    if i == 0 then 0 else BlockOffset(blocks, i - 1) + blocks[i - 1].size
  }

  lemma {:induction false} OffsetsGrow(blocks: seq<BlockKeys>, i: nat, n: nat)
    requires i <= n <= |blocks|
    ensures BlockOffset(blocks, i) <= BlockOffset(blocks, n)
    decreases n
  {
    if i < n { OffsetsGrow(blocks, i, n - 1); }
  }

  // The keys of block i are in the slot of its offset, once it is generated.
  ghost predicate PlacedAt(blocks: seq<BlockKeys>, i: nat, slots: seq<seq<Bytes>>, pending: seq<Bytes>)
    requires i < |blocks|
  {
    var slot := BlockOffset(blocks, i) / FILTER_BASE;
    && slot <= |slots|
    && forall k :: 0 <= k < |blocks[i].keys| ==> blocks[i].keys[k] in if slot < |slots| then slots[slot] else pending
  }

  ghost predicate Placed(blocks: seq<BlockKeys>, n: nat, slots: seq<seq<Bytes>>, pending: seq<Bytes>)
    requires n <= |blocks|
  {
    forall i :: 0 <= i < n ==> PlacedAt(blocks, i, slots, pending)
  }

  lemma PlacedNext(blocks: seq<BlockKeys>, n: nat, slots: seq<seq<Bytes>>, pending: seq<Bytes>)
    requires n < |blocks| && Placed(blocks, n, slots, pending) && |slots| == BlockOffset(blocks, n) / FILTER_BASE
    ensures Placed(blocks, n + 1, slots, pending + blocks[n].keys)
  {
    forall i | 0 <= i < n ensures PlacedAt(blocks, i, slots, pending + blocks[n].keys) {
      assert PlacedAt(blocks, i, slots, pending);
    }
  }

  lemma PlacedNothing(blocks: seq<BlockKeys>)
    ensures Placed(blocks, 0, [], [])
  {
  }

  lemma FinishedIsFilterBlock(builder: FilterBlockBuilder, contents: Bytes)
    requires builder.Valid()
    requires contents == builder.filters + Fixed32s(builder.filterOffsets) + EncodeFixed32(|builder.filters| % TWO_TO_32) + [FILTER_BASE_LG]
    ensures |contents| < TWO_TO_32 ==> IsFilterBlock(builder.policy, contents, builder.slots)
  {
    hide Flat, SlotOk, Fixed32s, EncodeFixed32;
    assert |contents| < TWO_TO_32 ==> IsLayout(builder.policy, contents, builder.slots, builder.filters, builder.filterOffsets);
  }

  // Generating filters moves the pending keys into the first new slot.
  lemma PlacedAfter(blocks: seq<BlockKeys>, n: nat, slots: seq<seq<Bytes>>, pending: seq<Bytes>,
                    slots': seq<seq<Bytes>>, pending': seq<Bytes>)
    requires n <= |blocks| && Placed(blocks, n, slots, pending)
    requires (slots' == slots && (pending' == pending || pending == [])) || slots + [pending] <= slots'
    ensures Placed(blocks, n, slots', pending')
  {
    forall i | 0 <= i < n ensures PlacedAt(blocks, i, slots', pending') {
      assert PlacedAt(blocks, i, slots, pending);
      assert slots + [pending] <= slots' ==> slots'[|slots|] == pending;
    }
  }

  // The table builder's calls for any sequence of blocks, however many share
  // a slot or skip some.
  method BuildFilterBlock(policy: Policy, blocks: seq<BlockKeys>) returns (contents: Bytes, ghost slots: seq<seq<Bytes>>)
    requires PolicyOk(policy)
    ensures |contents| < TWO_TO_32 ==> IsFilterBlock(policy, contents, slots)
    ensures Placed(blocks, |blocks|, slots, [])
  {
    hide Placed, FilterBlockBuilder.Valid, Fixed32s;
    PlacedNothing(blocks);
    var builder := new FilterBlockBuilder(policy);
    builder.StartBlock(0);
    var offset, i := 0, 0;
    while i < |blocks|
      invariant i <= |blocks| && builder.Valid() && builder.policy == policy && offset == BlockOffset(blocks, i)
      invariant |builder.slots| == offset / FILTER_BASE
      invariant Placed(blocks, i, builder.slots, builder.pending)
    {
      ghost var slots0, pending0 := builder.slots, builder.pending;
      builder.AddKeys(blocks[i].keys);
      PlacedNext(blocks, i, slots0, pending0);
      ghost var slots1, pending1 := builder.slots, builder.pending;
      offset := offset + blocks[i].size;
      i := i + 1;
      builder.StartBlock(offset);
      PlacedAfter(blocks, i, slots1, pending1, builder.slots, builder.pending);
    }
    ghost var slots1, pending1 := builder.slots, builder.pending;
    contents := builder.Finish();
    slots := builder.slots;
    FinishedIsFilterBlock(builder, contents);
    PlacedAfter(blocks, |blocks|, slots1, pending1, slots, []);
  }

  lemma BaseIsRead(reader: FilterBlockReader, slots: seq<seq<Bytes>>)
    requires PolicyOk(reader.policy) && IsFilterBlock(reader.policy, reader.contents, slots) && reader.Valid()
    ensures reader.baseLg == 11
  {
    hide DecodeFixed32, EncodeFixed32, Fixed32s, SlotOk;
    var filters, offsets :| IsLayout(reader.policy, reader.contents, slots, filters, offsets);
    FinishedLayout(filters, offsets, reader.contents);
  }

  // No false negatives, end to end: asking for any key at the offset of the
  // block it was added for says it may be there.
  lemma KeysMayMatch(reader: FilterBlockReader, blocks: seq<BlockKeys>, slots: seq<seq<Bytes>>, i: nat, k: nat)
    requires PolicyOk(reader.policy) && IsFilterBlock(reader.policy, reader.contents, slots)
    requires Placed(blocks, |blocks|, slots, []) && i < |blocks| && k < |blocks[i].keys|
    requires reader.Valid()
    ensures reader.SlotMatches(reader.SlotOf(BlockOffset(blocks, i)), blocks[i].keys[k])
  {
    assert PlacedAt(blocks, i, slots, []);
    BaseIsRead(reader, slots);
    assert Bloom.Pow2(11) == 2048;
    ShiftIsDivision(BlockOffset(blocks, i), 11, BlockOffset(blocks, i) / FILTER_BASE, BlockOffset(blocks, i) % FILTER_BASE);
    var slot, key := BlockOffset(blocks, i) / FILTER_BASE, blocks[i].keys[k];
    assert slot < |slots| && key in slots[slot];
    var j :| 0 <= j < |slots[slot]| && slots[slot][j] == key;
    SlotKeysMatch(reader, slots, slot, j);
  }

  // Build a filter block, read it, and ask for a key of a block.
  method BuildAndAsk(policy: Policy, blocks: seq<BlockKeys>, i: nat, k: nat) returns (r: bool, size: nat)
    requires PolicyOk(policy) && i < |blocks| && k < |blocks[i].keys|
    ensures size < TWO_TO_32 ==> r
  {
    var contents, slots := BuildFilterBlock(policy, blocks);
    size := |contents|;
    var reader := new FilterBlockReader(policy, contents);
    r := reader.KeyMayMatch(BlockOffset(blocks, i), blocks[i].keys[k]);
    if size < TWO_TO_32 {
      KeysMayMatch(reader, blocks, slots, i, k);
    }
  }
}
