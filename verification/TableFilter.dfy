// The filter block that is built along with a table: why a lookup may rely on
// what it says.

module TableFilters {
  import opened Wrappers
  import opened Coding
  import opened BlockFormat
  import opened DbFormat
  import opened TableFormat
  import opened FilterBlock

  // The blocks follow one another from the start of the file, each with its
  // trailer.
  ghost predicate Contiguous(handles: seq<Handle>, end: nat) {
    && (forall i :: 0 <= i < |handles| ==> FollowsOn(handles, i))
    && end == if |handles| == 0 then 0 else EndOf(handles[|handles| - 1])
  }

  predicate FollowsOn(handles: seq<Handle>, i: nat)
    requires i < |handles|
  {
    handles[i].offset == if i == 0 then 0 else EndOf(handles[i - 1])
  }

  function EndOf(h: Handle): nat {
    h.offset + h.size + TRAILER_SIZE
  }

  // InternalFilterPolicy: the filter is made of the user keys.
  function UserKeys(block: seq<KeyValue>): (r: seq<Bytes>)
    requires forall n :: 0 <= n < |block| ==> IsInternal(block[n].key)
    ensures |r| == |block| && forall n :: 0 <= n < |block| ==> r[n] == ExtractUserKey(block[n].key)
  {
    seq(|block|, n requires 0 <= n < |block| => ExtractUserKey(block[n].key))
  }

  ghost predicate KeysAreInternal(blocks: seq<seq<KeyValue>>) {
    forall i, n :: 0 <= i < |blocks| && 0 <= n < |blocks[i]| ==> IsInternal(blocks[i][n].key)
  }

  // What the builder reports to its filter block, block by block.
  function FilterKeys(blocks: seq<seq<KeyValue>>, handles: seq<Handle>): (r: seq<BlockKeys>)
    requires |handles| == |blocks| && KeysAreInternal(blocks)
    ensures |r| == |blocks|
    ensures forall i :: 0 <= i < |r| ==> r[i] == BlockKeys(handles[i].size + TRAILER_SIZE, UserKeys(blocks[i]))
  {
    seq(|blocks|, i requires 0 <= i < |blocks| => BlockKeys(handles[i].size + TRAILER_SIZE, UserKeys(blocks[i])))
  }

  // Every block was reported, and its keys are in the slot of its offset.
  ghost predicate Reported(blocks: seq<seq<KeyValue>>, handles: seq<Handle>, slots: seq<seq<Bytes>>) {
    && |handles| == |blocks| && KeysAreInternal(blocks) && (exists end :: Contiguous(handles, end))
    && Placed(FilterKeys(blocks, handles), |blocks|, slots, [])
  }

  // The reader of a filter block that was built along with the table.
  ghost predicate FilterOf(blocks: seq<seq<KeyValue>>, handles: seq<Handle>, filter: FilterBlockReader, slots: seq<seq<Bytes>>) {
    && Reported(blocks, handles, slots)
    && filter.Valid() && PolicyOk(filter.policy) && IsFilterBlock(filter.policy, filter.contents, slots)
  }

  lemma {:induction false} ReportedOffset(blocks: seq<seq<KeyValue>>, handles: seq<Handle>, i: nat)
    requires |handles| == |blocks| && KeysAreInternal(blocks) && (exists end :: Contiguous(handles, end)) && i <= |blocks|
    ensures BlockOffset(FilterKeys(blocks, handles), i) == if i == 0 then 0 else EndOf(handles[i - 1])
  {
    if i > 0 {
      ReportedOffset(blocks, handles, i - 1);
      assert FollowsOn(handles, i - 1);
    }
  }

  // It never refuses a user key that the block holds.
  lemma NoFalseNegatives(blocks: seq<seq<KeyValue>>, handles: seq<Handle>, filter: FilterBlockReader, slots: seq<seq<Bytes>>,
                         target: Bytes, i: nat, n: nat)
    requires FilterOf(blocks, handles, filter, slots) && i < |blocks| && n < |blocks[i]| && IsInternal(target)
    ensures HasUserKey(blocks[i][n].key, target) ==>
      filter.SlotMatches(filter.SlotOf(handles[i].offset), ExtractUserKey(target))
  {
    hide Placed, IsFilterBlock, FilterBlockReader.SlotMatches, FilterBlockReader.SlotOf;
    ReportedOffset(blocks, handles, i);
    assert FollowsOn(handles, i);
    KeysMayMatch(filter, FilterKeys(blocks, handles), slots, i, n);
  }

  predicate HasUserKey(key: Bytes, target: Bytes)
    requires IsInternal(target)
  {
    IsInternal(key) && ExtractUserKey(key) == ExtractUserKey(target)
  }

  lemma FilterIsUsable(blocks: seq<seq<KeyValue>>, handles: seq<Handle>, filter: FilterBlockReader, slots: seq<seq<Bytes>>)
    requires FilterOf(blocks, handles, filter, slots)
    ensures filter.Valid() && PolicyOk(filter.policy)
  {
  }

  // ------------------------------------------------------- the metaindex

  const FILTER_PREFIX: Bytes := [0x66, 0x69, 0x6c, 0x74, 0x65, 0x72, 0x2e]   // "filter."

  // A filter block in a table file: the name and parameters of its policy, where
  // it is stored, and its bytes.
  datatype FilterInfo = FilterInfo(name: Bytes, policy: Policy, handle: Handle, data: Bytes, slots: seq<seq<Bytes>>)

  // Offsets and sizes have 64 bits.
  function HandleBytes(h: Handle): Bytes {
    EncodeHandle(Handle(h.offset % TWO_TO_64, h.size % TWO_TO_64))
  }

  function MetaEntries(f: Option<FilterInfo>): seq<KeyValue> {
    if f == None then [] else [KeyValue(FILTER_PREFIX + f.value.name, HandleBytes(f.value.handle))]
  }

  lemma HandleBytesAreShort(h: Handle)
    ensures |HandleBytes(h)| <= 20
  {
    var short := Handle(h.offset % TWO_TO_64, h.size % TWO_TO_64);
    var e := EncodeHandle(short);
    assert e[0..|e|] == e;
    HandleRoundTrip(short, e, 0);
  }

  ghost predicate FilterStored(file: Bytes, blocks: seq<seq<KeyValue>>, handles: seq<Handle>, f: FilterInfo) {
    && Stored(file, f.handle, f.data) && Reported(blocks, handles, f.slots) && PolicyOk(f.policy)
    && (|f.data| < TWO_TO_32 ==> IsFilterBlock(f.policy, f.data, f.slots))
  }

  // The metaindex block leads to the filter block, if there is one.
  ghost predicate HasMeta(file: Bytes, blocks: seq<seq<KeyValue>>, handles: seq<Handle>, meta: Handle, interval: nat,
                          f: Option<FilterInfo>)
  {
    && Stored(file, meta, RawBlock(MetaEntries(f), interval))
    && (f.Some? ==> FilterStored(file, blocks, handles, f.value))
  }

  // ------------------------------------------------- while the table is built

  // The filter block has the user keys of all blocks written, and of the block
  // being filled.
  ghost predicate FilterBehind(blocks: seq<seq<KeyValue>>, handles: seq<Handle>, rest: seq<KeyValue>,
                               slots: seq<seq<Bytes>>, pending: seq<Bytes>, offset: nat)
  {
    && |handles| == |blocks| && KeysAreInternal(blocks) && Contiguous(handles, offset)
    && |slots| == offset / FILTER_BASE && Placed(FilterKeys(blocks, handles), |blocks|, slots, pending)
    && forall n :: 0 <= n < |rest| ==> IsInternal(rest[n].key) && ExtractUserKey(rest[n].key) in pending
  }

  lemma NothingBehind()
    ensures FilterBehind([], [], [], [], [], 0)
  {
  }

  lemma KeyIsBehind(blocks: seq<seq<KeyValue>>, handles: seq<Handle>, rest: seq<KeyValue>, slots: seq<seq<Bytes>>,
                    pending: seq<Bytes>, offset: nat, kv: KeyValue)
    requires FilterBehind(blocks, handles, rest, slots, pending, offset) && IsInternal(kv.key)
    ensures FilterBehind(blocks, handles, rest + [kv], slots, pending + [ExtractUserKey(kv.key)], offset)
  {
    var all := FilterKeys(blocks, handles);
    forall i | 0 <= i < |all| ensures PlacedAt(all, i, slots, pending + [ExtractUserKey(kv.key)]) {
      assert PlacedAt(all, i, slots, pending);
    }
  }

  lemma OneMoreHandle(handles: seq<Handle>, h: Handle)
    requires Contiguous(handles, h.offset)
    ensures Contiguous(handles + [h], EndOf(h))
  {
    var all := handles + [h];
    forall i | 0 <= i < |all| ensures FollowsOn(all, i) {
      assert i < |handles| ==> FollowsOn(handles, i);
    }
  }

  // A block was written; its keys are still pending.
  lemma BlockIsBehind(blocks: seq<seq<KeyValue>>, handles: seq<Handle>, rest: seq<KeyValue>, slots: seq<seq<Bytes>>,
                      pending: seq<Bytes>, h: Handle)
    requires FilterBehind(blocks, handles, rest, slots, pending, h.offset)
    ensures KeysAreInternal(blocks + [rest])
    ensures Placed(FilterKeys(blocks + [rest], handles + [h]), |blocks| + 1, slots, pending)
  {
    hide Placed, Contiguous;
    var blocks', handles' := blocks + [rest], handles + [h];
    assert forall i :: 0 <= i < |blocks'| ==> blocks'[i] == if i < |blocks| then blocks[i] else rest;
    OneMoreHandle(handles, h);
    var all, all' := FilterKeys(blocks, handles), FilterKeys(blocks', handles');
    forall i | 0 <= i < |all'| ensures PlacedAt(all', i, slots, pending) {
      ReportedOffset(blocks', handles', i);
      if i < |blocks| {
        ReportedOffset(blocks, handles, i);
        IsPlaced(all, slots, pending, i);
        assert all'[i] == all[i];
      } else {
        EndIsOffset(handles, h.offset);
        assert all'[i].keys == UserKeys(rest);
      }
    }
    AllPlaced(all', slots, pending);
  }

  lemma EndIsOffset(handles: seq<Handle>, end: nat)
    requires Contiguous(handles, end)
    ensures end == if |handles| == 0 then 0 else EndOf(handles[|handles| - 1])
  {
  }

  lemma IsPlaced(all: seq<BlockKeys>, slots: seq<seq<Bytes>>, pending: seq<Bytes>, i: nat)
    requires i < |all| && Placed(all, |all|, slots, pending)
    ensures PlacedAt(all, i, slots, pending)
  {
  }

  lemma AllPlaced(all: seq<BlockKeys>, slots: seq<seq<Bytes>>, pending: seq<Bytes>)
    requires forall i :: 0 <= i < |all| ==> PlacedAt(all, i, slots, pending)
    ensures Placed(all, |all|, slots, pending)
  {
  }

  lemma SlotsUpTo(offset: nat, end: nat)
    requires offset <= end
    ensures offset / FILTER_BASE <= end / FILTER_BASE
  {
  }

  // The next block starts.
  lemma StartedIsBehind(blocks: seq<seq<KeyValue>>, handles: seq<Handle>, slots: seq<seq<Bytes>>, pending: seq<Bytes>,
                        slots': seq<seq<Bytes>>, pending': seq<Bytes>, offset: nat)
    requires |handles| == |blocks| && KeysAreInternal(blocks) && Contiguous(handles, offset)
    requires Placed(FilterKeys(blocks, handles), |blocks|, slots, pending) && |slots'| == offset / FILTER_BASE
    requires if |slots| == |slots'| then slots' == slots && pending' == pending else slots + [pending] <= slots'
    ensures FilterBehind(blocks, handles, [], slots', pending', offset)
  {
    PlacedAfter(FilterKeys(blocks, handles), |blocks|, slots, pending, slots', pending');
  }

  // The finished filter block, however it is read.
  lemma FinishedFilter(blocks: seq<seq<KeyValue>>, handles: seq<Handle>, rest: seq<KeyValue>, slots: seq<seq<Bytes>>,
                       pending: seq<Bytes>, slots': seq<seq<Bytes>>, offset: nat)
    requires FilterBehind(blocks, handles, rest, slots, pending, offset)
    requires if pending == [] then slots' == slots else slots' == slots + [pending]
    ensures Reported(blocks, handles, slots')
  {
    PlacedAfter(FilterKeys(blocks, handles), |blocks|, slots, pending, slots', []);
  }
}
