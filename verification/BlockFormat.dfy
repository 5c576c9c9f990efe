// Blocks: sorted entries with prefix-compressed keys and an array of restart
// points, as the block builder lays them out.

module BlockFormat {
  import opened Wrappers
  import opened Coding

  datatype KeyValue = KeyValue(key: Bytes, value: Bytes)

  function CommonPrefix(a: Bytes, b: Bytes): (n: nat)
    ensures n <= |a| && n <= |b| && a[..n] == b[..n]
    ensures n < |a| && n < |b| ==> a[n] != b[n]
  {
    if |a| == 0 || |b| == 0 || a[0] != b[0] then 0
    else
      var n := CommonPrefix(a[1..], b[1..]);
      assert a[..n + 1] == [a[0]] + a[1..][..n] && b[..n + 1] == [b[0]] + b[1..][..n];
      n + 1
  }

  // Entries written since the last restart point, after n entries.
  function Counter(n: nat, interval: nat): nat {
    if n == 0 then 0
    else
      var c := Counter(n - 1, interval);
      if c < interval then c + 1 else 1
  }

  // Entry i stores its whole key.
  predicate IsRestart(i: nat, interval: nat) {
    i == 0 || Counter(i, interval) >= interval
  }

  function Shared(kvs: seq<KeyValue>, i: nat, interval: nat): (n: nat)
    requires i < |kvs|
    ensures n <= |kvs[i].key| && (i > 0 ==> n <= |kvs[i - 1].key| && kvs[i - 1].key[..n] == kvs[i].key[..n])
    ensures IsRestart(i, interval) ==> n == 0
  {
    if IsRestart(i, interval) then 0 else CommonPrefix(kvs[i - 1].key, kvs[i].key)
  }

  function EntryBytes(shared: nat, key: Bytes, value: Bytes): Bytes
    requires shared <= |key|
  {
    Varint(shared) + Varint(|key| - shared) + Varint(|value|) + key[shared..] + value
  }

  // The data part after n entries.
  function Data(kvs: seq<KeyValue>, n: nat, interval: nat): Bytes
    requires n <= |kvs|
  {
    if n == 0 then []
    else Data(kvs, n - 1, interval) + EntryBytes(Shared(kvs, n - 1, interval), kvs[n - 1].key, kvs[n - 1].value)
  }

  function Offset(kvs: seq<KeyValue>, n: nat, interval: nat): nat
    requires n <= |kvs|
  {
    |Data(kvs, n, interval)|
  }

  // The entries at which the restart points stand.
  function Restarts(n: nat, interval: nat): (r: seq<nat>)
    ensures |r| > 0 && r[0] == 0
    ensures forall j :: 0 <= j < |r| ==> IsRestart(r[j], interval) && (n > 0 ==> r[j] < n) && (n == 0 ==> r[j] == 0)
    ensures forall i, j :: 0 <= i < j < |r| ==> r[i] < r[j]
    ensures forall i :: 0 <= i < n && IsRestart(i, interval) ==> i in r
  {
    if n <= 1 then [0]
    else
      var r := Restarts(n - 1, interval);
      if IsRestart(n - 1, interval) then r + [n - 1] else r
  }

  // Offsets are stored as 32-bit words.
  function Fixed32s(values: seq<nat>): (b: Bytes)
    ensures |b| == 4 * |values|
  {
    if |values| == 0 then []
    else Fixed32s(values[..|values| - 1]) + EncodeFixed32(values[|values| - 1] % TWO_TO_32)
  }

  lemma {:induction false} Fixed32At(values: seq<nat>, j: nat)
    requires j < |values| && values[j] < TWO_TO_32
    ensures Fixed32s(values)[4 * j..4 * j + 4] == EncodeFixed32(values[j])
  {
    hide EncodeFixed32;
    var front, last := values[..|values| - 1], values[|values| - 1];
    if j < |values| - 1 {
      Fixed32At(front, j);
      assert Fixed32s(values)[4 * j..4 * j + 4] == Fixed32s(front)[4 * j..4 * j + 4];
    }
  }

  lemma OffsetStep(kvs: seq<KeyValue>, n: nat, interval: nat)
    requires 0 < n <= |kvs|
    ensures Offset(kvs, n - 1, interval) < Offset(kvs, n, interval)
    ensures Data(kvs, n, interval)[..Offset(kvs, n - 1, interval)] == Data(kvs, n - 1, interval)
  {
  }

  lemma {:induction false} OffsetsIncrease(kvs: seq<KeyValue>, i: nat, n: nat, interval: nat)
    requires i <= n <= |kvs|
    ensures Offset(kvs, i, interval) <= Offset(kvs, n, interval)
    ensures i < n ==> Offset(kvs, i, interval) < Offset(kvs, n, interval)
    ensures Data(kvs, n, interval)[..Offset(kvs, i, interval)] == Data(kvs, i, interval)
    decreases n
  {
    hide Data;
    if i < n {
      OffsetStep(kvs, n, interval);
      OffsetsIncrease(kvs, i, n - 1, interval);
    }
  }

  function RestartOffsets(kvs: seq<KeyValue>, interval: nat): (r: seq<nat>)
    ensures |r| == |Restarts(|kvs|, interval)|
  {
    var indices := Restarts(|kvs|, interval);
    seq(|indices|, j requires 0 <= j < |indices| => Offset(kvs, indices[j], interval))
  }

  ghost predicate Fits(kvs: seq<KeyValue>, interval: nat) {
    Offset(kvs, |kvs|, interval) < TWO_TO_32 && |Restarts(|kvs|, interval)| < TWO_TO_32
  }

  lemma OffsetsFit(kvs: seq<KeyValue>, interval: nat)
    requires Fits(kvs, interval)
    ensures forall v :: v in RestartOffsets(kvs, interval) ==> v < TWO_TO_32
  {
    forall v | v in RestartOffsets(kvs, interval) ensures v < TWO_TO_32 {
      var j :| 0 <= j < |Restarts(|kvs|, interval)| && RestartOffsets(kvs, interval)[j] == v;
      OffsetsIncrease(kvs, Restarts(|kvs|, interval)[j], |kvs|, interval);
    }
  }

  // What Finish returns. Offsets and counts are cut to 32 bits.
  function RawBlock(kvs: seq<KeyValue>, interval: nat): (b: Bytes)
    ensures |b| == Offset(kvs, |kvs|, interval) + 4 * |Restarts(|kvs|, interval)| + 4
  {
    Data(kvs, |kvs|, interval) + Fixed32s(RestartOffsets(kvs, interval)) + EncodeFixed32(|Restarts(|kvs|, interval)| % TWO_TO_32)
  }

  // A finished block whose offsets fit.
  ghost predicate IsBlock(b: Bytes, kvs: seq<KeyValue>, interval: nat) {
    Fits(kvs, interval) && b == RawBlock(kvs, interval)
  }

  // ----------------------------------------------------------- BlockBuilder

  class BlockBuilder {
    const interval: nat          // block_restart_interval
    var buffer: Bytes
    var restarts: seq<nat>
    var counter: nat
    var lastKey: Bytes
    var finished: bool
    ghost var added: seq<KeyValue>

    ghost predicate Valid() reads this {
      && interval >= 1 && !finished
      && buffer == Data(added, |added|, interval)
      && restarts == RestartOffsets(added, interval)
      && counter == Counter(|added|, interval)
      && lastKey == if |added| == 0 then [] else added[|added| - 1].key
    }

    constructor (interval: nat)
      requires interval >= 1
      ensures Valid() && added == [] && this.interval == interval
    {
      this.interval := interval;
      buffer, restarts, counter, lastKey, finished, added := [], [0], 0, [], false, [];
    }

    predicate Empty() reads this { buffer == [] }

    lemma EmptyIffNothingAdded()
      requires Valid()
      ensures Empty() <==> added == []
    {
    }

    function CurrentSizeEstimate(): nat reads this {
      |buffer| + 4 * |restarts| + 4
    }

    lemma EstimateIsExact()
      requires Valid()
      ensures CurrentSizeEstimate() == |RawBlock(added, interval)|
    {
    }

    method Reset()
      requires interval >= 1
      modifies this
      ensures Valid() && added == []
    {
      buffer, restarts, counter, lastKey, finished, added := [], [0], 0, [], false, [];
    }

    method Add(key: Bytes, value: Bytes)
      requires Valid() && |key| < TWO_TO_32 && |value| < TWO_TO_32
      modifies this
      ensures Valid() && added == old(added) + [KeyValue(key, value)]
    {
      hide Data, Restarts, EntryBytes, RestartOffsets, CommonPrefix, Shared, Counter, IsRestart;
      ghost var kvs := added + [KeyValue(key, value)];
      var shared := 0;
      if counter < interval {
        shared := SharedPrefix(lastKey, key);
      } else {
        restarts := restarts + [|buffer|];
        counter := 0;
      }
      AddedEntry(added, KeyValue(key, value), interval);
      assert kvs[..|added|] == added;
      SharedOfLast(added, KeyValue(key, value), interval);
      var piece := EncodeEntry(shared, key, value);
      buffer := buffer + piece;
      lastKey := lastKey[..shared] + key[shared..];
      assert lastKey == key;
      counter := counter + 1;
      added := kvs;
    }

    method Finish() returns (block: Bytes)
      requires Valid()
      modifies this
      ensures block == RawBlock(old(added), interval) && finished && added == old(added)
    {
      hide Data, Restarts, RestartOffsets, Counter;
      ghost var data := buffer;
      var i := 0;
      while i < |restarts|
        invariant i <= |restarts| && restarts == RestartOffsets(added, interval) && added == old(added)
        invariant buffer == data + Fixed32s(restarts[..i])
      {
        assert restarts[..i + 1][..i] == restarts[..i];
        buffer := buffer + EncodeFixed32(restarts[i] % TWO_TO_32);
        i := i + 1;
      }
      assert restarts[..i] == restarts;
      buffer := buffer + EncodeFixed32(|restarts| % TWO_TO_32);
      finished := true;
      block := buffer;
    }
  }

  // The sharing loop.
  method SharedPrefix(a: Bytes, b: Bytes) returns (shared: nat)
    ensures shared == CommonPrefix(a, b)
  {
    shared := 0;
    var minLength := if |a| < |b| then |a| else |b|;
    while shared < minLength && a[shared] == b[shared]
      invariant shared <= minLength && a[..shared] == b[..shared]
    {
      shared := shared + 1;
    }
    LongestCommonPrefix(a, b, shared);
  }

  method EncodeEntry(shared: nat, key: Bytes, value: Bytes) returns (b: Bytes)
    requires shared <= |key| < TWO_TO_32 && |value| < TWO_TO_32
    ensures b == EntryBytes(shared, key, value)
  {
    b := EncodeVarint32(shared);
    var next := EncodeVarint32(|key| - shared);
    b := b + next;
    next := EncodeVarint32(|value|);
    b := b + next;
    b := b + key[shared..];
    b := b + value;
  }

  lemma {:induction false} LongestCommonPrefix(a: Bytes, b: Bytes, n: nat)
    requires n <= |a| && n <= |b| && a[..n] == b[..n]
    requires n == |a| || n == |b| || a[n] != b[n]
    ensures n == CommonPrefix(a, b)
  {
    if n > 0 {
      assert a[0] == a[..n][0] == b[..n][0] == b[0];
      assert a[1..][..n - 1] == a[..n][1..] == b[..n][1..] == b[1..][..n - 1];
      LongestCommonPrefix(a[1..], b[1..], n - 1);
    }
  }

  lemma SharedOfLast(kvs: seq<KeyValue>, kv: KeyValue, interval: nat)
    requires interval >= 1
    ensures var n, c := |kvs|, Counter(|kvs|, interval);
      && Shared(kvs + [kv], n, interval)
           == (if c < interval then CommonPrefix(if n == 0 then [] else kvs[n - 1].key, kv.key) else 0)
      && Counter(n + 1, interval) == (if c < interval then c else 0) + 1
      && (IsRestart(n, interval) <==> n == 0 || c >= interval) && (n == 0 ==> c == 0)
  {
  }

  // Earlier entries do not depend on later ones.
  lemma {:induction false} DataOfPrefix(kvs: seq<KeyValue>, kv: KeyValue, n: nat, interval: nat)
    requires n <= |kvs|
    ensures Data(kvs + [kv], n, interval) == Data(kvs, n, interval)
  {
    if n > 0 { DataOfPrefix(kvs, kv, n - 1, interval); }
  }

  lemma AddedEntry(kvs: seq<KeyValue>, kv: KeyValue, interval: nat)
    requires interval >= 1
    ensures var all, n := kvs + [kv], |kvs|;
      && Data(all, n + 1, interval) == Data(kvs, n, interval) + EntryBytes(Shared(all, n, interval), kv.key, kv.value)
      && RestartOffsets(all, interval)
           == RestartOffsets(kvs, interval) + (if n > 0 && IsRestart(n, interval) then [Offset(kvs, n, interval)] else [])
  {
    var all, n := kvs + [kv], |kvs|;
    DataOfPrefix(kvs, kv, n, interval);
    var r, r' := Restarts(n, interval), Restarts(n + 1, interval);
    forall j | 0 <= j < |r| ensures Offset(all, r[j], interval) == Offset(kvs, r[j], interval) {
      DataOfPrefix(kvs, kv, r[j], interval);
    }
  }
}
