// Block::Iter: iterating and searching a finished block.

module BlockReader {
  import opened Wrappers
  import opened Coding
  import opened BlockFormat

  // -------------------------------------------------------------- decoding

  datatype Decoded = Decoded(keyAt: nat, shared: nat, nonShared: nat, valueLength: nat)

  // The header of the entry at p, before limit; absent if it does not fit.
  function DecodeEntry(b: Bytes, p: nat, limit: nat): Option<Decoded>
    requires p <= limit <= |b|
  {
    if limit - p < 3 then None
    else
      var d := if b[p] < 128 && b[p + 1] < 128 && b[p + 2] < 128
               then Some(Decoded(p + 3, b[p] as nat, b[p + 1] as nat, b[p + 2] as nat))
               else DecodeSlow(b[..limit], p);
      if d.Some? && limit - d.value.keyAt < (d.value.nonShared + d.value.valueLength) % TWO_TO_32 then None else d
  }

  function DecodeSlow(b: Bytes, p: nat): (d: Option<Decoded>)
    ensures d.Some? ==> d.value.keyAt <= |b|
  {
    var shared := GetVarint32(b, p);
    if shared == None then None
    else
      var nonShared := GetVarint32(b, shared.value.1);
      if nonShared == None then None
      else
        var length := GetVarint32(b, nonShared.value.1);
        if length == None then None
        else Some(Decoded(length.value.1, shared.value.0, nonShared.value.0, length.value.0))
  }

  function NumRestarts(b: Bytes): nat
    requires |b| >= 4
  {
    DecodeFixed32(b[|b| - 4..])
  }

  // Block::Block: where the restart array starts, if the block can hold it.
  function RestartOffset(b: Bytes): Option<nat> {
    if |b| < 4 || NumRestarts(b) > (|b| - 4) / 4 then None else Some(|b| - (1 + NumRestarts(b)) * 4)
  }

  function RestartPoint(b: Bytes, restarts: nat, j: nat): nat
    requires restarts + 4 * j + 4 <= |b|
  {
    DecodeFixed32(b[restarts + 4 * j..restarts + 4 * j + 4])
  }

  // ------------------------------------------- decoding what was encoded

  lemma SliceAt(b: Bytes, p: nat, x: Bytes, y: Bytes, z: Bytes)
    requires p + |x + y + z| <= |b| && b[p..p + |x + y + z|] == x + y + z
    ensures b[p + |x|..p + |x| + |y|] == y
  {
    var all := x + y + z;
    forall i | 0 <= i < |y| ensures b[p + |x| + i] == y[i] {
      assert b[p..p + |all|][|x| + i] == all[|x| + i];
    }
  }

  // The five parts of an entry, located.
  lemma EntryParts(b: Bytes, p: nat, shared: nat, key: Bytes, value: Bytes)
    requires shared <= |key|
    requires var e := EntryBytes(shared, key, value); p + |e| <= |b| && b[p..p + |e|] == e
    ensures var p1 := p + |Varint(shared)|;
      var p2 := p1 + |Varint(|key| - shared)|;
      var p3 := p2 + |Varint(|value|)|;
      var p4 := p3 + |key| - shared;
      && p4 + |value| == p + |EntryBytes(shared, key, value)|
      && b[p..p1] == Varint(shared) && b[p1..p2] == Varint(|key| - shared) && b[p2..p3] == Varint(|value|)
      && b[p3..p4] == key[shared..] && b[p4..p4 + |value|] == value
  {
    hide Varint;
    var v1, v2, v3, k := Varint(shared), Varint(|key| - shared), Varint(|value|), key[shared..];
    assert EntryBytes(shared, key, value) == [] + v1 + (v2 + v3 + k + value);
    SliceAt(b, p, [], v1, v2 + v3 + k + value);
    assert EntryBytes(shared, key, value) == v1 + v2 + (v3 + k + value);
    SliceAt(b, p, v1, v2, v3 + k + value);
    assert EntryBytes(shared, key, value) == (v1 + v2) + v3 + (k + value);
    SliceAt(b, p, v1 + v2, v3, k + value);
    assert EntryBytes(shared, key, value) == (v1 + v2 + v3) + k + value;
    SliceAt(b, p, v1 + v2 + v3, k, value);
    assert EntryBytes(shared, key, value) == (v1 + v2 + v3 + k) + value + [];
    SliceAt(b, p, v1 + v2 + v3 + k, value, []);
  }

  // A varint whose first byte is small is that byte.
  lemma ShortVarint(v: nat, b: Bytes, p: nat)
    requires p + |Varint(v)| <= |b| && b[p..p + |Varint(v)|] == Varint(v)
    ensures b[p] == Varint(v)[0]
    ensures b[p] < 128 <==> |Varint(v)| == 1
    ensures b[p] < 128 ==> v == b[p] as nat
  {
    assert b[p..p + |Varint(v)|][0] == b[p];
  }

  // Three varints in a row.
  lemma ThreeVarints(b: Bytes, p: nat, x: nat, y: nat, z: nat)
    requires x < TWO_TO_32 && y < TWO_TO_32 && z < TWO_TO_32
    requires p + |Varint(x)| + |Varint(y)| + |Varint(z)| <= |b|
    requires b[p..p + |Varint(x)|] == Varint(x)
    requires b[p + |Varint(x)|..p + |Varint(x)| + |Varint(y)|] == Varint(y)
    requires b[p + |Varint(x)| + |Varint(y)|..p + |Varint(x)| + |Varint(y)| + |Varint(z)|] == Varint(z)
    ensures var q := p + |Varint(x)| + |Varint(y)| + |Varint(z)|;
      && DecodeSlow(b, p) == Some(Decoded(q, x, y, z))
      && (b[p] < 128 && b[p + 1] < 128 && b[p + 2] < 128 ==>
            q == p + 3 && x == b[p] as nat && y == b[p + 1] as nat && z == b[p + 2] as nat)
  {
    hide Varint, GetVarint32;
    var p1 := p + |Varint(x)|;
    var p2 := p1 + |Varint(y)|;
    ShortVarint(x, b, p);
    ShortVarint(y, b, p1);
    ShortVarint(z, b, p2);
    Varint32RoundTrip(x, b, p);
    Varint32RoundTrip(y, b, p1);
    Varint32RoundTrip(z, b, p2);
  }

  lemma EntryDecodes(b: Bytes, p: nat, limit: nat, shared: nat, key: Bytes, value: Bytes)
    requires shared <= |key| && shared < TWO_TO_32 && p <= limit <= |b| && limit < TWO_TO_32
    requires var e := EntryBytes(shared, key, value); p + |e| <= limit && b[p..p + |e|] == e
    ensures var d := DecodeEntry(b, p, limit);
      && d.Some? && d.value.shared == shared && d.value.nonShared == |key| - shared && d.value.valueLength == |value|
      && d.value.keyAt + d.value.nonShared + d.value.valueLength == p + |EntryBytes(shared, key, value)|
      && b[d.value.keyAt..d.value.keyAt + d.value.nonShared] == key[shared..]
      && b[d.value.keyAt + d.value.nonShared..p + |EntryBytes(shared, key, value)|] == value
  {
    hide Varint, DecodeSlow;
    EntryParts(b, p, shared, key, value);
    var c := b[..limit];
    var e := EntryBytes(shared, key, value);
    assert c[p..p + |e|] == e;
    EntryParts(c, p, shared, key, value);
    ThreeVarints(c, p, shared, |key| - shared, |value|);
    assert c[p] == b[p] && c[p + 1] == b[p + 1] && c[p + 2] == b[p + 2];
  }

  // ------------------------------------------------------ a finished block

  lemma BlockLayout(b: Bytes, kvs: seq<KeyValue>, interval: nat)
    requires IsBlock(b, kvs, interval)
    ensures RestartOffset(b) == Some(Offset(kvs, |kvs|, interval)) && NumRestarts(b) == |Restarts(|kvs|, interval)|
    ensures |b| == Offset(kvs, |kvs|, interval) + 4 * |Restarts(|kvs|, interval)| + 4
    ensures b[..Offset(kvs, |kvs|, interval)] == Data(kvs, |kvs|, interval)
    ensures b[Offset(kvs, |kvs|, interval)..|b| - 4] == Fixed32s(RestartOffsets(kvs, interval))
  {
    hide Data, Restarts, Fixed32s, EncodeFixed32;
    var n := |Restarts(|kvs|, interval)|;
    Fixed32RoundTrip(n);
    assert b[|b| - 4..] == EncodeFixed32(n);
  }

  lemma RestartPointIsOffset(b: Bytes, kvs: seq<KeyValue>, interval: nat, j: nat)
    requires IsBlock(b, kvs, interval) && j < |Restarts(|kvs|, interval)|
    ensures Restarts(|kvs|, interval)[j] <= |kvs|
    ensures Offset(kvs, |kvs|, interval) + 4 * j + 4 <= |b|
    ensures RestartPoint(b, Offset(kvs, |kvs|, interval), j) == Offset(kvs, Restarts(|kvs|, interval)[j], interval)
  {
    hide Data, Restarts, Fixed32s, EncodeFixed32;
    BlockLayout(b, kvs, interval);
    OffsetsFit(kvs, interval);
    var offsets, base := RestartOffsets(kvs, interval), Offset(kvs, |kvs|, interval);
    assert offsets[j] in offsets;
    Fixed32At(offsets, j);
    Fixed32RoundTrip(offsets[j]);
    assert b[base + 4 * j..base + 4 * j + 4] == b[base..|b| - 4][4 * j..4 * j + 4];
  }

  lemma EntryInBlock(b: Bytes, kvs: seq<KeyValue>, interval: nat, i: nat)
    requires IsBlock(b, kvs, interval) && i < |kvs|
    ensures var shared, p := Shared(kvs, i, interval), Offset(kvs, i, interval);
      var e := EntryBytes(shared, kvs[i].key, kvs[i].value);
      && p + |e| == Offset(kvs, i + 1, interval) && p + |e| <= Offset(kvs, |kvs|, interval) <= |b|
      && b[p..p + |e|] == e
  {
    hide Restarts, Fixed32s, EncodeFixed32, EntryBytes, Shared, RestartOffsets;
    BlockLayout(b, kvs, interval);
    OffsetsIncrease(kvs, i + 1, |kvs|, interval);
    var data, p := Data(kvs, |kvs|, interval), Offset(kvs, i, interval);
    var e := EntryBytes(Shared(kvs, i, interval), kvs[i].key, kvs[i].value);
    assert Data(kvs, i + 1, interval) == Data(kvs, i, interval) + e;
    assert data[p..p + |e|] == data[..p + |e|][p..];
    assert b[p..p + |e|] == b[..|data|][p..p + |e|];
  }

  // Keys are no longer than the data that describes them.
  lemma {:induction false} KeyFits(kvs: seq<KeyValue>, i: nat, interval: nat)
    requires i < |kvs|
    ensures |kvs[i].key| < Offset(kvs, i + 1, interval) && Shared(kvs, i, interval) <= Offset(kvs, i, interval)
  {
    if i > 0 { KeyFits(kvs, i - 1, interval); }
    var e := EntryBytes(Shared(kvs, i, interval), kvs[i].key, kvs[i].value);
    assert Data(kvs, i + 1, interval) == Data(kvs, i, interval) + e;
  }

  lemma BlockFits(b: Bytes, kvs: seq<KeyValue>, interval: nat)
    requires IsBlock(b, kvs, interval)
    ensures Offset(kvs, |kvs|, interval) < TWO_TO_32 && Offset(kvs, |kvs|, interval) <= |b|
  {
  }

  // The entry at position i decodes to its key suffix and its value.
  lemma EntryIsDecoded(b: Bytes, kvs: seq<KeyValue>, interval: nat, i: nat)
    requires IsBlock(b, kvs, interval) && i < |kvs|
    ensures var p, q, limit := Offset(kvs, i, interval), Offset(kvs, i + 1, interval), Offset(kvs, |kvs|, interval);
      && p < q <= limit <= |b|
      && var d := DecodeEntry(b, p, limit);
      && d.Some? && d.value.shared == Shared(kvs, i, interval) && d.value.keyAt + d.value.nonShared + d.value.valueLength == q
      && b[d.value.keyAt..d.value.keyAt + d.value.nonShared] == kvs[i].key[d.value.shared..]
      && b[d.value.keyAt + d.value.nonShared..q] == kvs[i].value
  {
    hide EntryBytes, DecodeEntry, Data, Restarts, Shared, IsBlock, RestartOffsets;
    BlockFits(b, kvs, interval);
    EntryInBlock(b, kvs, interval, i);
    KeyFits(kvs, i, interval);
    OffsetsIncrease(kvs, i, i + 1, interval);
    OffsetsIncrease(kvs, i + 1, |kvs|, interval);
    EntryDecodes(b, Offset(kvs, i, interval), Offset(kvs, |kvs|, interval), Shared(kvs, i, interval), kvs[i].key, kvs[i].value);
  }

  // ------------------------------------------------------------ Block::Iter

  class BlockIter {
    const data: Bytes
    const restarts: nat
    const numRestarts: nat
    ghost const kvs: seq<KeyValue>
    ghost const interval: nat
    var current: nat             // offset of the current entry, restarts if there is none
    var restartIndex: nat
    var key: Bytes
    var valueStart: nat
    var valueEnd: nat            // NextEntryOffset

    ghost predicate Block() {
      && IsBlock(data, kvs, interval)
      && restarts == Offset(kvs, |kvs|, interval) && numRestarts == |Restarts(|kvs|, interval)|
    }

    ghost function RestartEntry(j: nat): nat
      requires j < |Restarts(|kvs|, interval)|
    {
      Restarts(|kvs|, interval)[j]
    }

    // The current entry is entry n, or there is none and n is the end.
    ghost predicate At(n: nat) reads this {
      && Block() && n <= |kvs| && current == Offset(kvs, n, interval)
      && (n < |kvs| ==>
            && key == kvs[n].key
            && valueStart <= valueEnd == Offset(kvs, n + 1, interval) && valueEnd <= |data|
            && data[valueStart..valueEnd] == kvs[n].value
            && restartIndex < numRestarts && RestartEntry(restartIndex) <= n)
    }

    // Parsing goes on with entry n.
    ghost predicate Before(n: nat) reads this {
      && Block() && n <= |kvs| && valueEnd == Offset(kvs, n, interval)
      && restartIndex < numRestarts && RestartEntry(restartIndex) <= n
      && (n < |kvs| ==>
            Shared(kvs, n, interval) <= |key| && key[..Shared(kvs, n, interval)] == kvs[n].key[..Shared(kvs, n, interval)])
    }

    predicate AtEntry() reads this { current < restarts }

    lemma AtEntryIffInside(n: nat)
      requires At(n)
      ensures n <= |kvs| && (AtEntry() <==> n < |kvs|)
    {
      OffsetsIncrease(kvs, n, |kvs|, interval);
    }

    function Value(): Bytes
      requires valueStart <= valueEnd <= |data|
      reads this
    {
      data[valueStart..valueEnd]
    }

    lemma CurrentIsEntry(n: nat)
      requires At(n) && n < |kvs|
      ensures valueStart <= valueEnd <= |data| && key == kvs[n].key && Value() == kvs[n].value
    {
    }

    constructor (data: Bytes, ghost kvs: seq<KeyValue>, ghost interval: nat)
      requires IsBlock(data, kvs, interval)
      ensures At(|kvs|) && this.kvs == kvs && this.interval == interval && this.data == data
    {
      BlockLayout(data, kvs, interval);
      this.data, this.kvs, this.interval := data, kvs, interval;
      restarts, numRestarts := RestartOffset(data).value, NumRestarts(data);
      current, restartIndex := RestartOffset(data).value, NumRestarts(data);
      key, valueStart, valueEnd := [], 0, 0;
    }

    method SeekToRestartPoint(j: nat)
      requires Block() && j < numRestarts
      modifies this
      ensures restartIndex == j && Before(RestartEntry(j))
    {
      RestartPointIsOffset(data, kvs, interval, j);
      key := [];
      restartIndex := j;
      var offset := RestartPoint(data, restarts, j);
      valueStart, valueEnd := offset, offset;
    }

    // Parses the next entry; false at the end.
    method ParseNextKey(ghost n: nat) returns (more: bool)
      requires Before(n)
      modifies this
      ensures At(n) && (more <==> n < |kvs|)
    {
      hide Data, Restarts, Shared, IsBlock, DecodeEntry;
      current := valueEnd;
      OffsetsIncrease(kvs, n, |kvs|, interval);
      if current >= restarts {
        current := restarts;
        restartIndex := numRestarts;
        return false;
      }
      EntryIsDecoded(data, kvs, interval, n);
      var d := DecodeEntry(data, current, restarts);
      if d == None || |key| < d.value.shared {
        assert false;   // the block is well formed
        return false;
      }
      var keyEnd := d.value.keyAt + d.value.nonShared;
      assert key[..d.value.shared] + data[d.value.keyAt..keyEnd] == kvs[n].key;
      key := key[..d.value.shared] + data[d.value.keyAt..keyEnd];
      valueStart, valueEnd := keyEnd, keyEnd + d.value.valueLength;
      AdvanceRestart(n);
      more := true;
    }

    method AdvanceRestart(ghost n: nat)
      requires Block() && n < |kvs| && current == Offset(kvs, n, interval) && restartIndex < numRestarts && RestartEntry(restartIndex) <= n
      modifies this`restartIndex
      ensures restartIndex < numRestarts && RestartEntry(restartIndex) <= n
    {
      hide Data, Restarts, Shared, IsBlock;
      var moving := true;
      while moving && restartIndex + 1 < numRestarts
        invariant restartIndex < numRestarts && RestartEntry(restartIndex) <= n
        decreases numRestarts - restartIndex, moving
      {
        RestartPointIsOffset(data, kvs, interval, restartIndex + 1);
        if RestartPoint(data, restarts, restartIndex + 1) < current {
          RestartBefore(restartIndex + 1, n);
          restartIndex := restartIndex + 1;
        } else {
          moving := false;
        }
      }
    }

    lemma RestartBefore(j: nat, n: nat)
      requires Block() && j < numRestarts && n <= |kvs| && RestartEntry(j) <= |kvs|
      ensures Offset(kvs, RestartEntry(j), interval) < Offset(kvs, n, interval) <==> RestartEntry(j) < n
    {
      hide Data, Restarts;
      if RestartEntry(j) <= n {
        OffsetsIncrease(kvs, RestartEntry(j), n, interval);
      } else {
        OffsetsIncrease(kvs, n, RestartEntry(j), interval);
      }
    }

    method SeekToFirst()
      requires Block()
      modifies this
      ensures At(0)
    {
      hide Data, Restarts, Shared, IsBlock;
      FirstRestart();
      SeekToRestartPoint(0);
      var more := ParseNextKey(0);
    }

    lemma FirstRestart()
      requires Block()
      ensures numRestarts == |Restarts(|kvs|, interval)| > 0 && RestartEntry(0) == 0
      ensures forall j :: 0 <= j < numRestarts ==> RestartEntry(j) <= |kvs| && (|kvs| > 0 ==> RestartEntry(j) < |kvs|)
      ensures forall i, j :: 0 <= i < j < numRestarts ==> RestartEntry(i) < RestartEntry(j)
      ensures forall j :: 0 <= j < numRestarts ==> IsRestart(RestartEntry(j), interval)
    {
    }

    // After entry n comes entry n + 1.
    lemma NextIsReady(n: nat)
      requires At(n) && n < |kvs|
      ensures Before(n + 1)
    {
    }

    method SeekToLast()
      requires Block()
      modifies this
      ensures At(if |kvs| == 0 then 0 else |kvs| - 1)
    {
      hide Data, Restarts, Shared, IsBlock, Block, At, Before;
      FirstRestart();
      SeekToRestartPoint(numRestarts - 1);
      ghost var n := RestartEntry(numRestarts - 1);
      var more := ParseNextKey(n);
      while more && valueEnd < restarts
        invariant Block() && At(n) && (more <==> n < |kvs|) && n <= |kvs| && (n == |kvs| ==> |kvs| == 0)
        decreases |kvs| - n
      {
        NextIsReady(n);
        NotLast(n);
        n := n + 1;
        more := ParseNextKey(n);
      }
      if more { NotLast(n); }
    }

    lemma NotLast(n: nat)
      requires At(n) && n < |kvs|
      ensures valueEnd < restarts <==> n + 1 < |kvs|
    {
      hide Data, Restarts, Shared, IsBlock;
      OffsetsIncrease(kvs, n + 1, |kvs|, interval);
    }

    method Next(ghost n: nat)
      requires At(n) && n < |kvs|
      modifies this
      ensures At(n + 1)
    {
      hide Data, Restarts, Shared, IsBlock, Block, At, Before;
      NextIsReady(n);
      var more := ParseNextKey(n + 1);
    }

    // Back to a restart point before the current entry, then forward again.
    method Prev(ghost n: nat)
      requires At(n) && n < |kvs|
      modifies this
      ensures At(if n == 0 then |kvs| else n - 1)
    {
      hide Data, Restarts, Shared, IsBlock, Before;
      FirstRestart();
      var original := current;
      var j: nat := restartIndex;
      RestartPointIsOffset(data, kvs, interval, j);
      while RestartPoint(data, restarts, j) >= original
        invariant j < numRestarts && RestartEntry(j) <= n && restarts + 4 * j + 4 <= |data|
        invariant RestartPoint(data, restarts, j) == Offset(kvs, RestartEntry(j), interval)
        decreases j
      {
        RestartBefore(j, n);
        if j == 0 {
          current := restarts;
          restartIndex := numRestarts;
          return;
        }
        assert RestartEntry(j - 1) < RestartEntry(j);
        j := j - 1;
        RestartPointIsOffset(data, kvs, interval, j);
      }
      RestartBefore(j, n);
      SeekToRestartPoint(j);
      ghost var m := RestartEntry(j);
      var more := ParseNextKey(m);
      while more && valueEnd < original
        invariant Block() && At(m) && m < n && more && original == Offset(kvs, n, interval)
        decreases n - m
      {
        NextIsReady(m);
        EndBefore(m, n);
        m := m + 1;
        more := ParseNextKey(m);
      }
      EndBefore(m, n);
    }

    lemma EndBefore(m: nat, n: nat)
      requires At(m) && m < n <= |kvs|
      ensures valueEnd < Offset(kvs, n, interval) <==> m + 1 < n
    {
      hide Data, Restarts, Shared, IsBlock;
      OffsetsIncrease(kvs, m + 1, n, interval);
    }

    // The first entry whose key is not below the target.
    method Seek(below: Bytes -> bool) returns (ghost n: nat)
      requires Block() && forall i, j :: 0 <= i < j < |kvs| && below(kvs[j].key) ==> below(kvs[i].key)
      modifies this
      ensures At(n) && (forall i :: 0 <= i < n ==> below(kvs[i].key)) && (n < |kvs| ==> !below(kvs[n].key))
    {
      hide Data, Restarts, Shared, IsBlock, Before;
      FirstRestart();
      var left, right := 0, numRestarts - 1;
      while left < right
        invariant 0 <= left <= right < numRestarts
        invariant left == 0 || (RestartEntry(left) < |kvs| && below(kvs[RestartEntry(left)].key))
      {
        var mid := (left + right + 1) / 2;
        ghost var i := RestartEntry(mid);
        RestartPointIsOffset(data, kvs, interval, mid);
        assert RestartEntry(0) < i;
        EntryIsDecoded(data, kvs, interval, i);
        var d := DecodeEntry(data, RestartPoint(data, restarts, mid), restarts);
        if d == None || d.value.shared != 0 {
          assert false;   // a restart point stores a whole key
        }
        var midKey := data[d.value.keyAt..d.value.keyAt + d.value.nonShared];
        assert midKey == kvs[i].key;
        if below(midKey) { left := mid; } else { right := mid - 1; }
      }
      SeekToRestartPoint(left);
      n := RestartEntry(left);
      assert forall i :: 0 <= i < n ==> below(kvs[i].key);
      var more := ParseNextKey(n);
      while more && below(key)
        invariant Block() && At(n) && (more <==> n < |kvs|) && n <= |kvs|
        invariant forall i :: 0 <= i < n ==> below(kvs[i].key)
        decreases |kvs| - n
      {
        NextIsReady(n);
        n := n + 1;
        more := ParseNextKey(n);
      }
    }
  }

  // Iterating the finished block gives the list back.
  method ReadBack(data: Bytes, ghost kvs: seq<KeyValue>, ghost interval: nat) returns (list: seq<KeyValue>)
    requires IsBlock(data, kvs, interval)
    ensures list == kvs
  {
    hide Data, Restarts, Shared, IsBlock;
    var iter := new BlockIter(data, kvs, interval);
    iter.SeekToFirst();
    list := [];
    iter.AtEntryIffInside(0);
    while iter.AtEntry()
      invariant iter.kvs == kvs && |list| <= |kvs| && list == kvs[..|list|] && iter.At(|list|)
      invariant iter.AtEntry() <==> |list| < |kvs|
      decreases |kvs| - |list|
    {
      ghost var n := |list|;
      list := list + [KeyValue(iter.key, iter.Value())];
      iter.Next(n);
      iter.AtEntryIffInside(n + 1);
    }
  }
}
