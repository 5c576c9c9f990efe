// The Bloom filter policy: a key that was added is never reported absent.

module Bloom {
  import opened Coding

  // -------------------------------------------------------------- bits

  predicate HasBit(b: nat, i: nat) {
    if i == 0 then b % 2 == 1 else HasBit(b / 2, i - 1)
  }

  function Pow2(w: nat): (p: nat)
    ensures p > 0
  {
    if w == 0 then 1 else 2 * Pow2(w - 1)
  }

  // b | (1 << i) in a word of w bits.
  function SetBit(b: nat, i: nat, w: nat): (r: nat)
    requires i < w && b < Pow2(w)
    ensures r < Pow2(w)
  {
    assert Pow2(w) == 2 * Pow2(w - 1) && b / 2 < Pow2(w - 1);
    if i == 0 then 2 * (b / 2) + 1 else 2 * SetBit(b / 2, i - 1, w - 1) + b % 2
  }

  // Bit i is set, and no other changes.
  lemma {:induction false} SetBitSets(b: nat, i: nat, w: nat, j: nat)
    requires i < w && b < Pow2(w)
    ensures HasBit(SetBit(b, i, w), j) <==> j == i || HasBit(b, j)
  {
    var r := SetBit(b, i, w);
    if i > 0 {
      assert r / 2 == SetBit(b / 2, i - 1, w - 1) && r % 2 == b % 2;
      if j > 0 { SetBitSets(b / 2, i - 1, w - 1, j - 1); }
    } else {
      assert r / 2 == b / 2;
    }
  }

  function SetByteBit(b: Byte, i: nat): (r: Byte)
    requires i < 8
    ensures forall j: nat :: HasBit(r, j) <==> j == i || HasBit(b, j)
  {
    assert Pow2(8) == 256;
    assert forall j: nat :: HasBit(SetBit(b, i, 8), j) <==> j == i || HasBit(b, j) by {
      forall j: nat { SetBitSets(b, i, 8, j); }
    }
    SetBit(b, i, 8)
  }

  // ------------------------------------------------------------- probes

  const TWO_TO_17 := 131072
  const TWO_TO_15 := 32768

  // Rotate right by 17 bits.
  function Delta(h: nat): (d: nat)
    requires h < TWO_TO_32
    ensures d < TWO_TO_32
  {
    h / TWO_TO_17 + h % TWO_TO_17 * TWO_TO_15
  }

  // The hash value of the j-th probe, with 32-bit wrap-around.
  function Probe(h: nat, j: nat): (p: nat)
    requires h < TWO_TO_32
    ensures p < TWO_TO_32
  {
    if j == 0 then h else (Probe(h, j - 1) + Delta(h)) % TWO_TO_32
  }

  predicate BitAt(bitmap: Bytes, pos: nat)
    requires pos < 8 * |bitmap|
  {
    HasBit(bitmap[pos / 8], pos % 8)
  }

  // All k probed bits of a key are set.
  ghost predicate AllSet(bitmap: Bytes, h: nat, k: nat)
    requires h < TWO_TO_32 && |bitmap| > 0
  {
    forall j :: 0 <= j < k ==> BitAt(bitmap, Probe(h, j) % (8 * |bitmap|))
  }

  // What KeyMayMatch answers for a filter.
  ghost predicate Matches(hash: nat, filter: Bytes)
    requires hash < TWO_TO_32
  {
    && |filter| >= 2
    && (filter[|filter| - 1] > 30 || AllSet(filter[..|filter| - 1], hash, filter[|filter| - 1] as nat))
  }

  // Position q of that many bits is probed for a hash.
  ghost predicate Probes(h: nat, k: nat, bits: nat, q: nat)
    requires h < TWO_TO_32 && bits > 0
  {
    exists j :: 0 <= j < k && Probe(h, j) % bits == q
  }

  // The bits that the first n keys probe are set, and no others.
  ghost predicate HasBitsOf(bitmap: Bytes, keys: seq<Bytes>, n: nat, k: nat, hash: Bytes -> nat)
    requires n <= |keys| && |bitmap| > 0 && forall key :: hash(key) < TWO_TO_32
  {
    forall q :: 0 <= q < 8 * |bitmap| ==>
      (BitAt(bitmap, q) <==> exists i :: 0 <= i < n && Probes(hash(keys[i]), k, 8 * |bitmap|, q))
  }

  // At least 64 bits, in whole bytes.
  function BitmapSize(n: nat): (size: nat)
    ensures size >= 8
  {
    ((if n < 64 then 64 else n) + 7) / 8
  }

  // The filter of these keys: their bits, and the number of probes.
  ghost predicate IsFilter(keys: seq<Bytes>, bitsPerKey: nat, k: nat, hash: Bytes -> nat, filter: Bytes)
    requires forall key :: hash(key) < TWO_TO_32
  {
    var size := BitmapSize(|keys| * bitsPerKey);
    |filter| == size + 1 && filter[size] == k && HasBitsOf(filter[..size], keys, |keys|, k, hash)
  }

  // Every key matches the filter it is in, for any hash function and any number
  // of probes up to 30.
  lemma KeysMatch(keys: seq<Bytes>, bitsPerKey: nat, k: nat, hash: Bytes -> nat, filter: Bytes)
    requires k <= 30 && (forall key :: hash(key) < TWO_TO_32) && IsFilter(keys, bitsPerKey, k, hash, filter)
    ensures forall i :: 0 <= i < |keys| ==> Matches(hash(keys[i]), filter)
  {
    hide HasBit, Probe;
    var bitmap := filter[..|filter| - 1];
    forall i | 0 <= i < |keys| ensures Matches(hash(keys[i]), filter) {
      forall j | 0 <= j < k ensures BitAt(bitmap, Probe(hash(keys[i]), j) % (8 * |bitmap|)) {
        assert Probes(hash(keys[i]), k, 8 * |bitmap|, Probe(hash(keys[i]), j) % (8 * |bitmap|));
      }
    }
  }

  // A filter without keys matches nothing.
  lemma EmptyFilterMatchesNothing(bitsPerKey: nat, k: nat, hash: Bytes -> nat, filter: Bytes, key: Bytes)
    requires 1 <= k <= 30 && (forall key :: hash(key) < TWO_TO_32) && IsFilter([], bitsPerKey, k, hash, filter)
    ensures !Matches(hash(key), filter)
  {
    hide HasBit;
    var bitmap := filter[..|filter| - 1];
    assert !BitAt(bitmap, Probe(hash(key), 0) % (8 * |bitmap|));
  }

  method SetPosition(bitmap: array<Byte>, pos: nat)
    requires pos < 8 * bitmap.Length
    modifies bitmap
    ensures forall q :: 0 <= q < 8 * bitmap.Length ==> (BitAt(bitmap[..], q) <==> q == pos || BitAt(old(bitmap[..]), q))
  {
    hide HasBit;
    bitmap[pos / 8] := SetByteBit(bitmap[pos / 8], pos % 8);
  }

  // Sets the probed bits of one key.
  method AddKey(bitmap: array<Byte>, hash: nat, k: nat)
    requires hash < TWO_TO_32 && bitmap.Length > 0
    modifies bitmap
    ensures forall q :: 0 <= q < 8 * bitmap.Length ==>
      (BitAt(bitmap[..], q) <==> Probes(hash, k, 8 * bitmap.Length, q) || BitAt(old(bitmap[..]), q))
  {
    hide HasBit, BitAt, Probe;
    var h, j := hash, 0;
    FirstProbe(hash);
    while j < k
      invariant j <= k && h == Probe(hash, j)
      invariant forall q :: 0 <= q < 8 * bitmap.Length ==>
        (BitAt(bitmap[..], q) <==> Probes(hash, j, 8 * bitmap.Length, q) || BitAt(old(bitmap[..]), q))
    {
      SetPosition(bitmap, h % (8 * bitmap.Length));
      OneMoreProbe(hash, j, 8 * bitmap.Length);
      h := (h + Delta(hash)) % TWO_TO_32;
      j := j + 1;
    }
  }

  lemma FirstProbe(hash: nat)
    requires hash < TWO_TO_32
    ensures Probe(hash, 0) == hash
  {
  }

  lemma OneMoreProbe(hash: nat, j: nat, bits: nat)
    requires hash < TWO_TO_32 && bits > 0
    ensures Probe(hash, j + 1) == (Probe(hash, j) + Delta(hash)) % TWO_TO_32
    ensures forall q :: Probes(hash, j + 1, bits, q) <==> Probes(hash, j, bits, q) || q == Probe(hash, j) % bits
  {
  }

  // CreateFilter appends the filter of the keys.
  method CreateFilter(keys: seq<Bytes>, bitsPerKey: nat, k: nat, hash: Bytes -> nat, dst: Bytes) returns (r: Bytes)
    requires 1 <= k <= 30 && forall key :: hash(key) < TWO_TO_32
    ensures dst <= r && IsFilter(keys, bitsPerKey, k, hash, r[|dst|..])
  {
    hide HasBit, BitAt, Probes;
    var bits := |keys| * bitsPerKey;
    if bits < 64 { bits := 64; }
    var bytes := (bits + 7) / 8;
    var bitmap := new Byte[bytes](_ => 0);
    NoBits(bitmap[..]);
    var i := 0;
    while i < |keys|
      invariant i <= |keys| && HasBitsOf(bitmap[..], keys, i, k, hash)
    {
      AddKey(bitmap, hash(keys[i]), k);
      i := i + 1;
    }
    r := dst + (bitmap[..] + [k]);
    assert r[|dst|..] == bitmap[..] + [k];
    assert (bitmap[..] + [k])[..bitmap.Length] == bitmap[..];
  }

  lemma NoBits(bitmap: Bytes)
    requires forall i :: 0 <= i < |bitmap| ==> bitmap[i] == 0
    ensures forall q :: 0 <= q < 8 * |bitmap| ==> !BitAt(bitmap, q)
  {
    forall q | 0 <= q < 8 * |bitmap| ensures !BitAt(bitmap, q) { ZeroHasNone(q % 8); }
  }

  lemma {:induction false} ZeroHasNone(i: nat)
    ensures !HasBit(0, i)
  {
    if i > 0 { ZeroHasNone(i - 1); }
  }

  method KeyMayMatch(hash: nat, filter: Bytes) returns (r: bool)
    requires hash < TWO_TO_32
    ensures r <==> Matches(hash, filter)
  {
    if |filter| < 2 { return false; }
    var bitmap, k := filter[..|filter| - 1], filter[|filter| - 1] as nat;
    if k > 30 { return true; }
    var h, j := hash, 0;
    while j < k
      invariant j <= k && h == Probe(hash, j) && AllSet(bitmap, hash, j)
    {
      var pos := h % (8 * |bitmap|);
      if !HasBit(filter[pos / 8], pos % 8) {
        assert !BitAt(bitmap, Probe(hash, j) % (8 * |bitmap|));
        return false;
      }
      h := (h + Delta(hash)) % TWO_TO_32;
      j := j + 1;
    }
    r := true;
  }
}
