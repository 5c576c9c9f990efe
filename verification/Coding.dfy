// Numbers and the bit vectors that hold them.
module BitVectors {
  lemma Twice32(w: bv32)
    requires w < 0x8000_0000
    ensures (w << 1) as int == 2 * (w as int)
  {
  }

  lemma TwiceAndOne32(w: bv32)
    requires w < 0x8000_0000
    ensures ((w << 1) | 1) as int == 2 * (w as int) + 1
  {
  }

  lemma SmallWord(w: bv32)
    requires (w as int) < 0x8000_0000
    ensures w < 0x8000_0000
  {
  }

  lemma {:induction false} WordOf(v: nat)
    requires v < 0x1_0000_0000
    ensures (v as bv32) as int == v
  {
    var w := WordWith(v);
  }

  lemma {:induction false} WordWith(v: nat) returns (w: bv32)
    requires v < 0x1_0000_0000
    ensures w as int == v
  {
    w := 0;
    if v > 0 {
      var half := WordWith(v / 2);
      SmallWord(half);
      Twice32(half);
      TwiceAndOne32(half);
      w := if v % 2 == 0 then half << 1 else (half << 1) | 1;
    }
  }

  lemma Twice8(w: bv8)
    requires w < 0x80
    ensures (w << 1) as int == 2 * (w as int)
  {
  }

  lemma TwiceAndOne8(w: bv8)
    requires w < 0x80
    ensures ((w << 1) | 1) as int == 2 * (w as int) + 1
  {
  }

  lemma SmallByte(w: bv8)
    requires (w as int) < 0x80
    ensures w < 0x80
  {
  }

  lemma {:induction false} ByteWith(v: nat) returns (w: bv8)
    requires v < 256
    ensures w as int == v
  {
    w := 0;
    if v > 0 {
      var half := ByteWith(v / 2);
      SmallByte(half);
      Twice8(half);
      TwiceAndOne8(half);
      w := if v % 2 == 0 then half << 1 else (half << 1) | 1;
    }
  }

  // No two bytes have the same bits.
  lemma ByteOf(v: nat)
    requires v < 256
    ensures (v as bv8) as int == v
  {
    var w := ByteWith(v);
  }
}

// Bytes, fixed-width little-endian words and base-128 varints.
module Coding {
  import opened Wrappers
  import BitVectors

  type Byte = b: int | 0 <= b < 256
  type Bytes = seq<Byte>

  const TWO_TO_32 := 0x1_0000_0000
  const TWO_TO_64 := 0x1_0000_0000_0000_0000

  // ----------------------------------------------------------- fixed width

  function EncodeFixed32(v: nat): (r: Bytes)
    requires v < TWO_TO_32
    ensures |r| == 4
  {
    var (v1, v2, v3) := (v / 256, v / 256 / 256, v / 256 / 256 / 256);
    [v % 256, v1 % 256, v2 % 256, v3]
  }

  function DecodeFixed32(b: Bytes): (v: nat)
    requires |b| == 4
    ensures v < TWO_TO_32
  {
    var (b0, b1, b2, b3) := (b[0] as nat, b[1] as nat, b[2] as nat, b[3] as nat);
    b0 + 256 * (b1 + 256 * (b2 + 256 * b3))
  }

  lemma Fixed32RoundTrip(v: nat)
    requires v < TWO_TO_32
    ensures DecodeFixed32(EncodeFixed32(v)) == v
  {
  }

  function EncodeFixed64(v: nat): (r: Bytes)
    requires v < TWO_TO_64
    ensures |r| == 8
  {
    EncodeFixed32(v % TWO_TO_32) + EncodeFixed32(v / TWO_TO_32)
  }

  function DecodeFixed64(b: Bytes): (v: nat)
    requires |b| == 8
    ensures v < TWO_TO_64
  {
    DecodeFixed32(b[..4]) + TWO_TO_32 * DecodeFixed32(b[4..])
  }

  lemma Fixed64RoundTrip(v: nat)
    requires v < TWO_TO_64
    ensures DecodeFixed64(EncodeFixed64(v)) == v
  {
    hide EncodeFixed32, DecodeFixed32;
    Fixed32RoundTrip(v % TWO_TO_32);
    Fixed32RoundTrip(v / TWO_TO_32);
    var b := EncodeFixed64(v);
    assert b[..4] == EncodeFixed32(v % TWO_TO_32) && b[4..] == EncodeFixed32(v / TWO_TO_32);
  }

  function Word(b: Bytes): bv32
    requires |b| == 4
  {
    DecodeFixed32(b) as bv32
  }

  lemma WordRoundTrip(w: bv32)
    ensures (w as int) < TWO_TO_32 && Word(EncodeFixed32(w as int)) == w
  {
    Fixed32RoundTrip(w as int);
  }

  lemma BytesOfWord(b: Bytes)
    requires |b| == 4
    ensures (Word(b) as int) < TWO_TO_32 && EncodeFixed32(Word(b) as int) == b
  {
    hide EncodeFixed32, DecodeFixed32;
    FixedBytes32(b);
    BitVectors.WordOf(DecodeFixed32(b));
  }

  lemma FixedBytes32(b: Bytes)
    requires |b| == 4
    ensures EncodeFixed32(DecodeFixed32(b)) == b
  {
    var (b0, b1, b2, b3) := (b[0] as nat, b[1] as nat, b[2] as nat, b[3] as nat);
    var (v3, v2, v1) := (b3, b2 + 256 * b3, b1 + 256 * (b2 + 256 * b3));
    var v := DecodeFixed32(b);
    assert v % 256 == b0 && v / 256 == v1;
    assert v1 % 256 == b1 && v1 / 256 == v2;
    assert v2 % 256 == b2 && v2 / 256 == v3;
  }

  function Bits(b: Bytes): (r: seq<bv8>)
    ensures |r| == |b|
  {
    seq(|b|, i requires 0 <= i < |b| => b[i] as bv8)
  }

  // --------------------------------------------------------------- varints

  // Seven bits a byte, low bits first, the high bit marks that more follow.
  function Varint(v: nat): (r: Bytes)
    ensures |r| > 0
    decreases v
  {
    if v < 128 then [v] else [v % 128 + 128] + Varint(v / 128)
  }

  method EncodeVarint32(v: nat) returns (dst: Bytes)
    requires v < TWO_TO_32
    ensures dst == Varint(v)
  {
    var (v7, v14, v21, v28) := (v / 128, v / 128 / 128, v / 128 / 128 / 128, v / 128 / 128 / 128 / 128);
    if v < 128 {
      dst := [v];
    } else if v7 < 128 {
      dst := [v % 128 + 128, v7];
    } else if v14 < 128 {
      dst := [v % 128 + 128, v7 % 128 + 128, v14];
    } else if v21 < 128 {
      dst := [v % 128 + 128, v7 % 128 + 128, v14 % 128 + 128, v21];
    } else {
      dst := [v % 128 + 128, v7 % 128 + 128, v14 % 128 + 128, v21 % 128 + 128, v28];
    }
    assert v >= 128 ==> Varint(v) == [v % 128 + 128] + Varint(v7);
    assert v7 >= 128 ==> Varint(v7) == [v7 % 128 + 128] + Varint(v14);
    assert v14 >= 128 ==> Varint(v14) == [v14 % 128 + 128] + Varint(v21);
    assert v21 >= 128 ==> Varint(v21) == [v21 % 128 + 128] + Varint(v28);
    assert Varint(v28) == [v28];
  }

  method EncodeVarint64(v: nat) returns (dst: Bytes)
    ensures dst == Varint(v)
  {
    dst := [];
    var rest := v;
    while rest >= 128
      invariant Varint(v) == dst + Varint(rest)
    {
      assert dst + ([rest % 128 + 128] + Varint(rest / 128)) == (dst + [rest % 128 + 128]) + Varint(rest / 128);
      dst := dst + [rest % 128 + 128];
      rest := rest / 128;
    }
    dst := dst + [rest];
  }

  // The value at position p, from at most max bytes, and where it ends.
  function ParseVarint(b: Bytes, p: nat, max: nat): (r: Option<(nat, nat)>)
    ensures r.Some? ==> p < r.value.1 <= |b|
    decreases max
  {
    if max == 0 || p >= |b| then None
    else if b[p] < 128 then Some((b[p] as nat, p + 1))
    else
      var rest := ParseVarint(b, p + 1, max - 1);
      if rest == None then None else Some((b[p] - 128 + 128 * rest.value.0, rest.value.1))
  }

  // GetVarint32Ptr and GetVarint64Ptr: five or ten bytes, cut to the width.
  function GetVarint32(b: Bytes, p: nat): (r: Option<(nat, nat)>)
    ensures r.Some? ==> p < r.value.1 <= |b| && r.value.0 < TWO_TO_32
  {
    var r := ParseVarint(b, p, 5);
    if r == None then None else Some((r.value.0 % TWO_TO_32, r.value.1))
  }

  function GetVarint64(b: Bytes, p: nat): (r: Option<(nat, nat)>)
    ensures r.Some? ==> p < r.value.1 <= |b| && r.value.0 < TWO_TO_64
  {
    var r := ParseVarint(b, p, 10);
    if r == None then None else Some((r.value.0 % TWO_TO_64, r.value.1))
  }

  // The decoding loop: each byte's seven bits land above those already there.
  method DecodeVarint(b: Bytes, start: nat, max: nat, modulus: nat) returns (r: Option<(nat, nat)>)
    requires modulus > 0
    ensures var v := ParseVarint(b, start, max);
      r == if v == None then None else Some((v.value.0 % modulus, v.value.1))
  {
    var result: nat, scale: nat, p: nat, left: nat := 0, 1, start, max;
    while left > 0 && p < |b|
      invariant left <= max && scale > 0
      invariant var v, rest := ParseVarint(b, start, max), ParseVarint(b, p, left);
        && (v == None <==> rest == None)
        && (v.Some? ==> v.value.1 == rest.value.1 && v.value.0 == result + scale * rest.value.0)
      decreases left
    {
      var byte := b[p] as nat;
      p := p + 1;
      left := left - 1;
      if byte >= 128 {
        ghost var rest := ParseVarint(b, p, left);
        if rest.Some? { Distribute(result, scale, byte - 128, rest.value.0); }
        result := result + scale * (byte - 128);
        scale := scale * 128;
      } else {
        return Some(((result + scale * byte) % modulus, p));
      }
    }
    r := None;
  }

  lemma Distribute(result: nat, scale: nat, low: nat, rest: nat)
    ensures result + scale * (low + 128 * rest) == (result + scale * low) + (scale * 128) * rest
  {
  }

  // How many bytes a varint takes.
  lemma {:induction false} VarintFits(v: nat, max: nat, limit: nat)
    requires max > 0 && limit == Pow128(max) && v < limit
    ensures |Varint(v)| <= max
    decreases max
  {
    if v >= 128 {
      VarintFits(v / 128, max - 1, Pow128(max - 1));
    }
  }

  function Pow128(n: nat): nat {
    if n == 0 then 1 else 128 * Pow128(n - 1)
  }

  lemma {:induction false} VarintIsParsed(v: nat, b: Bytes, p: nat, max: nat)
    requires p + |Varint(v)| <= |b| && b[p..p + |Varint(v)|] == Varint(v) && |Varint(v)| <= max
    ensures ParseVarint(b, p, max) == Some((v, p + |Varint(v)|))
    decreases v
  {
    assert b[p] == Varint(v)[0];
    if v >= 128 {
      var rest := Varint(v / 128);
      assert Varint(v)[1..] == rest;
      assert b[p + 1..p + 1 + |rest|] == b[p..p + |Varint(v)|][1..];
      VarintIsParsed(v / 128, b, p + 1, max - 1);
    }
  }

  // Round trips, whatever follows.
  // Five bytes that all say that more follow are no 32-bit varint, and ten no
  // 64-bit varint.
  lemma LongVarintFails(b: Bytes, p: nat)
    ensures p + 5 <= |b| && (forall i :: p <= i < p + 5 ==> b[i] >= 128) ==> GetVarint32(b, p) == None
    ensures p + 10 <= |b| && (forall i :: p <= i < p + 10 ==> b[i] >= 128) ==> GetVarint64(b, p) == None
  {
    if p + 5 <= |b| && (forall i :: p <= i < p + 5 ==> b[i] >= 128) { NeverEnds(b, p, 5); }
    if p + 10 <= |b| && (forall i :: p <= i < p + 10 ==> b[i] >= 128) { NeverEnds(b, p, 10); }
  }

  lemma {:induction false} NeverEnds(b: Bytes, p: nat, max: nat)
    requires p + max <= |b| && forall i :: p <= i < p + max ==> b[i] >= 128
    ensures ParseVarint(b, p, max) == None
    decreases max
  {
    if max > 0 { NeverEnds(b, p + 1, max - 1); }
  }

  lemma Varint32RoundTrip(v: nat, b: Bytes, p: nat)
    requires v < TWO_TO_32 && p + |Varint(v)| <= |b| && b[p..p + |Varint(v)|] == Varint(v)
    ensures GetVarint32(b, p) == Some((v, p + |Varint(v)|))
  {
    assert Pow128(5) == 34359738368;
    VarintFits(v, 5, Pow128(5));
    VarintIsParsed(v, b, p, 5);
  }

  lemma Varint64RoundTrip(v: nat, b: Bytes, p: nat)
    requires v < TWO_TO_64 && p + |Varint(v)| <= |b| && b[p..p + |Varint(v)|] == Varint(v)
    ensures GetVarint64(b, p) == Some((v, p + |Varint(v)|))
  {
    assert Pow128(10) == 1180591620717411303424;
    VarintFits(v, 10, Pow128(10));
    VarintIsParsed(v, b, p, 10);
  }

  // A varint cut short is noticed.
  lemma {:induction false} CutVarintFails(v: nat, n: nat, max: nat)
    requires n < |Varint(v)|
    ensures ParseVarint(Varint(v)[..n], 0, max) == None
    decreases v
  {
    CutFailsAt(v, Varint(v)[..n], 0, max);
  }

  lemma {:induction false} CutFailsAt(v: nat, b: Bytes, p: nat, max: nat)
    requires p <= |b| && |b| - p < |Varint(v)| && b[p..] == Varint(v)[..|b| - p]
    ensures ParseVarint(b, p, max) == None
    decreases v
  {
    if p < |b| && max > 0 {
      assert b[p] == b[p..][0] == Varint(v)[0];
      assert Varint(v)[1..] == Varint(v / 128);
      assert b[p + 1..] == b[p..][1..];
      CutFailsAt(v / 128, b, p + 1, max - 1);
    }
  }

  // ------------------------------------------------ taking bytes off the front

  // A length and as many bytes.
  function Delimited(b: Bytes): Bytes {
    Varint(|b|) + b
  }

  function TakeVarint32(b: Bytes): (r: Option<(nat, Bytes)>)
    ensures r.Some? ==> |r.value.1| < |b|
  {
    var g := GetVarint32(b, 0);
    if g == None then None else Some((g.value.0, b[g.value.1..]))
  }

  function TakeVarint64(b: Bytes): (r: Option<(nat, Bytes)>)
    ensures r.Some? ==> |r.value.1| < |b|
  {
    var g := GetVarint64(b, 0);
    if g == None then None else Some((g.value.0, b[g.value.1..]))
  }

  function TakeDelimited(b: Bytes): (r: Option<(Bytes, Bytes)>)
    ensures r.Some? ==> |r.value.0| + |r.value.1| < |b|
  {
    var g := TakeVarint32(b);
    if g == None || |g.value.1| < g.value.0 then None else Some((g.value.1[..g.value.0], g.value.1[g.value.0..]))
  }

  function TakeBytes(b: Bytes, n: nat): (r: Option<(Bytes, Bytes)>)
    ensures r.Some? ==> |r.value.0| == n && |r.value.1| == |b| - n
  {
    if |b| < n then None else Some((b[..n], b[n..]))
  }

  lemma TakesVarint32(v: nat, rest: Bytes)
    requires v < TWO_TO_32
    ensures TakeVarint32(Varint(v) + rest) == Some((v, rest))
  {
    var b := Varint(v) + rest;
    assert b[0..0 + |Varint(v)|] == Varint(v);
    Varint32RoundTrip(v, b, 0);
  }

  lemma TakesVarint64(v: nat, rest: Bytes)
    requires v < TWO_TO_64
    ensures TakeVarint64(Varint(v) + rest) == Some((v, rest))
  {
    var b := Varint(v) + rest;
    assert b[0..0 + |Varint(v)|] == Varint(v);
    Varint64RoundTrip(v, b, 0);
  }

  lemma TakesDelimited(d: Bytes, rest: Bytes)
    requires |d| < TWO_TO_32
    ensures TakeDelimited(Delimited(d) + rest) == Some((d, rest))
  {
    assert Delimited(d) + rest == Varint(|d|) + (d + rest);
    TakesVarint32(|d|, d + rest);
  }

  lemma TakesBytes(d: Bytes, rest: Bytes)
    ensures TakeBytes(d + rest, |d|) == Some((d, rest))
  {
  }
}
