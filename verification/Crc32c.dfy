// CRC-32C: the table-driven loop that takes four bytes a step computes the
// reflected bit-by-bit CRC of section 12.1 of RFC 3720.

module Crc32c {
  const ALL_ONES: bv32 := 0xffff_ffff
  const POLYNOMIAL: bv32 := 0x82f6_3b78
  const MASK_DELTA: bv32 := 0xa282_ead8

  // Word operations under a name, so that proofs can treat them as symbols.
  function Xor(a: bv32, b: bv32): bv32 { a ^ b }
  function Half(l: bv32): bv32 { l >> 1 }
  predicate Odd(l: bv32) { l & 1 == 1 }
  function LowByte(l: bv32): bv32 { l & 0xff }
  function HighBytes(l: bv32): bv32 { l & 0xffff_ff00 }
  function DropByte(l: bv32): bv32 { l >> 8 }
  function Widen(b: bv8): bv32 { b as bv32 }

  // -------------------------------------------------- the bitwise reference

  // Shift out one bit; subtract the polynomial if it was set.
  function Shift(l: bv32): bv32 {
    if Odd(l) then Xor(Half(l), POLYNOMIAL) else Half(l)
  }

  function Shift4(l: bv32): bv32 {
    Shift(Shift(Shift(Shift(l))))
  }

  function Shift8(l: bv32): bv32 {
    Shift4(Shift4(l))
  }

  // One byte enters at the low end and eight bits leave.
  function AddByte(l: bv32, b: bv8): bv32 {
    Shift8(Xor(l, Widen(b)))
  }

  function AddBytes(l: bv32, data: seq<bv8>): bv32 {
    if |data| == 0 then l else AddByte(AddBytes(l, data[..|data| - 1]), data[|data| - 1])
  }

  // The CRC of a string continued by more data.
  function Extended(crc: bv32, data: seq<bv8>): bv32 {
    Xor(AddBytes(Xor(crc, ALL_ONES), data), ALL_ONES)
  }

  function Value(data: seq<bv8>): bv32 {
    Extended(0, data)
  }

  lemma {:induction false} AddBytesConcat(l: bv32, a: seq<bv8>, b: seq<bv8>)
    ensures AddBytes(l, a + b) == AddBytes(AddBytes(l, a), b)
  {
    hide Shift8, Xor, Widen;
    if |b| == 0 {
      assert a + b == a;
    } else {
      var front := b[..|b| - 1];
      assert (a + b)[..|a + b| - 1] == a + front;
      AddBytesConcat(l, a, front);
    }
  }

  lemma TwiceFlipped(l: bv32, m: bv32)
    ensures Xor(Xor(l, m), m) == l
  {
  }

  // Extending twice is extending by the concatenation.
  lemma ExtendConcat(crc: bv32, a: seq<bv8>, b: seq<bv8>)
    ensures Extended(Extended(crc, a), b) == Extended(crc, a + b)
  {
    hide AddBytes, Xor, ALL_ONES;
    AddBytesConcat(Xor(crc, ALL_ONES), a, b);
    TwiceFlipped(AddBytes(Xor(crc, ALL_ONES), a), ALL_ONES);
  }

  // --------------------------------------------------------------- tables

  // table0_[c]: eight shifts of the byte c. Each further table feeds one more
  // zero byte.
  function Table0(c: bv32): bv32 {
    Shift8(c)
  }

  function Feed(l: bv32): bv32 {
    Xor(Table0(LowByte(l)), DropByte(l))
  }

  function Table1(c: bv32): bv32 { Feed(Table0(c)) }
  function Table2(c: bv32): bv32 { Feed(Table1(c)) }
  function Table3(c: bv32): bv32 { Feed(Table2(c)) }

  lemma HalvesOfXor(a: bv32, b: bv32)
    ensures Half(Xor(a, b)) == Xor(Half(a), Half(b))
    ensures Odd(Xor(a, b)) <==> Odd(a) != Odd(b)
  {
  }

  lemma XorRearranged(x: bv32, y: bv32, p: bv32)
    ensures Xor(Xor(x, p), y) == Xor(Xor(x, y), p)
    ensures Xor(x, Xor(y, p)) == Xor(Xor(x, y), p)
    ensures Xor(Xor(x, p), Xor(y, p)) == Xor(x, y)
  {
  }

  lemma ShiftIsLinear(a: bv32, b: bv32)
    ensures Shift(Xor(a, b)) == Xor(Shift(a), Shift(b))
  {
    hide Half, Odd, Xor;
    HalvesOfXor(a, b);
    XorRearranged(Half(a), Half(b), POLYNOMIAL);
  }

  lemma Shift4IsLinear(a: bv32, b: bv32)
    ensures Shift4(Xor(a, b)) == Xor(Shift4(a), Shift4(b))
  {
    hide Shift, Xor;
    ShiftIsLinear(a, b);
    ShiftIsLinear(Shift(a), Shift(b));
    ShiftIsLinear(Shift(Shift(a)), Shift(Shift(b)));
    ShiftIsLinear(Shift(Shift(Shift(a))), Shift(Shift(Shift(b))));
  }

  lemma Shift8IsLinear(a: bv32, b: bv32)
    ensures Shift8(Xor(a, b)) == Xor(Shift8(a), Shift8(b))
  {
    hide Shift4, Xor;
    Shift4IsLinear(a, b);
    Shift4IsLinear(Shift4(a), Shift4(b));
  }

  // Bits 0 to 3 are clear, and so are they after four halvings.
  lemma LowNibbleIsClear(l: bv32)
    requires l & 0xf == 0
    ensures !Odd(l) && !Odd(Half(l)) && !Odd(Half(Half(l))) && !Odd(Half(Half(Half(l))))
  {
  }

  lemma FourHalves(l: bv32)
    ensures Half(Half(Half(Half(l)))) == l >> 4
  {
  }

  lemma Shift4WithoutLowNibble(l: bv32)
    requires l & 0xf == 0
    ensures Shift4(l) == l >> 4
  {
    LowNibbleIsClear(l);
    FourHalves(l);
    hide Half, Odd, Xor;
  }

  lemma NibblesOfWord(l: bv32)
    requires LowByte(l) == 0
    ensures l & 0xf == 0 && (l >> 4) & 0xf == 0 && (l >> 4) >> 4 == DropByte(l)
  {
  }

  lemma ShiftedWithoutLowByte(l: bv32)
    requires LowByte(l) == 0
    ensures Shift8(l) == DropByte(l)
  {
    hide Shift4, LowByte, DropByte;
    NibblesOfWord(l);
    Shift4WithoutLowNibble(l);
    Shift4WithoutLowNibble(l >> 4);
  }

  lemma SplitWord(l: bv32)
    ensures l == Xor(LowByte(l), HighBytes(l)) && LowByte(HighBytes(l)) == 0 && DropByte(HighBytes(l)) == DropByte(l)
  {
  }

  // Eight shifts of a word: the low byte through the table, the rest moves.
  lemma FeedIsShift8(l: bv32)
    ensures Feed(l) == Shift8(l)
  {
    hide Shift8, Xor, LowByte, HighBytes, DropByte;
    SplitWord(l);
    Shift8IsLinear(LowByte(l), HighBytes(l));
    ShiftedWithoutLowByte(HighBytes(l));
  }

  lemma LowByteOfXor(l: bv32, b: bv8)
    ensures LowByte(Xor(l, Widen(b))) == Xor(LowByte(l), Widen(b)) && DropByte(Xor(l, Widen(b))) == DropByte(l)
  {
  }

  // STEP1.
  function Step1(l: bv32, b: bv8): bv32 {
    Xor(Table0(Xor(LowByte(l), Widen(b))), DropByte(l))
  }

  lemma Step1AddsByte(l: bv32, b: bv8)
    ensures Step1(l, b) == AddByte(l, b)
  {
    hide Shift8, Xor, LowByte, HighBytes, DropByte, Widen;
    LowByteOfXor(l, b);
    FeedIsShift8(Xor(l, Widen(b)));
  }

  // STEP4: four table lookups for a little-endian word of four bytes.
  function Word(b0: bv8, b1: bv8, b2: bv8, b3: bv8): bv32 {
    Widen(b0) | (Widen(b1) << 8) | (Widen(b2) << 16) | (Widen(b3) << 24)
  }

  function Step4(l: bv32, b0: bv8, b1: bv8, b2: bv8, b3: bv8): bv32 {
    var c := Xor(l, Word(b0, b1, b2, b3));
    Xor(Xor(Xor(Table3(LowByte(c)), Table2(LowByte(DropByte(c)))), Table1(LowByte(DropByte(DropByte(c))))),
        Table0(DropByte(DropByte(DropByte(c)))))
  }

  function Up(l: bv32): bv32 { l << 8 }

  lemma WordIsNested(b0: bv8, b1: bv8, b2: bv8, b3: bv8)
    ensures Word(b0, b1, b2, b3) == Xor(Widen(b0), Up(Xor(Widen(b1), Up(Xor(Widen(b2), Up(Widen(b3)))))))
  {
  }

  lemma UpAndDown(y: bv32)
    requires y & 0xff00_0000 == 0
    ensures DropByte(Up(y)) == y
  {
  }

  lemma SmallWords(b: bv8, y: bv32)
    ensures Widen(b) & 0xffff_ff00 == 0
    ensures y & 0xffff_ff00 == 0 ==> Xor(Widen(b), Up(y)) & 0xffff_0000 == 0
    ensures y & 0xffff_0000 == 0 ==> Xor(Widen(b), Up(y)) & 0xff00_0000 == 0
  {
  }

  lemma SmallerMask(y: bv32)
    ensures y & 0xffff_ff00 == 0 ==> y & 0xffff_0000 == 0
    ensures y & 0xffff_0000 == 0 ==> y & 0xff00_0000 == 0
  {
  }

  lemma UpFits(b1: bv8, b2: bv8, b3: bv8)
    ensures DropByte(Up(Widen(b3))) == Widen(b3)
    ensures DropByte(Up(Xor(Widen(b2), Up(Widen(b3))))) == Xor(Widen(b2), Up(Widen(b3)))
    ensures DropByte(Up(Xor(Widen(b1), Up(Xor(Widen(b2), Up(Widen(b3))))))) == Xor(Widen(b1), Up(Xor(Widen(b2), Up(Widen(b3)))))
  {
    hide Up, DropByte, Widen, Xor;
    var r2 := Xor(Widen(b2), Up(Widen(b3)));
    SmallWords(b3, 0);
    SmallWords(b2, Widen(b3));
    SmallWords(b1, r2);
    SmallerMask(Widen(b3));
    SmallerMask(r2);
    UpAndDown(Widen(b3));
    UpAndDown(r2);
    UpAndDown(Xor(Widen(b1), Up(r2)));
  }

  lemma UpHasNoLowByte(l: bv32)
    ensures LowByte(Up(l)) == 0
  {
  }

  lemma XorAssoc(x: bv32, y: bv32, z: bv32)
    ensures Xor(Xor(x, y), z) == Xor(x, Xor(y, z))
  {
  }

  // A byte not yet due waits in the higher bits.
  lemma ShiftPastWaiting(x: bv32, y: bv32)
    requires DropByte(Up(y)) == y
    ensures Shift8(Xor(x, Up(y))) == Xor(Shift8(x), y)
  {
    hide Shift8, Xor, Up, DropByte, LowByte;
    UpHasNoLowByte(y);
    Shift8IsLinear(x, Up(y));
    ShiftedWithoutLowByte(Up(y));
  }

  lemma FourBytesAtOnce(l: bv32, b0: bv8, b1: bv8, b2: bv8, b3: bv8)
    ensures Shift8(Shift8(Shift8(Shift8(Xor(l, Word(b0, b1, b2, b3)))))) == AddByte(AddByte(AddByte(AddByte(l, b0), b1), b2), b3)
  {
    hide Shift8, Xor, Up, DropByte, Widen, Word;
    var r2 := Xor(Widen(b2), Up(Widen(b3)));
    var r1 := Xor(Widen(b1), Up(r2));
    WordIsNested(b0, b1, b2, b3);
    UpFits(b1, b2, b3);
    XorAssoc(l, Widen(b0), Up(r1));
    ShiftPastWaiting(Xor(l, Widen(b0)), r1);
    XorAssoc(AddByte(l, b0), Widen(b1), Up(r2));
    ShiftPastWaiting(Xor(AddByte(l, b0), Widen(b1)), r2);
    XorAssoc(AddByte(AddByte(l, b0), b1), Widen(b2), Up(Widen(b3)));
    ShiftPastWaiting(Xor(AddByte(AddByte(l, b0), b1), Widen(b2)), Widen(b3));
  }

  // Shifting a table entry advances it to the next table.
  lemma NextTable(c: bv32)
    ensures Shift8(Table0(c)) == Table1(c) && Shift8(Table1(c)) == Table2(c) && Shift8(Table2(c)) == Table3(c)
  {
    hide Shift8, Feed;
    FeedIsShift8(Table0(c));
    FeedIsShift8(Table1(c));
    FeedIsShift8(Table2(c));
  }

  lemma ShiftSplit(t: bv32, l: bv32)
    ensures Shift8(Xor(t, l)) == Xor(Xor(Shift8(t), Table0(LowByte(l))), DropByte(l))
  {
    hide Shift8, Xor, LowByte, DropByte;
    Shift8IsLinear(t, l);
    FeedIsShift8(l);
    XorAssoc(Shift8(t), Table0(LowByte(l)), DropByte(l));
  }

  lemma FourTables(c: bv32)
    ensures Shift8(Shift8(Shift8(Shift8(c))))
      == Xor(Xor(Xor(Table3(LowByte(c)), Table2(LowByte(DropByte(c)))), Table1(LowByte(DropByte(DropByte(c))))),
             Table0(DropByte(DropByte(DropByte(c)))))
  {
    hide Shift8, Xor, LowByte, DropByte, Table0, Table1, Table2, Table3;
    var d1 := DropByte(c);
    var d2 := DropByte(d1);
    var d3 := DropByte(d2);
    var c0, c1, c2 := LowByte(c), LowByte(d1), LowByte(d2);
    NextTable(c0);
    NextTable(c1);
    NextTable(c2);
    FeedIsShift8(c);
    assert Shift8(c) == Xor(Table0(c0), d1);
    ShiftSplit(Table0(c0), d1);
    var t2 := Xor(Table1(c0), Table0(c1));
    assert Shift8(Shift8(c)) == Xor(t2, d2);
    Shift8IsLinear(Table1(c0), Table0(c1));
    ShiftSplit(t2, d2);
    var t3 := Xor(Xor(Table2(c0), Table1(c1)), Table0(c2));
    assert Shift8(Shift8(Shift8(c))) == Xor(t3, d3);
    Shift8IsLinear(Xor(Table2(c0), Table1(c1)), Table0(c2));
    Shift8IsLinear(Table2(c0), Table1(c1));
    Shift8IsLinear(t3, d3);
    TableOfByte(d3);
  }

  lemma TableOfByte(c: bv32)
    ensures Table0(c) == Shift8(c)
  {
  }

  // One four-byte step is four one-byte steps.
  lemma Step4AddsFourBytes(l: bv32, b0: bv8, b1: bv8, b2: bv8, b3: bv8)
    ensures Step4(l, b0, b1, b2, b3) == AddByte(AddByte(AddByte(AddByte(l, b0), b1), b2), b3)
  {
    hide Shift8, Xor, LowByte, DropByte, Table0, Table1, Table2, Table3, AddByte, Word;
    FourBytesAtOnce(l, b0, b1, b2, b3);
    FourTables(Xor(l, Word(b0, b1, b2, b3)));
  }

  // ------------------------------------------------------------ the loop

  lemma NextByte(l: bv32, data: seq<bv8>, p: nat)
    requires p < |data|
    ensures AddBytes(l, data[..p + 1]) == AddByte(AddBytes(l, data[..p]), data[p])
  {
    assert data[..p + 1][..p] == data[..p];
  }

  method FourSteps(l: bv32, data: seq<bv8>, p: nat, ghost start: bv32) returns (l': bv32)
    requires p + 4 <= |data| && l == AddBytes(start, data[..p])
    ensures l' == AddBytes(start, data[..p + 4])
  {
    hide Step4, AddByte;
    l' := Step4(l, data[p], data[p + 1], data[p + 2], data[p + 3]);
    Step4AddsFourBytes(l, data[p], data[p + 1], data[p + 2], data[p + 3]);
    NextByte(start, data, p);
    NextByte(start, data, p + 1);
    NextByte(start, data, p + 2);
    NextByte(start, data, p + 3);
  }

  // Extend, for a buffer at any address: single bytes up to a four-byte
  // boundary, then sixteen and four at a time, then the rest.
  method Extend(crc: bv32, data: seq<bv8>, address: nat) returns (r: bv32)
    ensures r == Extended(crc, data)
  {
    hide AddByte, AddBytes, Step1, Step4, Xor;
    var n := |data|;
    var l := Xor(crc, ALL_ONES);
    ghost var start := l;
    var p := 0;
    AddNothing(start);
    assert data[..0] == [];
    var aligned := (address + 3) / 4 * 4 - address;
    if aligned <= n {
      while p != aligned
        invariant p <= aligned && l == AddBytes(start, data[..p])
      {
        NextByte(start, data, p);
        Step1AddsByte(l, data[p]);
        l := Step1(l, data[p]);
        p := p + 1;
      }
    }
    while n - p >= 16
      invariant p <= n && l == AddBytes(start, data[..p])
    {
      l := FourSteps(l, data, p, start);
      l := FourSteps(l, data, p + 4, start);
      l := FourSteps(l, data, p + 8, start);
      l := FourSteps(l, data, p + 12, start);
      p := p + 16;
    }
    while n - p >= 4
      invariant p <= n && l == AddBytes(start, data[..p])
    {
      l := FourSteps(l, data, p, start);
      p := p + 4;
    }
    while p != n
      invariant p <= n && l == AddBytes(start, data[..p])
    {
      NextByte(start, data, p);
      Step1AddsByte(l, data[p]);
      l := Step1(l, data[p]);
      p := p + 1;
    }
    assert data[..n] == data;
    r := Xor(l, ALL_ONES);
  }

  lemma AddNothing(l: bv32)
    ensures AddBytes(l, []) == l
  {
  }

  // ------------------------------------------------- what the CRC notices

  lemma ShiftOfNothing(x: bv32)
    ensures Shift(x) == 0 ==> x == 0
  {
  }

  lemma XorIsZero(a: bv32, b: bv32)
    ensures Xor(a, b) == 0 <==> a == b
  {
  }

  lemma ShiftIsInjective(a: bv32, b: bv32)
    ensures Shift(a) == Shift(b) ==> a == b
  {
    hide Shift, Xor;
    ShiftIsLinear(a, b);
    XorIsZero(Shift(a), Shift(b));
    XorIsZero(a, b);
    ShiftOfNothing(Xor(a, b));
  }

  lemma Shift8IsInjective(a: bv32, b: bv32)
    ensures Shift8(a) == Shift8(b) ==> a == b
  {
    hide Shift;
    Shift4IsInjective(a, b);
    Shift4IsInjective(Shift4(a), Shift4(b));
  }

  lemma Shift4IsInjective(a: bv32, b: bv32)
    ensures Shift4(a) == Shift4(b) ==> a == b
  {
    hide Shift;
    ShiftIsInjective(a, b);
    ShiftIsInjective(Shift(a), Shift(b));
    ShiftIsInjective(Shift(Shift(a)), Shift(Shift(b)));
    ShiftIsInjective(Shift(Shift(Shift(a))), Shift(Shift(Shift(b))));
  }

  lemma XorIsInjective(a: bv32, b: bv32, m: bv32)
    ensures Xor(a, m) == Xor(b, m) ==> a == b
    ensures Xor(m, a) == Xor(m, b) ==> a == b
  {
    TwiceFlipped(a, m);
    TwiceFlipped(b, m);
  }

  // Two different states stay different while the same data passes.
  lemma {:induction false} DifferenceStays(l: bv32, m: bv32, data: seq<bv8>)
    ensures AddBytes(l, data) == AddBytes(m, data) ==> l == m
  {
    hide Shift8, Xor, Widen;
    if |data| > 0 {
      var front, b := data[..|data| - 1], data[|data| - 1];
      DifferenceStays(l, m, front);
      Shift8IsInjective(Xor(AddBytes(l, front), Widen(b)), Xor(AddBytes(m, front), Widen(b)));
      XorIsInjective(AddBytes(l, front), AddBytes(m, front), Widen(b));
    }
  }

  lemma WordIsInjective(b0: bv8, b1: bv8, b2: bv8, b3: bv8, c0: bv8, c1: bv8, c2: bv8, c3: bv8)
    ensures Word(b0, b1, b2, b3) == Word(c0, c1, c2, c3) ==> b0 == c0 && b1 == c1 && b2 == c2 && b3 == c3
  {
  }

  lemma FourBytes(l: bv32, x: seq<bv8>)
    requires |x| == 4
    ensures AddBytes(l, x) == AddByte(AddByte(AddByte(AddByte(l, x[0]), x[1]), x[2]), x[3])
  {
    hide AddByte;
    AddNothing(l);
    assert x[..0] == [] && x[..4] == x;
    NextByte(l, x, 0);
    NextByte(l, x, 1);
    NextByte(l, x, 2);
    NextByte(l, x, 3);
  }

  lemma FourBytesDiffer(l: bv32, x: seq<bv8>, y: seq<bv8>)
    requires |x| == |y| == 4 && AddBytes(l, x) == AddBytes(l, y)
    ensures x == y
  {
    hide AddByte, Shift8, Xor, Word, AddBytes;
    FourBytes(l, x);
    FourBytes(l, y);
    FourBytesAtOnce(l, x[0], x[1], x[2], x[3]);
    FourBytesAtOnce(l, y[0], y[1], y[2], y[3]);
    var v, w := Word(x[0], x[1], x[2], x[3]), Word(y[0], y[1], y[2], y[3]);
    var a, b := Xor(l, v), Xor(l, w);
    Shift8IsInjective(Shift8(Shift8(Shift8(a))), Shift8(Shift8(Shift8(b))));
    Shift8IsInjective(Shift8(Shift8(a)), Shift8(Shift8(b)));
    Shift8IsInjective(Shift8(a), Shift8(b));
    Shift8IsInjective(a, b);
    XorIsInjective(v, w, l);
    WordIsInjective(x[0], x[1], x[2], x[3], y[0], y[1], y[2], y[3]);
  }

  lemma ShortStringsDiffer(l: bv32, x: seq<bv8>, y: seq<bv8>)
    requires |x| == |y| <= 4 && AddBytes(l, x) == AddBytes(l, y)
    ensures x == y
  {
    hide AddBytes;
    var zeros := seq(4 - |x|, _ => 0 as bv8);
    AddBytesConcat(l, x, zeros);
    AddBytesConcat(l, y, zeros);
    FourBytesDiffer(l, x + zeros, y + zeros);
    assert (x + zeros)[..|x|] == x && (y + zeros)[..|y|] == y;
  }

  // Whatever happens to up to four bytes next to each other, the CRC changes.
  lemma ShortChangeIsNoticed(before: seq<bv8>, x: seq<bv8>, y: seq<bv8>, after: seq<bv8>)
    requires |x| == |y| <= 4 && x != y
    ensures Value(before + x + after) != Value(before + y + after)
  {
    hide AddBytes, Xor, ALL_ONES;
    var l := Xor(0, ALL_ONES);
    AddBytesConcat(l, before + x, after);
    AddBytesConcat(l, before + y, after);
    AddBytesConcat(l, before, x);
    AddBytesConcat(l, before, y);
    var m := AddBytes(l, before);
    XorIsInjective(AddBytes(l, before + x + after), AddBytes(l, before + y + after), ALL_ONES);
    DifferenceStays(AddBytes(m, x), AddBytes(m, y), after);
    if AddBytes(m, x) == AddBytes(m, y) { ShortStringsDiffer(m, x, y); }
  }

  // -------------------------------------------------------------- masking

  function Mask(crc: bv32): bv32 {
    ((crc >> 15) | (crc << 17)) + MASK_DELTA
  }

  function Unmask(masked: bv32): bv32 {
    var rot := masked - MASK_DELTA;
    (rot >> 17) | (rot << 15)
  }

  lemma UnmaskMask(crc: bv32)
    ensures Unmask(Mask(crc)) == crc
  {
    RotateBack(crc);
    AddThenSubtract((crc >> 15) | (crc << 17), MASK_DELTA);
  }

  lemma RotateBack(crc: bv32)
    ensures var rot := (crc >> 15) | (crc << 17); (rot >> 17) | (rot << 15) == crc
  {
  }

  lemma AddThenSubtract(a: bv32, d: bv32)
    ensures (a + d) - d == a
  {
  }

  lemma MaskUnmask(masked: bv32)
    ensures Mask(Unmask(masked)) == masked
  {
    var rot := masked - MASK_DELTA;
    RotateForth(rot);
    SubtractThenAdd(masked, MASK_DELTA);
  }

  lemma RotateForth(rot: bv32)
    ensures var crc := (rot >> 17) | (rot << 15); (crc >> 15) | (crc << 17) == rot
  {
  }

  lemma SubtractThenAdd(a: bv32, d: bv32)
    ensures (a - d) + d == a
  {
  }
}
