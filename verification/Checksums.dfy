// Checksums over bytes: a change to a few neighbouring bytes is always noticed.

module Checksums {
  import opened Coding
  import BitVectors
  import Crc32c

  lemma BitsConcat(a: Bytes, b: Bytes)
    ensures Bits(a + b) == Bits(a) + Bits(b)
  {
  }

  lemma BitsDiffer(a: Bytes, b: Bytes)
    requires |a| == |b| && a != b
    ensures Bits(a) != Bits(b)
  {
    var i :| 0 <= i < |a| && a[i] != b[i];
    BitVectors.ByteOf(a[i]);
    BitVectors.ByteOf(b[i]);
    assert Bits(a)[i] == a[i] as bv8 && Bits(b)[i] == b[i] as bv8;
  }

  // Two strings that differ in a window of four bytes only.
  predicate DifferIn(a: Bytes, b: Bytes, p: nat) {
    |a| == |b| && a != b && forall i :: 0 <= i < |a| && !(p <= i < p + 4) ==> a[i] == b[i]
  }

  lemma WindowIsNoticed(a: Bytes, b: Bytes, p: nat)
    requires DifferIn(a, b, p)
    ensures Crc32c.Value(Bits(a)) != Crc32c.Value(Bits(b))
  {
    hide Crc32c.Value, Bits;
    assert exists i :: 0 <= i < |a| && a[i] != b[i];
    assert p < |a|;
    var q := if p + 4 < |a| then p + 4 else |a|;
    var before, x, y, after := a[..p], a[p..q], b[p..q], a[q..];
    assert b[..p] == before && b[q..] == after;
    assert a == before + x + after && b == before + y + after;
    assert x != y;
    BitsConcat(before + x, after);
    BitsConcat(before, x);
    BitsConcat(before + y, after);
    BitsConcat(before, y);
    BitsDiffer(x, y);
    SameLengthBits(x);
    SameLengthBits(y);
    Crc32c.ShortChangeIsNoticed(Bits(before), Bits(x), Bits(y), Bits(after));
  }

  lemma SameLengthBits(a: Bytes)
    ensures |Bits(a)| == |a|
  {
  }

  lemma WordsDiffer(a: Bytes, b: Bytes)
    requires |a| == |b| == 4 && a != b
    ensures Crc32c.Unmask(Word(a)) != Crc32c.Unmask(Word(b))
  {
    hide Crc32c.Mask, Crc32c.Unmask, Word;
    Crc32c.MaskUnmask(Word(a));
    Crc32c.MaskUnmask(Word(b));
    BytesOfWord(a);
    BytesOfWord(b);
  }

  lemma DifferInSlice(a: Bytes, b: Bytes, p: nat, from: nat, to: nat)
    requires DifferIn(a, b, p) && from <= p < to <= |a| && (p + 4 <= to || to - p == 4 || to == |a|)
    ensures DifferIn(a[from..to], b[from..to], p - from)
  {
    var i :| 0 <= i < |a| && a[i] != b[i];
    assert a[from..to][i - from] != b[from..to][i - from];
  }
}
