// Table files: block handles, block trailers and the footer.

module TableFormat {
  import opened Wrappers
  import opened Coding
  import opened Checksums
  import Crc32c

  const TRAILER_SIZE := 5
  const FOOTER_SIZE := 48
  const MAGIC_LOW := 0x8b80_fb57
  const MAGIC_HIGH := 0xdb47_7524
  const NO_COMPRESSION: Byte := 0

  datatype Handle = Handle(offset: nat, size: nat)

  function EncodeHandle(h: Handle): Bytes {
    Varint(h.offset) + Varint(h.size)
  }

  // BlockHandle::DecodeFrom: what follows the two numbers is ignored.
  function DecodeHandle(b: Bytes, p: nat): Option<(Handle, nat)> {
    var offset := GetVarint64(b, p);
    if offset == None then None
    else
      var size := GetVarint64(b, offset.value.1);
      if size == None then None else Some((Handle(offset.value.0, size.value.0), size.value.1))
  }

  lemma HandleRoundTrip(h: Handle, b: Bytes, p: nat)
    requires h.offset < TWO_TO_64 && h.size < TWO_TO_64
    requires p + |EncodeHandle(h)| <= |b| && b[p..p + |EncodeHandle(h)|] == EncodeHandle(h)
    ensures DecodeHandle(b, p) == Some((h, p + |EncodeHandle(h)|)) && |EncodeHandle(h)| <= 20
  {
    hide Varint, GetVarint64;
    var x, y := Varint(h.offset), Varint(h.size);
    var e, q := x + y, p + |x|;
    assert b[p..q] == b[p..p + |e|][..|x|] == x;
    assert b[q..q + |y|] == b[p..p + |e|][|x|..] == y;
    Varint64RoundTrip(h.offset, b, p);
    Varint64RoundTrip(h.size, b, q);
    Varint64Fits(h.offset);
    Varint64Fits(h.size);
  }

  lemma Varint64Fits(v: nat)
    requires v < TWO_TO_64
    ensures |Varint(v)| <= 10
  {
    assert Pow128(10) == 1180591620717411303424;
    VarintFits(v, 10, Pow128(10));
  }

  // --------------------------------------------------------- stored blocks

  function BlockChecksum(block: Bytes, t: Byte): bv32 {
    Crc32c.Value(Bits(block) + [t as bv8])
  }

  function Trailer(block: Bytes): (r: Bytes)
    ensures |r| == TRAILER_SIZE
  {
    [NO_COMPRESSION] + EncodeFixed32(Crc32c.Mask(BlockChecksum(block, NO_COMPRESSION)) as int)
  }

  // The checksum is computed over the block first, then over the type.
  lemma ChecksumInParts(block: Bytes, t: Byte)
    ensures Crc32c.Extended(Crc32c.Value(Bits(block)), [t as bv8]) == BlockChecksum(block, t)
  {
    hide Crc32c.AddBytes, Crc32c.Extended;
    Crc32c.ExtendConcat(0, Bits(block), [t as bv8]);
  }

  function ReadBlock(file: Bytes, h: Handle, verify: bool): Option<Bytes> {
    if h.offset + h.size + TRAILER_SIZE > |file| then None
    else
      var block, at := file[h.offset..h.offset + h.size], h.offset + h.size;
      if verify && Crc32c.Unmask(Word(file[at + 1..at + 5])) != BlockChecksum(block, file[at]) then None
      else if file[at] != NO_COMPRESSION then None
      else Some(block)
  }

  ghost predicate Stored(file: Bytes, h: Handle, block: Bytes) {
    && h.size == |block| && h.offset + h.size + TRAILER_SIZE <= |file|
    && file[h.offset..h.offset + h.size + TRAILER_SIZE] == block + Trailer(block)
  }

  lemma StoredIsRead(file: Bytes, h: Handle, block: Bytes, verify: bool)
    requires Stored(file, h, block)
    ensures ReadBlock(file, h, verify) == Some(block)
  {
    hide Crc32c.Mask, Crc32c.Unmask, BlockChecksum, Word;
    var at, t := h.offset + h.size, Trailer(block);
    var slice := file[h.offset..at + TRAILER_SIZE];
    assert file[h.offset..at] == slice[..|block|] == block;
    assert file[at..at + TRAILER_SIZE] == slice[|block|..] == t;
    assert file[at] == t[0] && file[at + 1..at + 5] == t[1..];
    var sum := BlockChecksum(block, NO_COMPRESSION);
    WordRoundTrip(Crc32c.Mask(sum));
    Crc32c.UnmaskMask(sum);
    assert t[1..] == EncodeFixed32(Crc32c.Mask(sum) as int);
  }

  // With the checksum verified, a block is read if and only if it was stored
  // there as it is.
  lemma ReadIffStored(file: Bytes, h: Handle, block: Bytes)
    ensures ReadBlock(file, h, true) == Some(block) <==> Stored(file, h, block)
  {
    hide Stored, ReadBlock;
    if Stored(file, h, block) { StoredIsRead(file, h, block, true); }
    if ReadBlock(file, h, true) == Some(block) { ReadIsStored(file, h, block); }
  }

  lemma ReadIsStored(file: Bytes, h: Handle, block: Bytes)
    requires ReadBlock(file, h, true) == Some(block)
    ensures Stored(file, h, block)
  {
    hide Crc32c.Mask, Crc32c.Unmask, BlockChecksum, Word;
    var at := h.offset + h.size;
    var sum := file[at + 1..at + 5];
    Crc32c.MaskUnmask(Word(sum));
    BytesOfWord(sum);
    assert Trailer(block) == [file[at]] + sum == file[at..at + TRAILER_SIZE];
    assert file[h.offset..at + TRAILER_SIZE] == file[h.offset..at] + file[at..at + TRAILER_SIZE];
  }

  // A stored block in which up to four neighbouring bytes of the block and its
  // type, or of its checksum, have changed is refused.
  lemma ChangeIsRefused(file: Bytes, h: Handle, block: Bytes, changed: Bytes, p: nat)
    requires Stored(file, h, block) && DifferIn(file, changed, p)
    requires h.offset <= p < h.offset + h.size + TRAILER_SIZE
    requires p + 4 <= h.offset + h.size + 1 || p == h.offset + h.size + 1
    ensures ReadBlock(changed, h, true) == None
  {
    hide Stored, ReadBlock, Crc32c.Mask, BlockChecksum, Trailer;
    var r := ReadBlock(changed, h, true);
    if r.Some? {
      ReadIsStored(changed, h, r.value);
      OneIsStored(file, h, block, changed, r.value, p);
      assert false;
    }
  }

  lemma OneIsStored(file: Bytes, h: Handle, block: Bytes, changed: Bytes, block': Bytes, p: nat)
    requires Stored(file, h, block) && Stored(changed, h, block') && h.offset <= p < h.offset + h.size + TRAILER_SIZE
    requires p + 4 <= h.offset + h.size + 1 || p == h.offset + h.size + 1
    ensures !DifferIn(file, changed, p)
  {
    hide Crc32c.Mask, Crc32c.Value, Bits;
    var a, b := h.offset, h.offset + h.size + TRAILER_SIZE;
    var x, y := block + Trailer(block), block' + Trailer(block');
    if DifferIn(file, changed, p) {
      DifferInSlice(file, changed, p, a, b);
      var n := |block| + 1;
      if p - a == n {
        SameBlock(block, block');
      } else {
        SameChecksum(block, block');
        DifferInSlice(x, y, p - a, 0, n);
        WindowIsNoticed(x[0..n], y[0..n], p - a);
      }
    }
  }

  lemma SameBlock(block: Bytes, block': Bytes)
    requires |block| == |block'|
    requires forall i :: 0 <= i < |block| ==> (block + Trailer(block))[i] == (block' + Trailer(block'))[i]
    ensures block == block'
  {
    hide Trailer;
    forall i | 0 <= i < |block| ensures block[i] == block'[i] {
      assert (block + Trailer(block))[i] == (block' + Trailer(block'))[i];
    }
  }

  lemma SameChecksum(block: Bytes, block': Bytes)
    requires |block| == |block'|
    requires forall i :: |block| + 1 <= i < |block| + TRAILER_SIZE ==> (block + Trailer(block))[i] == (block' + Trailer(block'))[i]
    ensures var n := |block| + 1;
      Crc32c.Value(Bits((block + Trailer(block))[0..n])) == Crc32c.Value(Bits((block' + Trailer(block'))[0..n]))
  {
    hide Crc32c.Value, Crc32c.Unmask, Bits, Word, Trailer;
    var x, y, n := block + Trailer(block), block' + Trailer(block'), |block| + 1;
    StoredParts(block);
    StoredParts(block');
    assert x[n..] == y[n..] && x[0..n] == x[..n] && y[0..n] == y[..n];
  }

  lemma StoredParts(block: Bytes)
    ensures var x, n := block + Trailer(block), |block| + 1;
      && |x| == n + 4 && x[..n] == block + [NO_COMPRESSION]
      && Crc32c.Unmask(Word(x[n..])) == Crc32c.Value(Bits(x[..n]))
  {
    hide Crc32c.Mask, Crc32c.Unmask, Crc32c.Value, Bits, Word;
    var x, n, sum := block + Trailer(block), |block| + 1, BlockChecksum(block, NO_COMPRESSION);
    WordRoundTrip(Crc32c.Mask(sum));
    Crc32c.UnmaskMask(sum);
    assert x[n..] == EncodeFixed32(Crc32c.Mask(sum) as int);
    BitsConcat(block, [NO_COMPRESSION]);
    OneBit(NO_COMPRESSION);
    assert x[..n] == block + [NO_COMPRESSION];
  }

  lemma OneBit(t: Byte)
    ensures Bits([t]) == [t as bv8]
  {
  }

  lemma StoredStays(file: Bytes, more: Bytes, h: Handle, block: Bytes)
    requires Stored(file, h, block)
    ensures Stored(file + more, h, block)
  {
    var end := h.offset + h.size + TRAILER_SIZE;
    assert (file + more)[h.offset..end] == file[h.offset..end];
  }

  // --------------------------------------------------------------- footer

  // Both handles, padded (or cut) to forty bytes, and the magic number.
  function Footer(meta: Handle, index: Handle): (f: Bytes)
    ensures |f| == FOOTER_SIZE
  {
    var handles: Bytes := EncodeHandle(meta) + EncodeHandle(index) + seq(40, _ => 0);
    handles[..40] + (EncodeFixed32(MAGIC_LOW) + EncodeFixed32(MAGIC_HIGH))
  }

  // Both handles, if the magic number is right and they decode.
  function DecodeFooter(b: Bytes): Option<(Handle, Handle)>
    requires |b| == FOOTER_SIZE
  {
    if DecodeFixed32(b[40..44]) != MAGIC_LOW || DecodeFixed32(b[44..]) != MAGIC_HIGH then None
    else
      var meta := DecodeHandle(b, 0);
      if meta == None then None
      else
        var index := DecodeHandle(b, meta.value.1);
        if index == None then None else Some((meta.value.0, index.value.0))
  }

  lemma FooterRoundTrip(meta: Handle, index: Handle)
    requires meta.offset < TWO_TO_64 && meta.size < TWO_TO_64 && index.offset < TWO_TO_64 && index.size < TWO_TO_64
    ensures DecodeFooter(Footer(meta, index)) == Some((meta, index))
  {
    hide EncodeHandle, DecodeHandle, EncodeFixed32, DecodeFixed32;
    var m, i := EncodeHandle(meta), EncodeHandle(index);
    assert m[0..|m|] == m && i[0..|i|] == i;
    HandleRoundTrip(meta, m, 0);
    HandleRoundTrip(index, i, 0);
    var b := Footer(meta, index);
    var magic := EncodeFixed32(MAGIC_LOW) + EncodeFixed32(MAGIC_HIGH);
    assert b[40..] == magic;
    assert b[40..44] == magic[..4] && b[44..] == magic[4..];
    Fixed32RoundTrip(MAGIC_LOW);
    Fixed32RoundTrip(MAGIC_HIGH);
    assert b[..40][..|m| + |i|] == m + i;
    assert b[0..|m|] == m && b[|m|..|m| + |i|] == i;
    HandleRoundTrip(meta, b, 0);
    HandleRoundTrip(index, b, |m|);
  }

  // A footer is accepted only if it ends with the magic number.
  lemma MagicIsNeeded(b: Bytes)
    requires |b| == FOOTER_SIZE && DecodeFooter(b).Some?
    ensures b[40..] == EncodeFixed32(MAGIC_LOW) + EncodeFixed32(MAGIC_HIGH)
  {
    hide DecodeHandle, EncodeFixed32;
    FixedBytes32(b[40..44]);
    FixedBytes32(b[44..]);
    assert b[40..] == b[40..44] + b[44..];
  }
}
