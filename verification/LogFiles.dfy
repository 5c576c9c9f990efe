// The log writer and reader as objects over a file, refining LogFormat.

module LogFiles {
  import opened Wrappers
  import opened Coding
  import opened LogFormat
  import Crc32c

  // ------------------------------------------------------------ log::Writer

  class Writer {
    var dest: Bytes              // contents of the file
    var blockOffset: nat
    var typeCrc: seq<bv32>       // checksums of the one-byte strings 0..4

    ghost predicate Valid() reads this {
      && blockOffset <= BLOCK_SIZE
      && |dest| % BLOCK_SIZE == blockOffset % BLOCK_SIZE
      && |typeCrc| == 5
      && forall t: Byte :: t < 5 ==> typeCrc[t] == Crc32c.Value([t as bv8])
    }

    constructor ()
      ensures Valid() && dest == []
    {
      dest, blockOffset := [], 0;
      typeCrc := seq(5, t requires 0 <= t < 5 => Crc32c.Value([t as bv8]));
    }

    method EmitPhysicalRecord(t: Byte, payload: Bytes)
      requires Valid() && 1 <= t <= 4 && blockOffset + HEADER_SIZE + |payload| <= BLOCK_SIZE
      modifies this
      ensures Valid() && dest == old(dest) + Physical(t, payload)
      ensures blockOffset == old(blockOffset) + HEADER_SIZE + |payload|
    {
      hide Crc32c.Mask, Crc32c.Extended, Checksum, EncodeFixed32;
      var address: nat :| true;
      var crc := Crc32c.Extend(typeCrc[t], Bits(payload), address);
      ChecksumInParts(t, payload);
      var buf := EncodeFixed32(Crc32c.Mask(crc) as int) + [|payload| % 256, |payload| / 256, t];
      dest := dest + buf;
      dest := dest + payload;
      assert buf == Header(t, payload);
      assert dest == old(dest) + (buf + payload);
      blockOffset := blockOffset + HEADER_SIZE + |payload|;
    }

    // The record's fragments, each in its block.
    method AddRecord(data: Bytes)
      requires Valid()
      modifies this
      ensures Valid() && dest == old(dest) + Fragments(data, |old(dest)|, true)
    {
      hide Physical, Fragments, FirstPiece;
      var left, begin, more := data, true, true;
      ghost var before := dest;
      assert before + Fragments(data, |before|, true) == dest + Fragments(left, |dest|, begin);
      while more
        invariant Valid()
        invariant more ==> before + Fragments(data, |before|, true) == dest + Fragments(left, |dest|, begin)
        invariant !more ==> before + Fragments(data, |before|, true) == dest
        decreases more, |left|, if Available(|dest|) == 0 then 1 else 0
      {
        ghost var start := dest;
        var leftover := BLOCK_SIZE - blockOffset;
        if leftover < HEADER_SIZE {
          if leftover > 0 { dest := dest + Zeros(leftover); }
          blockOffset := 0;
        }
        assert dest == start + Zeros(Padding(|start|));
        var avail := BLOCK_SIZE - blockOffset - HEADER_SIZE;
        var n := if |left| < avail then |left| else avail;
        assert n == FragmentLength(|left|, |start|);
        var end := |left| == n;
        EmitPhysicalRecord(TypeOf(begin, end), left[..n]);
        NextFragment(before + Fragments(data, |before|, true), start, left, begin);
        PieceWritten(start, left, begin);
        left, begin, more := left[n..], false, |left| > n;
      }
    }
  }

  lemma ChecksumInParts(t: Byte, payload: Bytes)
    ensures Crc32c.Extended(Crc32c.Value([t as bv8]), Bits(payload)) == Checksum(t, payload)
  {
    hide Crc32c.AddBytes, Crc32c.Extended;
    Crc32c.ExtendConcat(0, [t as bv8], Bits(payload));
  }

  lemma PieceWritten(start: Bytes, left: Bytes, begin: bool)
    ensures var n := FragmentLength(|left|, |start|);
      start + Zeros(Padding(|start|)) + Physical(TypeOf(begin, n == |left|), left[..n]) == start + FirstPiece(left, |start|, begin)
  {
    hide Physical;
  }

  // One physical record written: what is still to come moves along.
  lemma NextFragment(all: Bytes, start: Bytes, left: Bytes, begin: bool)
    requires all == start + Fragments(left, |start|, begin)
    ensures var n, dest := FragmentLength(|left|, |start|), start + FirstPiece(left, |start|, begin);
      && (n == |left| ==> all == dest)
      && (n < |left| ==> all == dest + Fragments(left[n..], |dest|, false))
      && (n < |left| ==> n > 0 || (Available(|start|) == 0 && Available(|dest|) != 0))
  {
    hide FirstPiece, Available, FragmentLength, Padding;
    var n, piece := FragmentLength(|left|, |start|), FirstPiece(left, |start|, begin);
    if n < |left| {
      Progress(|left|, |start|);
      var rest := Fragments(left[n..], |start| + |piece|, false);
      assert start + (piece + rest) == (start + piece) + rest;
    }
  }

  // ------------------------------------------------------------ log::Reader

  lemma ShortRead(pos: nat, size: nat)
    requires pos <= size && pos % BLOCK_SIZE == 0
    ensures size - pos < BLOCK_SIZE ==> size % BLOCK_SIZE == size - pos
    ensures (pos + BLOCK_SIZE) % BLOCK_SIZE == 0
  {
  }

  lemma FromBuffer(file: Bytes, r: nat)
    requires r <= |file| && Min(BlockEnd(r), |file|) - r >= HEADER_SIZE
    ensures ParsePhysical(file, r) == ParseBuffer(file[r..Min(BlockEnd(r), |file|)], BlockEnd(r) > |file|, r)
  {
  }

  class Reader {
    const file: Bytes
    var pos: nat                 // how far the file has been read
    var buffer: Bytes            // read but not yet consumed
    var eof: bool                // the last read came back short
    var reports: nat             // corruptions reported

    ghost predicate Valid() reads this {
      && |buffer| <= pos <= |file| && buffer == file[pos - |buffer|..pos]
      && (!eof ==> pos % BLOCK_SIZE == 0 && |buffer| <= BLOCK_SIZE)
      && (eof ==> pos == |file| && |buffer| <= |file| % BLOCK_SIZE)
    }

    function Offset(): nat reads this requires |buffer| <= pos { pos - |buffer| }

    constructor (file: Bytes)
      ensures Valid() && this.file == file && Offset() == 0 && reports == 0
    {
      this.file := file;
      pos, buffer, eof, reports := 0, [], false, 0;
    }

    // The next block comes into the buffer.
    method Refill()
      requires Valid() && !eof && |buffer| < HEADER_SIZE
      modifies this
      ensures Valid() && reports == old(reports)
      ensures ParsePhysical(file, Offset()) == ParsePhysical(file, old(Offset()))
      ensures pos > old(pos) || eof
    {
      hide ParsePhysical;
      if |buffer| > 0 {
        BufferIsBlock();
        TailIsSkipped(file, Offset());
      }
      ShortRead(pos, |file|);
      var n := Min(BLOCK_SIZE, |file| - pos);
      buffer := file[pos..pos + n];
      pos := pos + n;
      if n < BLOCK_SIZE { eof := true; }
    }

    method ReadPhysicalRecord() returns (t: Byte, fragment: Bytes)
      requires Valid()
      modifies this
      ensures Valid() && pos >= old(pos)
      ensures var p := ParsePhysical(file, old(Offset()));
        t == p.t && Offset() == p.next && reports == old(reports) + p.reports && (t != EOF && t != BAD_RECORD ==> fragment == p.payload)
    {
      hide ParseBuffer, ParsePhysical;
      while |buffer| < HEADER_SIZE
        invariant Valid() && reports == old(reports) && pos >= old(pos)
        invariant ParsePhysical(file, Offset()) == ParsePhysical(file, old(Offset()))
        decreases |file| - pos, !eof
      {
        if !eof {
          Refill();
        } else {
          EndIsInBlock();
          TailAtEnd(file, Offset());
          buffer := [];
          return EOF, [];
        }
      }
      BufferIsBlock();
      FromBuffer(file, Offset());
      t, fragment := ParseBuffered();
    }

    // A header at least is buffered.
    method ParseBuffered() returns (t: Byte, fragment: Bytes)
      requires Valid() && |buffer| >= HEADER_SIZE
      modifies this
      ensures Valid() && pos == old(pos) && eof == old(eof)
      ensures var p := ParseBuffer(old(buffer), eof, old(Offset()));
        t == p.t && Offset() == p.next && reports == old(reports) + p.reports && (t != EOF && t != BAD_RECORD ==> fragment == p.payload)
    {
      hide Checksum, Crc32c.Unmask, Word;
      var length := (buffer[4] as nat) + 256 * (buffer[5] as nat);
      if HEADER_SIZE + length > |buffer| {
        buffer := [];
        if !eof {
          reports := reports + 1;
          return BAD_RECORD, [];
        }
        return EOF, [];
      }
      if buffer[6] == ZERO_TYPE && length == 0 {
        buffer := [];
        return BAD_RECORD, [];
      }
      t, fragment := buffer[6], buffer[HEADER_SIZE..HEADER_SIZE + length];
      if Crc32c.Unmask(Word(buffer[..4])) != Checksum(t, fragment) {
        buffer := [];
        reports := reports + 1;
        return BAD_RECORD, [];
      }
      buffer := buffer[HEADER_SIZE + length..];
    }

    lemma EndIsInBlock()
      requires Valid() && eof
      ensures pos == |file| < BlockEnd(Offset())
    {
    }

    // What is buffered is the rest of the block at the read offset.
    lemma BufferIsBlock()
      requires Valid() && |buffer| > 0
      ensures Min(BlockEnd(Offset()), |file|) == pos && (BlockEnd(Offset()) <= |file| <==> !eof)
    {
    }

    // One logical record, exactly as LogFormat defines it for any file.
    method ReadRecord() returns (record: Option<Bytes>)
      requires Valid()
      modifies this
      ensures Valid()
      ensures var l := NextRecord(file, old(Offset()), false, []);
        record == l.record && Offset() == l.next && reports == old(reports) + l.reports
    {
      hide ParsePhysical;
      var scratch: Bytes, inFragment := [], false;
      while true
        invariant Valid()
        invariant reports >= old(reports)
        invariant NextRecord(file, old(Offset()), false, [])
          == Reported(reports - old(reports), NextRecord(file, Offset(), inFragment, scratch))
        decreases |file| - Offset()
      {
        var t, fragment := ReadPhysicalRecord();
        if t == FULL_TYPE {
          if inFragment && scratch != [] { reports := reports + 1; }
          return Some(fragment);
        } else if t == FIRST_TYPE {
          if inFragment && scratch != [] { reports := reports + 1; }
          scratch, inFragment := fragment, true;
        } else if t == MIDDLE_TYPE {
          if !inFragment { reports := reports + 1; } else { scratch := scratch + fragment; }
        } else if t == LAST_TYPE {
          if !inFragment {
            reports := reports + 1;
          } else {
            return Some(scratch + fragment);
          }
        } else if t == EOF {
          return None;
        } else if t == BAD_RECORD {
          if inFragment {
            reports := reports + 1;
            scratch, inFragment := [], false;
          }
        } else {
          reports := reports + 1;
          scratch, inFragment := [], false;
        }
      }
    }
  }

  // The loop every caller runs: read until the reader says no.
  method ReadLog(file: Bytes) returns (records: seq<Bytes>, reports: nat)
    ensures (records, reports) == ReadAll(file, 0)
  {
    hide NextRecord;
    var reader := new Reader(file);
    records := [];
    while true
      invariant reader.Valid() && reader.file == file
      invariant ReadAll(file, 0).0 == records + ReadAll(file, reader.Offset()).0
      invariant ReadAll(file, 0).1 == reader.reports + ReadAll(file, reader.Offset()).1
      decreases |file| - reader.Offset()
    {
      ghost var r := reader.Offset();
      var record := reader.ReadRecord();
      OneMore(file, r, records);
      if record == None { break; }
      records := records + [record.value];
    }
    reports := reader.reports;
  }

  lemma OneMore(file: Bytes, r: nat, before: seq<Bytes>)
    requires r <= |file|
    ensures var l := NextRecord(file, r, false, []);
      && (l.record == None ==> before + ReadAll(file, r).0 == before && ReadAll(file, r).1 == l.reports)
      && (l.record.Some? ==> before + ReadAll(file, r).0 == before + [l.record.value] + ReadAll(file, l.next).0)
      && (l.record.Some? ==> ReadAll(file, r).1 == l.reports + ReadAll(file, l.next).1)
  {
    hide NextRecord;
  }
}
