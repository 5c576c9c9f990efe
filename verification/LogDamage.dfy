// What reading a log returns from any file whatever: nothing but records that
// stand there, with checksums that are right. Small damage is always noticed.

module LogDamage {
  import opened Wrappers
  import opened Coding
  import opened LogFormat
  import opened LogRoundTrip
  import opened Checksums
  import Crc32c

  // A physical record is accepted if and only if it stands there as the writer
  // writes it.
  lemma ReadIffWritten(b: Bytes, last: bool, r: nat, t: Byte, payload: Bytes)
    requires |b| >= HEADER_SIZE && |payload| <= 0xffff && t != EOF && t != BAD_RECORD && !(t == ZERO_TYPE && payload == [])
    ensures ParseBuffer(b, last, r) == Piece(t, payload, r + HEADER_SIZE + |payload|, 0)
      <==> HEADER_SIZE + |payload| <= |b| && b[..HEADER_SIZE + |payload|] == Physical(t, payload)
  {
    hide ParseBuffer, Physical;
    var n := HEADER_SIZE + |payload|;
    if ParseBuffer(b, last, r) == Piece(t, payload, r + n, 0) { AcceptedIsPhysical(b, last, r); }
    if n <= |b| && b[..n] == Physical(t, payload) { WrittenIsRead(b, last, r, t, payload); }
  }

  lemma WrittenIsRead(b: Bytes, last: bool, r: nat, t: Byte, payload: Bytes)
    requires |payload| <= 0xffff && HEADER_SIZE + |payload| <= |b| && b[..HEADER_SIZE + |payload|] == Physical(t, payload)
    requires !(t == ZERO_TYPE && payload == [])
    ensures ParseBuffer(b, last, r) == Piece(t, payload, r + HEADER_SIZE + |payload|, 0)
  {
    hide Checksum, Crc32c.Unmask, Crc32c.Mask, Word, Header;
    var p, n := Physical(t, payload), HEADER_SIZE + |payload|;
    HeaderFields(t, payload);
    ChecksumMatches(t, payload);
    assert p[4] == b[4] && p[5] == b[5] && p[6] == b[6];
    assert b[..4] == p[..4] && b[HEADER_SIZE..n] == p[HEADER_SIZE..];
  }

  predicate Accepted(p: Piece) { p.t != EOF && p.t != BAD_RECORD }

  lemma AcceptedIsPhysical(b: Bytes, last: bool, r: nat)
    requires |b| >= HEADER_SIZE && Accepted(ParseBuffer(b, last, r))
    ensures var p := ParseBuffer(b, last, r);
      && p.reports == 0 && |p.payload| <= 0xffff && HEADER_SIZE + |p.payload| <= |b|
      && b[..HEADER_SIZE + |p.payload|] == Physical(p.t, p.payload) && p.next == r + HEADER_SIZE + |p.payload|
  {
    hide Checksum, Crc32c.Unmask, Crc32c.Mask, Word;
    var p := ParseBuffer(b, last, r);
    var n, length := HEADER_SIZE + |p.payload|, (b[4] as nat) + 256 * (b[5] as nat);
    Crc32c.MaskUnmask(Word(b[..4]));
    BytesOfWord(b[..4]);
    assert length % 256 == b[4] && length / 256 == b[5];
    assert Header(p.t, p.payload) == b[..4] + [b[4], b[5], b[6]] == b[..HEADER_SIZE];
    assert b[..n] == b[..HEADER_SIZE] + b[HEADER_SIZE..n];
  }

  // ------------------------------------------------------------ small damage

  lemma ChecksumOf(t: Byte, payload: Bytes)
    ensures Checksum(t, payload) == Crc32c.Value(Bits([t] + payload))
  {
    hide Crc32c.Value;
    BitsConcat([t], payload);
    assert Bits([t]) == [t as bv8];
  }

  lemma WindowInTail(a: Bytes, b: Bytes, p: nat)
    requires DifferIn(a, b, p) && p >= 6 && |a| >= 6
    ensures DifferIn(a[6..], b[6..], p - 6)
  {
    var i :| 0 <= i < |a| && a[i] != b[i];
    assert a[6..][i - 6] != b[6..][i - 6];
  }

  // A record in which up to four neighbouring bytes of its type and payload, or
  // of its checksum, have changed is refused.
  lemma ChangeIsRefused(t: Byte, payload: Bytes, changed: Bytes, p: nat, rest: Bytes, last: bool, r: nat)
    requires |payload| <= 0xffff && DifferIn(Physical(t, payload), changed, p) && (p == 0 || p >= 6)
    ensures var q := ParseBuffer(changed + rest, last, r);
      q.t == BAD_RECORD && (q.reports == 1 || (changed[6] == ZERO_TYPE && payload == []))
  {
    hide Checksum, Crc32c.Unmask, Crc32c.Mask, Word, Header;
    var record, b := Physical(t, payload), changed + rest;
    var n := HEADER_SIZE + |payload|;
    HeaderFields(t, payload);
    ChecksumMatches(t, payload);
    assert record[4] == changed[4] == b[4] && record[5] == changed[5] == b[5] && b[6] == changed[6];
    assert b[..4] == changed[..4] && b[HEADER_SIZE..n] == changed[HEADER_SIZE..];
    var sum, payload' := Word(changed[..4]), changed[HEADER_SIZE..];
    if p == 0 {
      assert record[6] == changed[6] && payload' == record[HEADER_SIZE..];
      var i :| 0 <= i < n && record[i] != changed[i];
      assert record[..4][i] != changed[..4][i];
      WordsDiffer(changed[..4], record[..4]);
    } else {
      assert changed[..4] == record[..4];
      assert [t] + payload == record[6..] && [changed[6]] + payload' == changed[6..];
      WindowInTail(record, changed, p);
      WindowIsNoticed(record[6..], changed[6..], p - 6);
      ChecksumOf(t, payload);
      ChecksumOf(changed[6], payload');
    }
  }

  // ------------------------------------------- records of any file whatever

  datatype Fragment = Fragment(at: nat, t: Byte, payload: Bytes)

  function EndOf(f: Fragment): nat { f.at + HEADER_SIZE + |f.payload| }

  predicate InFile(file: Bytes, f: Fragment) {
    |f.payload| <= 0xffff && EndOf(f) <= |file| && file[f.at..EndOf(f)] == Physical(f.t, f.payload)
  }

  predicate Next(f: Fragment, g: Fragment) {
    g.at == EndOf(f) + Padding(EndOf(f))
  }

  // Fragments that stand in the file one right after the other, but for the
  // tail of a block.
  predicate Together(file: Bytes, fs: seq<Fragment>) {
    && (forall k :: 0 <= k < |fs| ==> InFile(file, fs[k]))
    && (forall k, l :: 0 <= k < |fs| && l == k + 1 < |fs| ==> Next(fs[k], fs[l]))
  }

  predicate Open(fs: seq<Fragment>) {
    |fs| > 0 && fs[0].t == FIRST_TYPE && forall k :: 1 <= k < |fs| ==> fs[k].t == MIDDLE_TYPE
  }

  // A full fragment, or a first one, middle ones, and a last one.
  predicate Whole(fs: seq<Fragment>) {
    && |fs| > 0
    && if |fs| == 1 then fs[0].t == FULL_TYPE else Open(fs[..|fs| - 1]) && fs[|fs| - 1].t == LAST_TYPE
  }

  function Payloads(fs: seq<Fragment>): Bytes {
    if |fs| == 0 then [] else Payloads(fs[..|fs| - 1]) + fs[|fs| - 1].payload
  }

  lemma BlockTails(r: nat)
    ensures BlockEnd(r) - r >= HEADER_SIZE ==> Padding(r) == 0
    ensures BlockEnd(r) - r < HEADER_SIZE ==> r + Padding(r) == BlockEnd(r)
    ensures Padding(BlockEnd(r)) == 0
  {
  }

  lemma PhysicalParts(file: Bytes, r: nat)
    requires r <= |file|
    ensures var end := BlockEnd(r);
      var stop := Min(end, |file|);
      ParsePhysical(file, r)
      == if stop - r >= HEADER_SIZE then ParseBuffer(file[r..stop], end > |file|, r)
         else if end <= |file| then ParsePhysical(file, end)
         else Piece(EOF, [], |file|, 0)
  {
    hide ParseBuffer, BlockEnd;
  }

  lemma AcceptedIsInFile(file: Bytes, r: nat)
    requires r <= |file| && Accepted(ParsePhysical(file, r))
    ensures var p := ParsePhysical(file, r);
      var f := Fragment(r + Padding(r), p.t, p.payload);
      InFile(file, f) && p.next == EndOf(f) && p.reports == 0
    decreases |file| - r
  {
    hide Physical, ParseBuffer, Padding, InFile, ParsePhysical, BlockEnd;
    BlockTails(r);
    PhysicalParts(file, r);
    var end := BlockEnd(r);
    var stop := Min(end, |file|);
    if stop - r >= HEADER_SIZE {
      BufferIsInFile(file, r, stop, end > |file|);
    } else {
      AcceptedIsInFile(file, end);
    }
  }

  lemma BufferIsInFile(file: Bytes, r: nat, stop: nat, last: bool)
    requires r + HEADER_SIZE <= stop <= |file| && Accepted(ParseBuffer(file[r..stop], last, r))
    ensures var p := ParseBuffer(file[r..stop], last, r);
      var f := Fragment(r, p.t, p.payload);
      InFile(file, f) && p.next == EndOf(f) && p.reports == 0
  {
    hide Physical, ParseBuffer;
    var p := ParseBuffer(file[r..stop], last, r);
    AcceptedIsPhysical(file[r..stop], last, r);
    SliceOfSlice(file, r, stop, HEADER_SIZE + |p.payload|);
  }

  lemma SliceOfSlice(file: Bytes, r: nat, stop: nat, n: nat)
    requires r + n <= stop <= |file|
    ensures file[r..stop][..n] == file[r..r + n]
  {
  }

  lemma OneMore(file: Bytes, fs: seq<Fragment>, f: Fragment)
    requires Together(file, fs) && InFile(file, f)
    requires |fs| > 0 ==> Next(fs[|fs| - 1], f)
    ensures Together(file, fs + [f]) && Payloads(fs + [f]) == Payloads(fs) + f.payload
  {
    hide InFile, Next;
    var gs := fs + [f];
    assert gs[..|fs|] == fs && gs[|fs|] == f;
    assert forall k :: 0 <= k < |fs| ==> gs[k] == fs[k];
  }

  lemma Nothing(file: Bytes)
    ensures Together(file, []) && Payloads([]) == []
  {
  }

  // What NextRecord returns are the payloads of a whole record in the file.
  lemma RecordIsInFile(file: Bytes, r: nat, inFragment: bool, scratch: Bytes, fs: seq<Fragment>) returns (gs: seq<Fragment>)
    requires r <= |file|
    requires inFragment ==> Together(file, fs) && Open(fs) && Payloads(fs) == scratch && EndOf(fs[|fs| - 1]) == r && fs[0].at <= r
    ensures var l := NextRecord(file, r, inFragment, scratch);
      l.record.Some? ==>
        Together(file, gs) && Whole(gs) && Payloads(gs) == l.record.value && EndOf(gs[|gs| - 1]) == l.next
        && gs[0].at >= if inFragment then fs[0].at else r
    decreases |file| - r
  {
    hide InFile, ParsePhysical, Padding, Payloads, Together;
    gs := [];
    var p := ParsePhysical(file, r);
    if Accepted(p) { AcceptedIsInFile(file, r); }
    var f := Fragment(r + Padding(r), p.t, p.payload);
    if p.t == EOF {
    } else if p.t == FULL_TYPE {
      Nothing(file);
      OneMore(file, [], f);
      assert [] + [f] == [f] && [] + p.payload == p.payload;
      gs := [f];
    } else if p.t == FIRST_TYPE {
      Nothing(file);
      OneMore(file, [], f);
      assert [] + [f] == [f] && [] + p.payload == p.payload;
      gs := RecordIsInFile(file, p.next, true, p.payload, [f]);
    } else if p.t == MIDDLE_TYPE && inFragment {
      OneMore(file, fs, f);
      gs := RecordIsInFile(file, p.next, true, scratch + p.payload, fs + [f]);
    } else if p.t == LAST_TYPE && inFragment {
      OneMore(file, fs, f);
      gs := fs + [f];
      assert gs[..|fs|] == fs;
    } else {
      var known := p.t == MIDDLE_TYPE || p.t == LAST_TYPE || p.t == BAD_RECORD;
      gs := RecordIsInFile(file, p.next, false, if inFragment || !known then [] else scratch, []);
    }
  }

  function Start(fs: seq<Fragment>): nat
    requires Whole(fs)
  {
    fs[0].at
  }

  function End(fs: seq<Fragment>): nat
    requires Whole(fs)
  {
    EndOf(fs[|fs| - 1])
  }

  // Whatever the file holds, each record that reading it returns stands there
  // whole, and they come in the order of the file.
  lemma {:induction false} AllRecordsAreInFile(file: Bytes, r: nat) returns (all: seq<seq<Fragment>>)
    requires r <= |file|
    ensures |all| == |ReadAll(file, r).0| && forall k :: 0 <= k < |all| ==>
      Together(file, all[k]) && Whole(all[k]) && Payloads(all[k]) == ReadAll(file, r).0[k] && Start(all[k]) >= r
    ensures forall k, l :: 0 <= k < l < |all| ==> End(all[k]) <= Start(all[l])
    decreases |file| - r
  {
    hide NextRecord, Together, Payloads;
    var l := NextRecord(file, r, false, []);
    all := [];
    var gs := RecordIsInFile(file, r, false, [], []);
    if l.record.Some? {
      var more := AllRecordsAreInFile(file, l.next);
      all := [gs] + more;
    }
  }
}
