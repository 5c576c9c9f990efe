// Reading a log back: the whole file gives back the records, and a file cut
// at any byte gives back a prefix of them without reporting a corruption.

module LogRoundTrip {
  import opened Wrappers
  import opened Coding
  import opened LogFormat
  import Crc32c

  // The physical record at offset q of a full file w.
  ghost predicate HasPhysical(w: Bytes, q: nat, t: Byte, payload: Bytes) {
    && 1 <= t <= 4
    && q % BLOCK_SIZE + HEADER_SIZE + |payload| <= BLOCK_SIZE
    && q + HEADER_SIZE + |payload| <= |w|
    && w[q..q + HEADER_SIZE + |payload|] == Physical(t, payload)
  }

  lemma ChecksumMatches(t: Byte, payload: Bytes)
    requires |payload| <= 0xffff
    ensures Crc32c.Unmask(Word(Header(t, payload)[..4])) == Checksum(t, payload)
  {
    hide Crc32c.Mask, Crc32c.Unmask, Checksum, Word;
    var masked := Crc32c.Mask(Checksum(t, payload));
    WordRoundTrip(masked);
    Crc32c.UnmaskMask(Checksum(t, payload));
    assert Header(t, payload)[..4] == EncodeFixed32(masked as int);
  }

  lemma HeaderFields(t: Byte, payload: Bytes)
    requires |payload| <= 0xffff
    ensures var p := Physical(t, payload);
      && p[..4] == Header(t, payload)[..4] && p[6] == t && p[HEADER_SIZE..] == payload
      && (p[4] as nat) + 256 * (p[5] as nat) == |payload|
  {
  }

  lemma SliceOfCut(w: Bytes, m: nat, q: nat, e: nat, n: nat)
    requires q + n <= e <= m <= |w|
    ensures w[..m][q..e][..n] == w[q..q + n]
  {
    var a, b := w[..m][q..e][..n], w[q..q + n];
    assert forall i :: 0 <= i < n ==> a[i] == w[..m][q + i] == b[i];
  }

  lemma WholePhysical(w: Bytes, m: nat, q: nat, t: Byte, payload: Bytes)
    requires HasPhysical(w, q, t, payload) && q + HEADER_SIZE + |payload| <= m <= |w|
    ensures ParsePhysical(w[..m], q) == Piece(t, payload, q + HEADER_SIZE + |payload|, 0)
  {
    hide Checksum, Crc32c.Unmask, Word, Header;
    var p, n := Physical(t, payload), HEADER_SIZE + |payload|;
    HeaderFields(t, payload);
    ChecksumMatches(t, payload);
    var b := w[..m][q..Min(BlockEnd(q), m)];
    assert Min(BlockEnd(q), m) >= q + n;
    SliceOfCut(w, m, q, Min(BlockEnd(q), m), n);
    assert b[4] == p[4] && b[5] == p[5] && b[6] == p[6];
    assert b[..4] == p[..4];
    assert b[HEADER_SIZE..n] == p[HEADER_SIZE..];
  }

  lemma CutPhysical(w: Bytes, m: nat, q: nat, t: Byte, payload: Bytes)
    requires HasPhysical(w, q, t, payload) && q <= m <= |w| && m < q + HEADER_SIZE + |payload|
    ensures ParsePhysical(w[..m], q) == Piece(EOF, [], m, 0)
  {
    var p, file := Physical(t, payload), w[..m];
    HeaderFields(t, payload);
    assert BlockEnd(q) > m;
    if m - q >= HEADER_SIZE {
      var slice, b := w[q..q + HEADER_SIZE + |payload|], file[q..m];
      assert forall i :: 0 <= i < HEADER_SIZE ==> slice[i] == b[i];
    }
  }

  // The same behind the padding of a block tail.
  lemma PaddedPhysical(w: Bytes, m: nat, r: nat, t: Byte, payload: Bytes)
    requires r + Padding(r) <= |w| && HasPhysical(w, r + Padding(r), t, payload) && r <= m <= |w|
    ensures var next := r + Padding(r) + HEADER_SIZE + |payload|;
      ParsePhysical(w[..m], r) == if next <= m then Piece(t, payload, next, 0) else Piece(EOF, [], m, 0)
  {
    var q := r + Padding(r);
    if q <= m {
      if q + HEADER_SIZE + |payload| <= m { WholePhysical(w, m, q, t, payload); } else { CutPhysical(w, m, q, t, payload); }
      if Padding(r) > 0 {
        assert q == BlockEnd(r);
        assert ParsePhysical(w[..m], r) == ParsePhysical(w[..m], q);
      }
    } else {
      assert BlockEnd(r) == q;
    }
  }

  // ------------------------------------------------------- logical records

  // The first physical record of what AddRecord writes.
  lemma FirstFragment(left: Bytes, pos: nat, begin: bool, w: Bytes)
    requires var f := Fragments(left, pos, begin); pos + |f| <= |w| && w[pos..pos + |f|] == f
    ensures var n := FragmentLength(|left|, pos);
      && pos + Padding(pos) <= |w| && HasPhysical(w, pos + Padding(pos), TypeOf(begin, n == |left|), left[..n])
      && (n < |left| ==>
            var next, rest := pos + Padding(pos) + HEADER_SIZE + n, Fragments(left[n..], pos + Padding(pos) + HEADER_SIZE + n, false);
            |Fragments(left, pos, begin)| == next - pos + |rest| && w[next..next + |rest|] == rest)
      && (n == |left| ==> |Fragments(left, pos, begin)| == Padding(pos) + HEADER_SIZE + n)
  {
    hide Physical, Fragments, Padding, FragmentLength;
    FragmentsParts(left, pos, begin);
    FragmentFits(|left|, pos);
    var n := FragmentLength(|left|, pos);
    var zeros, p := Zeros(Padding(pos)), Physical(TypeOf(begin, n == |left|), left[..n]);
    var f, q := Fragments(left, pos, begin), pos + Padding(pos);
    var rest := if n == |left| then [] else Fragments(left[n..], q + HEADER_SIZE + n, false);
    assert FirstPiece(left, pos, begin) == zeros + p;
    assert f == zeros + p + rest;
    SliceParts(w, pos, zeros, p, rest);
  }

  lemma SliceParts(w: Bytes, pos: nat, a: Bytes, b: Bytes, c: Bytes)
    requires pos + |a + b + c| <= |w| && w[pos..pos + |a + b + c|] == a + b + c
    ensures w[pos + |a|..pos + |a| + |b|] == b
    ensures w[pos + |a| + |b|..pos + |a| + |b| + |c|] == c
  {
    var abc := a + b + c;
    forall i | 0 <= i < |b| ensures w[pos + |a| + i] == b[i] {
      assert w[pos..pos + |abc|][|a| + i] == abc[|a| + i];
    }
    forall i | 0 <= i < |c| ensures w[pos + |a| + |b| + i] == c[i] {
      assert w[pos..pos + |abc|][|a| + |b| + i] == abc[|a| + |b| + i];
    }
  }

  // Reading on inside a record: all of it, or the end of the cut file.
  lemma {:induction false} FragmentsAreRead(w: Bytes, m: nat, pos: nat, left: Bytes, begin: bool, scratch: Bytes)
    requires var f := Fragments(left, pos, begin); pos + |f| <= |w| && w[pos..pos + |f|] == f
    requires pos <= m <= |w| && (begin ==> scratch == [])
    ensures var next := pos + |Fragments(left, pos, begin)|;
      && (next <= m ==> NextRecord(w[..m], pos, !begin, scratch) == Logical(Some(scratch + left), next, 0))
      && (next > m ==> NextRecord(w[..m], pos, !begin, scratch) == Logical(None, m, 0))
    decreases |left|, if Available(pos) == 0 then 1 else 0
  {
    hide ParsePhysical, Physical, Padding, Fragments, FragmentLength, Available;
    var n := FragmentLength(|left|, pos);
    var t, next := TypeOf(begin, n == |left|), pos + Padding(pos) + HEADER_SIZE + n;
    FirstFragment(left, pos, begin, w);
    PaddedPhysical(w, m, pos, t, left[..n]);
    if n == |left| {
      assert left[..n] == left;
      assert begin ==> scratch + left == left;
    } else if next <= m {
      var scratch' := if begin then left[..n] else scratch + left[..n];
      Progress(|left|, pos);
      FragmentsAreRead(w, m, next, left[n..], false, scratch');
      assert scratch' + left[n..] == scratch + left;
    }
  }

  // ----------------------------------------------------------- whole files

  lemma WrittenParts(records: seq<Bytes>, pos: nat, w: Bytes)
    requires |records| > 0 && pos + |Written(records, pos)| <= |w|
    requires w[pos..pos + |Written(records, pos)|] == Written(records, pos)
    ensures var f := Fragments(records[0], pos, true);
      var rest := Written(records[1..], pos + |f|);
      && |Written(records, pos)| == |f| + |rest|
      && w[pos..pos + |f|] == f && w[pos + |f|..pos + |f| + |rest|] == rest
  {
    hide Fragments;
    var f := Fragments(records[0], pos, true);
    var rest := Written(records[1..], pos + |f|);
    assert Written(records, pos) == [] + f + rest;
    SliceParts(w, pos, [], f, rest);
  }

  // How many records lie entirely in the first m bytes.
  function Complete(records: seq<Bytes>, pos: nat, m: nat): (k: nat)
    ensures k <= |records|
    decreases |records|
  {
    if |records| == 0 then 0
    else
      var next := pos + |Fragments(records[0], pos, true)|;
      if next > m then 0 else 1 + Complete(records[1..], next, m)
  }

  lemma EndOfFile(w: Bytes)
    ensures NextRecord(w, |w|, false, []) == Logical(None, |w|, 0)
  {
    assert ParsePhysical(w, |w|) == Piece(EOF, [], |w|, 0);
  }

  lemma {:induction false} CutFileReads(records: seq<Bytes>, pos: nat, w: Bytes, m: nat)
    requires pos + |Written(records, pos)| == |w| && pos <= m <= |w|
    requires w[pos..] == Written(records, pos)
    ensures ReadAll(w[..m], pos) == (records[..Complete(records, pos, m)], 0)
    decreases |records|
  {
    hide Fragments, NextRecord;
    if |records| == 0 {
      assert m == |w| && w[..m] == w;
      EndOfFile(w);
    } else {
      var f := Fragments(records[0], pos, true);
      WrittenParts(records, pos, w);
      FragmentsAreRead(w, m, pos, records[0], true, []);
      assert [] + records[0] == records[0];
      var next := pos + |f|;
      if next <= m {
        CutFileReads(records[1..], next, w, m);
        var k := Complete(records[1..], next, m);
        assert records[..1 + k] == [records[0]] + records[1..][..k];
      }
    }
  }

  // A file cut at any byte gives exactly the records it holds completely, and
  // the missing tail is not taken for a corruption.
  lemma PrefixOfFileIsPrefixOfRecords(records: seq<Bytes>, m: nat)
    requires m <= |Written(records, 0)|
    ensures ReadAll(Written(records, 0)[..m], 0) == (records[..Complete(records, 0, m)], 0)
  {
    hide Fragments, Written, ReadAll, Complete;
    CutFileReads(records, 0, Written(records, 0), m);
  }

  lemma {:induction false} CompleteAtEnd(records: seq<Bytes>, pos: nat)
    ensures Complete(records, pos, pos + |Written(records, pos)|) == |records|
    decreases |records|
  {
    hide Fragments;
    if |records| > 0 {
      CompleteAtEnd(records[1..], pos + |Fragments(records[0], pos, true)|);
    }
  }

  // The round trip: any list of records, empty and huge ones included.
  lemma LogRoundTrip(records: seq<Bytes>)
    ensures ReadAll(Written(records, 0), 0) == (records, 0)
  {
    hide Fragments, Written, ReadAll, Complete;
    var w := Written(records, 0);
    PrefixOfFileIsPrefixOfRecords(records, |w|);
    CompleteAtEnd(records, 0);
    assert w[..|w|] == w;
    assert records[..|records|] == records;
  }

  // Each AddRecord extends the file by one more record.
  lemma {:induction false} AddRecordExtends(records: seq<Bytes>, pos: nat, r: Bytes)
    ensures Written(records + [r], pos)
      == Written(records, pos) + Fragments(r, pos + |Written(records, pos)|, true)
    decreases |records|
  {
    hide Fragments;
    if |records| == 0 {
      assert [] + [r] == [r] && [r][1..] == [];
      var f := Fragments(r, pos, true);
      assert f + [] == f && [] + f == f;
    } else {
      var f := Fragments(records[0], pos, true);
      AddRecordExtends(records[1..], pos + |f|, r);
      assert (records + [r])[1..] == records[1..] + [r];
      var rest := Written(records[1..], pos + |f|);
      var last := Fragments(r, pos + |f| + |rest|, true);
      assert f + (rest + last) == (f + rest) + last;
    }
  }
}
