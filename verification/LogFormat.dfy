// The log file format: records cut into physical records that never cross a
// 32 KiB block. This module holds the format and what reading any file means.

module LogFormat {
  import opened Wrappers
  import opened Coding
  import Crc32c

  const BLOCK_SIZE := 32768
  const HEADER_SIZE := 7

  const ZERO_TYPE: Byte := 0
  const FULL_TYPE: Byte := 1
  const FIRST_TYPE: Byte := 2
  const MIDDLE_TYPE: Byte := 3
  const LAST_TYPE: Byte := 4
  const EOF: Byte := 5
  const BAD_RECORD: Byte := 6

  function Checksum(t: Byte, payload: Bytes): bv32 {
    Crc32c.Value([t as bv8] + Bits(payload))
  }

  function Header(t: Byte, payload: Bytes): (h: Bytes)
    requires |payload| <= 0xffff
    ensures |h| == HEADER_SIZE
  {
    EncodeFixed32(Crc32c.Mask(Checksum(t, payload)) as int) + [|payload| % 256, |payload| / 256, t]
  }

  function Physical(t: Byte, payload: Bytes): (p: Bytes)
    requires |payload| <= 0xffff
    ensures |p| == HEADER_SIZE + |payload|
  {
    Header(t, payload) + payload
  }

  function Zeros(n: nat): (z: Bytes)
    ensures |z| == n
  {
    seq(n, _ => 0)
  }

  // --------------------------------------------------------------- writing

  // Bytes of padding before the next physical record at a file position.
  function Padding(pos: nat): (n: nat)
    ensures n < HEADER_SIZE
  {
    var leftover := BLOCK_SIZE - pos % BLOCK_SIZE;
    if leftover < HEADER_SIZE then leftover else 0
  }

  // Payload bytes that fit at a position once padding is written.
  function Available(pos: nat): (n: nat) {
    BLOCK_SIZE - (pos + Padding(pos)) % BLOCK_SIZE - HEADER_SIZE
  }

  function TypeOf(begin: bool, end: bool): (t: Byte)
    ensures 1 <= t <= 4
  {
    if begin && end then FULL_TYPE else if begin then FIRST_TYPE else if end then LAST_TYPE else MIDDLE_TYPE
  }

  function FragmentLength(left: nat, pos: nat): (n: nat)
    ensures n <= left && n <= BLOCK_SIZE
  {
    if left < Available(pos) then left else Available(pos)
  }

  // Padding and the first physical record of what is left of a record.
  function FirstPiece(left: Bytes, pos: nat, begin: bool): (p: Bytes)
    ensures |p| == Padding(pos) + HEADER_SIZE + FragmentLength(|left|, pos)
  {
    var n := FragmentLength(|left|, pos);
    Zeros(Padding(pos)) + Physical(TypeOf(begin, n == |left|), left[..n])
  }

  // What AddRecord appends to a file of pos bytes for the rest of a record.
  function Fragments(left: Bytes, pos: nat, begin: bool): Bytes
    decreases |left|, if Available(pos) == 0 then 1 else 0
  {
    var n := FragmentLength(|left|, pos);
    var piece := FirstPiece(left, pos, begin);
    if n == |left| then piece else piece + Fragments(left[n..], pos + |piece|, false)
  }

  lemma FragmentsParts(left: Bytes, pos: nat, begin: bool)
    ensures var n, piece := FragmentLength(|left|, pos), FirstPiece(left, pos, begin);
      Fragments(left, pos, begin) == piece + if n == |left| then [] else Fragments(left[n..], pos + |piece|, false)
  {
    hide FirstPiece;
  }

  lemma FragmentFits(left: nat, pos: nat)
    ensures (pos + Padding(pos)) % BLOCK_SIZE + HEADER_SIZE + FragmentLength(left, pos) <= BLOCK_SIZE
  {
  }

  // A fragment without payload fills a block, so the next one has some.
  lemma Progress(left: nat, pos: nat)
    requires FragmentLength(left, pos) < left
    ensures FragmentLength(left, pos) > 0 || (Available(pos) == 0 && Available(pos + Padding(pos) + HEADER_SIZE) != 0)
  {
  }

  // A file holding these records from position pos on.
  function Written(records: seq<Bytes>, pos: nat): Bytes
    decreases |records|
  {
    if |records| == 0 then []
    else
      var f := Fragments(records[0], pos, true);
      f + Written(records[1..], pos + |f|)
  }

  // --------------------------------------------------------------- reading

  // One physical record read at an offset: its type (or EOF or BAD_RECORD),
  // its payload, the offset of what follows, and the corruptions reported.
  datatype Piece = Piece(t: Byte, payload: Bytes, next: nat, reports: nat)

  function BlockEnd(r: nat): (e: nat)
    ensures r < e <= r + BLOCK_SIZE
  {
    (r / BLOCK_SIZE + 1) * BLOCK_SIZE
  }

  function Min(a: nat, b: nat): nat { if a < b then a else b }

  // The rest of a block, at least a header long; last tells whether the file
  // ends before the block does.
  function ParseBuffer(b: Bytes, last: bool, r: nat): (p: Piece)
    requires |b| >= HEADER_SIZE
    ensures r < p.next <= r + |b|
  {
    var length := (b[4] as nat) + 256 * (b[5] as nat);
    if HEADER_SIZE + length > |b| then
      if last then Piece(EOF, [], r + |b|, 0) else Piece(BAD_RECORD, [], r + |b|, 1)
    else if b[6] == ZERO_TYPE && length == 0 then
      Piece(BAD_RECORD, [], r + |b|, 0)
    else
      var payload := b[HEADER_SIZE..HEADER_SIZE + length];
      if Crc32c.Unmask(Word(b[..4])) != Checksum(b[6], payload) then Piece(BAD_RECORD, [], r + |b|, 1)
      else Piece(b[6], payload, r + HEADER_SIZE + length, 0)
  }

  function ParsePhysical(file: Bytes, r: nat): (p: Piece)
    requires r <= |file|
    ensures p.next <= |file| && (p.t != EOF ==> r < p.next)
    decreases |file| - r
  {
    var end := BlockEnd(r);
    var stop := Min(end, |file|);
    if stop - r >= HEADER_SIZE then ParseBuffer(file[r..stop], end > |file|, r)
    else if end <= |file| then ParsePhysical(file, end)
    else Piece(EOF, [], |file|, 0)
  }

  // The tail of a full block is skipped.
  lemma TailIsSkipped(file: Bytes, r: nat)
    requires r <= |file| && BlockEnd(r) <= |file| && BlockEnd(r) - r < HEADER_SIZE
    ensures ParsePhysical(file, r) == ParsePhysical(file, BlockEnd(r))
  {
  }

  lemma TailAtEnd(file: Bytes, r: nat)
    requires r <= |file| < BlockEnd(r) && |file| - r < HEADER_SIZE
    ensures ParsePhysical(file, r) == Piece(EOF, [], |file|, 0)
  {
  }

  // One logical record: the record or end of file, where reading goes on, and
  // the corruptions reported on the way.
  datatype Logical = Logical(record: Option<Bytes>, next: nat, reports: nat)

  function Reported(n: nat, l: Logical): Logical {
    l.(reports := l.reports + n)
  }

  function NextRecord(file: Bytes, r: nat, inFragment: bool, scratch: Bytes): (l: Logical)
    requires r <= |file|
    ensures l.next <= |file| && (l.record.Some? ==> r < l.next)
    decreases |file| - r
  {
    var p := ParsePhysical(file, r);
    var partial := if inFragment && scratch != [] then 1 else 0;
    if p.t == EOF then Logical(None, p.next, p.reports)
    else if p.t == FULL_TYPE then Logical(Some(p.payload), p.next, p.reports + partial)
    else if p.t == FIRST_TYPE then Reported(p.reports + partial, NextRecord(file, p.next, true, p.payload))
    else if p.t == MIDDLE_TYPE then
      if inFragment then Reported(p.reports, NextRecord(file, p.next, true, scratch + p.payload))
      else Reported(p.reports + 1, NextRecord(file, p.next, false, scratch))
    else if p.t == LAST_TYPE then
      if inFragment then Logical(Some(scratch + p.payload), p.next, p.reports)
      else Reported(p.reports + 1, NextRecord(file, p.next, false, scratch))
    else if p.t == BAD_RECORD then
      if inFragment then Reported(p.reports + 1, NextRecord(file, p.next, false, []))
      else Reported(p.reports, NextRecord(file, p.next, false, scratch))
    else Reported(p.reports + 1, NextRecord(file, p.next, false, []))
  }

  // All records of a file and the number of corruptions reported.
  function ReadAll(file: Bytes, r: nat): (seq<Bytes>, nat)
    requires r <= |file|
    decreases |file| - r
  {
    var l := NextRecord(file, r, false, []);
    if l.record == None then ([], l.reports)
    else
      var (records, reports) := ReadAll(file, l.next);
      ([l.record.value] + records, l.reports + reports)
  }
}
