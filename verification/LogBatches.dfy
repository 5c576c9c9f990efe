// The write-ahead log from the bytes up: a log cut anywhere replays as a
// prefix of the write batches, each of them whole.

module LogBatches {
  import opened Coding
  import opened LogFormat
  import opened LogRoundTrip
  import opened LogFiles
  import opened BatchFormat
  import opened WriteBatches
  import opened MemTables
  import Entries

  datatype Batch = Batch(sequence: nat, ops: seq<BatchOp>)

  ghost predicate BatchOk(b: Batch) {
    && b.sequence < TWO_TO_64 && |b.ops| < TWO_TO_32 && (forall op :: op in b.ops ==> OpOk(op))
    && Insertable(b.ops, b.sequence)
  }

  // Batches are numbered one after the other.
  ghost predicate Numbered(batches: seq<Batch>) {
    && (forall b :: b in batches ==> BatchOk(b))
    && forall i, j :: 0 <= i < j < |batches| ==> batches[i].sequence + |batches[i].ops| <= batches[j].sequence
  }

  // What Write hands to the log.
  function Record(b: Batch): Bytes {
    if b.sequence < TWO_TO_64 && |b.ops| < TWO_TO_32 then BatchBytes(b.sequence, b.ops) else []
  }

  function RecordsOf(batches: seq<Batch>): (r: seq<Bytes>)
    ensures |r| == |batches| && forall i :: 0 <= i < |r| ==> r[i] == Record(batches[i])
  {
    seq(|batches|, i requires 0 <= i < |batches| => Record(batches[i]))
  }

  function LogFile(batches: seq<Batch>): Bytes {
    Written(RecordsOf(batches), 0)
  }

  // How many batches a cut log still holds completely.
  function Whole(batches: seq<Batch>, m: nat): (n: nat)
    requires m <= |LogFile(batches)|
  {
    Complete(RecordsOf(batches), 0, m)
  }

  lemma CutLogKeepsWholeBatches(batches: seq<Batch>, m: nat)
    requires Numbered(batches) && m <= |LogFile(batches)|
    ensures var n := Whole(batches, m);
      && n <= |batches| && ReadAll(LogFile(batches)[..m], 0) == (RecordsOf(batches[..n]), 0)
      && forall i :: 0 <= i < n ==> RecordsOf(batches[..n])[i] == Record(batches[i])
    ensures m == |LogFile(batches)| ==> Whole(batches, m) == |batches|
  {
    hide Written, ReadAll, Complete, Record;
    var records := RecordsOf(batches);
    PrefixOfFileIsPrefixOfRecords(records, m);
    CompleteAtEnd(records, 0);
    var n := Complete(records, 0, m);
    assert records[..n] == RecordsOf(batches[..n]);
  }

  ghost function InsertBatches(run: Entries.Run, batches: seq<Batch>): Entries.Run
    requires forall b :: b in batches ==> BatchOk(b)
  {
    if |batches| == 0 then run
    else
      var last := batches[|batches| - 1];
      assert last in batches && BatchOk(last) && Insertable(last.ops, last.sequence);
      InsertAll(InsertBatches(run, batches[..|batches| - 1]), last.ops, last.sequence)
  }

  // RecoverLogFile without a limit on the memtable: every record the reader
  // still finds goes into it.
  method ReplayLog(file: Bytes, mem: MemTable, ghost batches: seq<Batch>) returns (ok: bool)
    requires mem.Valid() && Numbered(batches) && file <= LogFile(batches)
    requires forall b :: b in batches ==> AllOlder(mem, b.sequence)
    modifies mem
    ensures mem.Valid() && ok && Whole(batches, |file|) <= |batches|
    ensures mem.Run() == InsertBatches(old(mem.Run()), batches[..Whole(batches, |file|)])
  {
    hide Written, ReadAll, Record, Insertable, InsertAll, MemTable.Valid, MemTable.Run, Complete, LogFile, AllOlder, BatchOk,
      InsertBatches;
    CutLogKeepsWholeBatches(batches, |file|);
    assert file == LogFile(batches)[..|file|];
    var records, reports := ReadLog(file);
    ghost var n := Whole(batches, |file|);
    ok := true;
    var i := 0;
    NoBatches(mem.Run(), batches);
    while i < |records|
      invariant i <= |records| == n && ok && mem.Valid()
      invariant mem.Run() == InsertBatches(old(mem.Run()), batches[..i])
      invariant i < n ==> AllOlder(mem, batches[i].sequence)
      invariant forall k :: 0 <= k < n ==> records[k] == Record(batches[k])
    {
      NextBatch(old(mem.Run()), batches, i);
      ok := ReplayRecord(records[i], mem, batches[i]);
      i := i + 1;
      if i < n { StillOlder(mem, batches, i); }
    }
  }

  method ReplayRecord(record: Bytes, mem: MemTable, ghost b: Batch) returns (ok: bool)
    requires mem.Valid() && BatchOk(b) && record == Record(b) && AllOlder(mem, b.sequence)
    modifies mem
    ensures mem.Valid() && ok && AllOlder(mem, b.sequence + |b.ops|)
    ensures mem.Run() == InsertAll(old(mem.Run()), b.ops, b.sequence)
  {
    hide Record, Insertable, InsertAll, MemTable.Valid, MemTable.Run;
    RecordApplies(b);
    ok := InsertInto(record, mem);
  }

  lemma NoBatches(run: Entries.Run, batches: seq<Batch>)
    requires forall b :: b in batches ==> BatchOk(b)
    ensures InsertBatches(run, batches[..0]) == run
  {
  }

  lemma NextBatch(run: Entries.Run, batches: seq<Batch>, i: nat)
    requires (forall b :: b in batches ==> BatchOk(b)) && i < |batches|
    ensures BatchOk(batches[i])
    ensures InsertBatches(run, batches[..i + 1])
      == InsertAll(InsertBatches(run, batches[..i]), batches[i].ops, batches[i].sequence)
  {
    hide InsertAll;
    assert batches[..i + 1][..i] == batches[..i];
  }

  lemma StillOlder(mem: MemTable, batches: seq<Batch>, i: nat)
    requires Numbered(batches) && 0 < i < |batches| && AllOlder(mem, batches[i - 1].sequence + |batches[i - 1].ops|)
    ensures AllOlder(mem, batches[i].sequence)
  {
  }

  lemma RecordApplies(b: Batch)
    requires BatchOk(b)
    ensures |Record(b)| >= HEADER && Applied(Record(b)) == (b.ops, true) && DecodeFixed64(Record(b)[..8]) == b.sequence
  {
    BatchRoundTrip(b.sequence, b.ops);
  }
}
