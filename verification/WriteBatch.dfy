// Write batches as bytes, and the memtable they are inserted into.

module BatchFormat {
  import opened Wrappers
  import opened Coding

  const TYPE_DELETION := 0
  const TYPE_VALUE := 1
  const HEADER := 12

  datatype BatchOp = Put(key: Bytes, value: Bytes) | Delete(key: Bytes)

  predicate OpOk(op: BatchOp) {
    |op.key| < TWO_TO_32 && (op.Put? ==> |op.value| < TWO_TO_32)
  }

  function OpBytes(op: BatchOp): Bytes {
    match op
    case Put(key, value) => [TYPE_VALUE] + Delimited(key) + Delimited(value)
    case Delete(key) => [TYPE_DELETION] + Delimited(key)
  }

  function OpsBytes(ops: seq<BatchOp>): Bytes {
    if |ops| == 0 then [] else OpsBytes(ops[..|ops| - 1]) + OpBytes(ops[|ops| - 1])
  }

  function BatchBytes(sequence: nat, ops: seq<BatchOp>): (r: Bytes)
    requires sequence < TWO_TO_64 && |ops| < TWO_TO_32
    ensures |r| >= HEADER
  {
    EncodeFixed64(sequence) + EncodeFixed32(|ops|) + OpsBytes(ops)
  }

  // What Iterate hands to its handler for the bytes after the header, and
  // whether they are well formed.
  function ParseOps(b: Bytes): (r: (seq<BatchOp>, bool))
    decreases |b|
  {
    if |b| == 0 then ([], true)
    else
      var op := ParseOp(b);
      if op == None then ([], false)
      else
        var rest := ParseOps(op.value.1);
        ([op.value.0] + rest.0, rest.1)
  }

  function ParseOp(b: Bytes): (r: Option<(BatchOp, Bytes)>)
    requires |b| > 0
    ensures r.Some? ==> |r.value.1| < |b|
  {
    var key := TakeDelimited(b[1..]);
    if b[0] == TYPE_VALUE && key.Some? then
      var value := TakeDelimited(key.value.1);
      if value == None then None else Some((Put(key.value.0, value.value.0), value.value.1))
    else if b[0] == TYPE_DELETION && key.Some? then Some((Delete(key.value.0), key.value.1))
    else None
  }

  // The operations a batch applies before it ends or is found corrupt.
  function Applied(rep: Bytes): (r: (seq<BatchOp>, bool)) {
    if |rep| < HEADER then ([], false)
    else
      var p := ParseOps(rep[HEADER..]);
      (p.0, p.1 && |p.0| == DecodeFixed32(rep[8..12]))
  }

  lemma OpIsParsed(op: BatchOp, rest: Bytes)
    requires OpOk(op)
    ensures ParseOp(OpBytes(op) + rest) == Some((op, rest))
  {
    hide Delimited, TakeDelimited;
    var b := OpBytes(op) + rest;
    match op
    case Put(key, value) =>
      assert b[1..] == Delimited(key) + (Delimited(value) + rest);
      TakesDelimited(key, Delimited(value) + rest);
      TakesDelimited(value, rest);
    case Delete(key) =>
      assert b[1..] == Delimited(key) + rest;
      TakesDelimited(key, rest);
  }

  lemma {:induction false} OpsBytesConcat(a: seq<BatchOp>, b: seq<BatchOp>)
    ensures OpsBytes(a + b) == OpsBytes(a) + OpsBytes(b)
  {
    hide OpBytes;
    if |b| == 0 {
      assert a + b == a;
    } else {
      assert (a + b)[..|a + b| - 1] == a + b[..|b| - 1];
      OpsBytesConcat(a, b[..|b| - 1]);
    }
  }

  lemma {:induction false} OpsAreParsed(ops: seq<BatchOp>)
    requires forall op :: op in ops ==> OpOk(op)
    ensures ParseOps(OpsBytes(ops)) == (ops, true)
  {
    hide OpBytes, ParseOp;
    if |ops| > 0 {
      var rest := ops[1..];
      assert ops == [ops[0]] + rest;
      OpsBytesConcat([ops[0]], rest);
      assert [ops[0]][..0] == [] && OpsBytes([ops[0]]) == OpBytes(ops[0]);
      OpIsParsed(ops[0], OpsBytes(rest));
      OpIsNotEmpty(ops[0]);
      OpsAreParsed(rest);
    }
  }

  // A batch is read up to its first record of an unknown kind, and refused.
  lemma {:induction false} UnknownRecordIsRefused(ops: seq<BatchOp>, bad: Bytes)
    requires (forall op :: op in ops ==> OpOk(op)) && |bad| > 0 && bad[0] != TYPE_VALUE && bad[0] != TYPE_DELETION
    ensures ParseOps(OpsBytes(ops) + bad) == (ops, false)
    decreases |ops|
  {
    hide OpBytes, TakeDelimited;
    assert ParseOp(bad) == None;
    hide ParseOp;
    if |ops| == 0 {
      assert OpsBytes(ops) + bad == bad;
    } else {
      var rest := ops[1..];
      assert ops == [ops[0]] + rest;
      OpsBytesConcat([ops[0]], rest);
      assert [ops[0]][..0] == [] && OpsBytes([ops[0]]) == OpBytes(ops[0]);
      assert OpsBytes(ops) + bad == OpBytes(ops[0]) + (OpsBytes(rest) + bad);
      OpIsParsed(ops[0], OpsBytes(rest) + bad);
      OpIsNotEmpty(ops[0]);
      UnknownRecordIsRefused(rest, bad);
    }
  }

  // A batch is accepted if and only if its count is right.
  lemma CountDecides(sequence: nat, count: nat, ops: seq<BatchOp>)
    requires sequence < TWO_TO_64 && count < TWO_TO_32 && forall op :: op in ops ==> OpOk(op)
    ensures Applied(EncodeFixed64(sequence) + EncodeFixed32(count) + OpsBytes(ops)) == (ops, count == |ops|)
  {
    hide EncodeFixed64, EncodeFixed32, OpsBytes, DecodeFixed64, DecodeFixed32;
    var b := EncodeFixed64(sequence) + EncodeFixed32(count) + OpsBytes(ops);
    assert b[8..12] == EncodeFixed32(count) && b[HEADER..] == OpsBytes(ops);
    Fixed32RoundTrip(count);
    OpsAreParsed(ops);
  }

  lemma OpIsNotEmpty(op: BatchOp)
    ensures |OpBytes(op)| > 0
  {
  }

  lemma BatchParts(sequence: nat, ops: seq<BatchOp>)
    requires sequence < TWO_TO_64 && |ops| < TWO_TO_32
    ensures var b := BatchBytes(sequence, ops);
      b[..8] == EncodeFixed64(sequence) && b[8..12] == EncodeFixed32(|ops|) && b[12..] == OpsBytes(ops) && b[8..] == b[8..12] + b[12..]
  {
    hide EncodeFixed64, EncodeFixed32, OpsBytes;
  }

  // A batch that was written by Put and Delete is read back whole.
  lemma BatchRoundTrip(sequence: nat, ops: seq<BatchOp>)
    requires sequence < TWO_TO_64 && |ops| < TWO_TO_32 && forall op :: op in ops ==> OpOk(op)
    ensures Applied(BatchBytes(sequence, ops)) == (ops, true)
    ensures DecodeFixed64(BatchBytes(sequence, ops)[..8]) == sequence
  {
    hide EncodeFixed64, EncodeFixed32, OpsBytes, DecodeFixed64, DecodeFixed32, BatchBytes;
    BatchParts(sequence, ops);
    Fixed64RoundTrip(sequence);
    Fixed32RoundTrip(|ops|);
    OpsAreParsed(ops);
  }
}

module WriteBatches {
  import opened Wrappers
  import opened Coding
  import opened BatchFormat
  import opened MemTables
  import Entries

  class WriteBatch {
    var rep: Bytes
    ghost var sequence: nat
    ghost var ops: seq<BatchOp>

    ghost predicate Valid()
      reads this
    {
      && sequence < TWO_TO_64 && |ops| < TWO_TO_32 && (forall op :: op in ops ==> OpOk(op))
      && rep == BatchBytes(sequence, ops)
    }

    constructor ()
      ensures Valid() && ops == []
    {
      rep := EncodeFixed64(0) + EncodeFixed32(0);
      sequence, ops := 0, [];
    }

    method Clear()
      modifies this
      ensures Valid() && ops == []
    {
      rep := EncodeFixed64(0) + EncodeFixed32(0);
      sequence, ops := 0, [];
    }

    method Count() returns (n: nat)
      requires Valid()
      ensures n == |ops|
    {
      BatchParts(sequence, ops);
      Fixed32RoundTrip(|ops|);
      n := DecodeFixed32(rep[8..12]);
    }

    method SetSequence(s: nat)
      requires Valid() && s < TWO_TO_64
      modifies this
      ensures Valid() && sequence == s && ops == old(ops)
    {
      hide EncodeFixed64, EncodeFixed32, OpsBytes;
      BatchParts(sequence, ops);
      rep := EncodeFixed64(s) + rep[8..];
      sequence := s;
      assert rep == BatchBytes(sequence, ops);
    }

    // The count in the header, and more bytes at the end.
    method Extend(n: nat, b: Bytes, ghost more: seq<BatchOp>)
      requires Valid() && n == |ops| + |more| < TWO_TO_32 && b == OpsBytes(more) && forall op :: op in more ==> OpOk(op)
      modifies this
      ensures Valid() && sequence == old(sequence) && ops == old(ops) + more
    {
      hide EncodeFixed64, EncodeFixed32, OpsBytes;
      OpsBytesConcat(ops, more);
      BatchParts(sequence, ops);
      rep := rep[..8] + EncodeFixed32(n) + rep[12..] + b;
      ops := ops + more;
      assert rep == BatchBytes(sequence, ops);
    }

    method Put(key: Bytes, value: Bytes)
      requires Valid() && |ops| + 1 < TWO_TO_32 && OpOk(BatchOp.Put(key, value))
      modifies this
      ensures Valid() && sequence == old(sequence) && ops == old(ops) + [BatchOp.Put(key, value)]
    {
      var n := Count();
      OneOp(BatchOp.Put(key, value));
      Extend(n + 1, [TYPE_VALUE] + Delimited(key) + Delimited(value), [BatchOp.Put(key, value)]);
    }

    method Delete(key: Bytes)
      requires Valid() && |ops| + 1 < TWO_TO_32 && OpOk(BatchOp.Delete(key))
      modifies this
      ensures Valid() && sequence == old(sequence) && ops == old(ops) + [BatchOp.Delete(key)]
    {
      var n := Count();
      OneOp(BatchOp.Delete(key));
      Extend(n + 1, [TYPE_DELETION] + Delimited(key), [BatchOp.Delete(key)]);
    }

    // WriteBatchInternal::Append.
    method Append(src: WriteBatch)
      requires Valid() && src.Valid() && src != this && |ops| + |src.ops| < TWO_TO_32
      modifies this
      ensures Valid() && sequence == old(sequence) && ops == old(ops) + src.ops
    {
      var n := Count();
      var m := src.Count();
      BatchParts(src.sequence, src.ops);
      Extend(n + m, src.rep[HEADER..], src.ops);
    }
  }

  lemma OneOp(op: BatchOp)
    ensures OpsBytes([op]) == OpBytes(op)
  {
    assert [op][..0] == [] && OpsBytes([]) == [];
    assert [] + OpBytes(op) == OpBytes(op);
  }

  // ------------------------------------------------------- into a memtable

  function EntryFor(op: BatchOp, s: nat): MemEntry {
    MemEntry(op.key, s, if op.Put? then Some(op.value) else None)
  }

  ghost predicate Insertable(ops: seq<BatchOp>, s: nat) {
    forall i :: 0 <= i < |ops| ==> EntryOk(EntryFor(ops[i], s + i))
  }

  // The operations numbered from s on and inserted one by one.
  ghost function InsertAll(run: Entries.Run, ops: seq<BatchOp>, s: nat): Entries.Run
    requires Insertable(ops, s)
    decreases |ops|
  {
    if |ops| == 0 then run
    else
      assert EntryOk(EntryFor(ops[0], s + 0));
      assert forall i :: 0 <= i < |ops| - 1 ==> ops[1..][i] == ops[i + 1] && EntryOk(EntryFor(ops[i + 1], s + (i + 1)));
      InsertAll(Entries.Insert(run, Modelled(EntryFor(ops[0], s))), ops[1..], s + 1)
  }

  lemma InsertFirst(run: Entries.Run, ops: seq<BatchOp>, s: nat)
    requires |ops| > 0 && Insertable(ops, s)
    ensures EntryOk(EntryFor(ops[0], s)) && Insertable(ops[1..], s + 1)
    ensures InsertAll(run, ops, s) == InsertAll(Entries.Insert(run, Modelled(EntryFor(ops[0], s))), ops[1..], s + 1)
  {
    assert EntryOk(EntryFor(ops[0], s + 0));
    assert forall i :: 0 <= i < |ops| - 1 ==> ops[1..][i] == ops[i + 1] && EntryOk(EntryFor(ops[i + 1], s + (i + 1)));
  }

  ghost predicate AllOlder(mem: MemTable, s: nat)
    reads mem
  {
    forall e :: e in mem.es ==> e.sn < s
  }

  // WriteBatchInternal::InsertInto: Iterate with the memtable as the handler.
  // A corrupt batch is found out only after the operations before the damage
  // have been applied.
  method InsertInto(rep: Bytes, mem: MemTable) returns (ok: bool)
    requires mem.Valid()
    requires |rep| >= HEADER ==> Insertable(Applied(rep).0, DecodeFixed64(rep[..8])) && AllOlder(mem, DecodeFixed64(rep[..8]))
    modifies mem
    ensures mem.Valid() && (ok <==> Applied(rep).1)
    ensures |rep| < HEADER ==> mem.Run() == old(mem.Run())
    ensures |rep| >= HEADER ==> AllOlder(mem, DecodeFixed64(rep[..8]) + |Applied(rep).0|)
    ensures |rep| >= HEADER ==> mem.Run() == InsertAll(old(mem.Run()), Applied(rep).0, DecodeFixed64(rep[..8]))
  {
    hide DecodeFixed64, DecodeFixed32, ParseOps;
    if |rep| < HEADER { return false; }
    var sequence := DecodeFixed64(rep[..8]);
    var found;
    found, ok := Iterate(rep[HEADER..], sequence, mem);
    ok := ok && found == DecodeFixed32(rep[8..12]);
  }

  method Iterate(b: Bytes, first: nat, mem: MemTable) returns (found: nat, ok: bool)
    requires mem.Valid() && Insertable(ParseOps(b).0, first) && AllOlder(mem, first)
    modifies mem
    ensures mem.Valid() && found == |ParseOps(b).0| && (ok <==> ParseOps(b).1)
    ensures mem.Run() == InsertAll(old(mem.Run()), ParseOps(b).0, first) && AllOlder(mem, first + found)
  {
    hide ParseOp, InsertAll, Insertable, MemTable.Valid, MemTable.Run;
    var input, sequence := b, first;
    found := 0;
    while |input| > 0
      invariant mem.Valid() && Insertable(ParseOps(input).0, sequence) && AllOlder(mem, sequence)
      invariant sequence == first + found
      invariant found + |ParseOps(input).0| == |ParseOps(b).0| && (ParseOps(input).1 <==> ParseOps(b).1)
      invariant InsertAll(mem.Run(), ParseOps(input).0, sequence) == InsertAll(old(mem.Run()), ParseOps(b).0, first)
      decreases |input|
    {
      var op := ParseOp(input);
      ParseNext(input);
      if op == None {
        NothingToInsert(mem.Run(), sequence);
        return found, false;
      }
      InsertFirst(mem.Run(), ParseOps(input).0, sequence);
      AddOne(mem, op.value.0, sequence);
      input, sequence, found := op.value.1, sequence + 1, found + 1;
    }
    NothingToInsert(mem.Run(), sequence);
    ok := true;
  }

  lemma ParseNext(b: Bytes)
    requires |b| > 0
    ensures ParseOp(b) == None ==> ParseOps(b) == ([], false)
    ensures ParseOp(b).Some? ==>
      var rest := ParseOps(ParseOp(b).value.1);
      ParseOps(b) == ([ParseOp(b).value.0] + rest.0, rest.1) && ParseOps(b).0[0] == ParseOp(b).value.0
      && ParseOps(b).0[1..] == rest.0
  {
  }

  lemma NothingToInsert(run: Entries.Run, s: nat)
    ensures Insertable([], s) && InsertAll(run, [], s) == run
  {
  }

  // MemTableInserter::Put and Delete.
  method AddOne(mem: MemTable, op: BatchOp, s: nat)
    requires mem.Valid() && EntryOk(EntryFor(op, s)) && AllOlder(mem, s)
    modifies mem
    ensures mem.Valid() && AllOlder(mem, s + 1)
    ensures mem.Run() == Entries.Insert(old(mem.Run()), Modelled(EntryFor(op, s)))
  {
    hide EntryOk, MemTable.Valid, MemTable.Run, Modelled;
    match op
    case Put(key, value) => mem.Add(s, TYPE_VALUE, key, value);
    case Delete(key) => mem.Add(s, TYPE_DELETION, key, []);
  }
}
