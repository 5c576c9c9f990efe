// Version edits as bytes in the MANIFEST.

module VersionEdits {
  import opened Wrappers
  import opened Coding

  const NUM_LEVELS := 7

  // Internal keys are kept as they are encoded.
  datatype FileMetaData = FileMetaData(number: nat, fileSize: nat, smallest: Bytes, largest: Bytes)

  datatype Edit = Edit(
    comparator: Option<Bytes>,
    logNumber: Option<nat>,
    prevLogNumber: Option<nat>,
    nextFileNumber: Option<nat>,
    lastSequence: Option<nat>,
    compactPointers: seq<(nat, Bytes)>,
    deletedFiles: seq<(nat, nat)>,       // an ordered set of level and number
    newFiles: seq<(nat, FileMetaData)>)

  const EMPTY := Edit(None, None, None, None, None, [], [], [])

  predicate PairLess(a: (nat, nat), b: (nat, nat)) {
    a.0 < b.0 || (a.0 == b.0 && a.1 < b.1)
  }

  ghost predicate Ascending(s: seq<(nat, nat)>) {
    forall i, j :: 0 <= i < j < |s| ==> PairLess(s[i], s[j])
  }

  // std::set::insert.
  function InsertPair(s: seq<(nat, nat)>, p: (nat, nat)): seq<(nat, nat)> {
    if |s| == 0 then [p]
    else
      var last := s[|s| - 1];
      if PairLess(last, p) then s + [p]
      else if last == p then s
      else InsertPair(s[..|s| - 1], p) + [last]
  }

  lemma {:induction false} InsertPairIsSetInsert(s: seq<(nat, nat)>, p: (nat, nat))
    requires Ascending(s)
    ensures Ascending(InsertPair(s, p)) && forall q :: q in InsertPair(s, p) <==> q in s || q == p
  {
    if |s| > 0 && PairLess(p, s[|s| - 1]) {
      var front, last := s[..|s| - 1], s[|s| - 1];
      assert s == front + [last];
      InsertPairIsSetInsert(front, p);
      assert forall q :: q in InsertPair(front, p) ==> PairLess(q, last);
    }
  }

  // ------------------------------------------------- one record of an edit

  datatype Item =
    | Comparator(name: Bytes)
    | LogNumber(n: nat)
    | PrevLogNumber(n: nat)
    | NextFileNumber(n: nat)
    | LastSequence(n: nat)
    | CompactPointer(level: nat, key: Bytes)
    | DeletedFile(level: nat, n: nat)
    | NewFile(level: nat, f: FileMetaData)

  function TagOf(i: Item): nat {
    match i
    case Comparator(_) => 1
    case LogNumber(_) => 2
    case NextFileNumber(_) => 3
    case LastSequence(_) => 4
    case CompactPointer(_, _) => 5
    case DeletedFile(_, _) => 6
    case NewFile(_, _) => 7
    case PrevLogNumber(_) => 9
  }

  predicate ItemOk(i: Item) {
    match i
    case Comparator(name) => |name| < TWO_TO_32
    case CompactPointer(level, key) => level < NUM_LEVELS && |key| < TWO_TO_32
    case DeletedFile(level, n) => level < NUM_LEVELS && n < TWO_TO_64
    case NewFile(level, f) =>
      level < NUM_LEVELS && f.number < TWO_TO_64 && f.fileSize < TWO_TO_64 && |f.smallest| < TWO_TO_32 && |f.largest| < TWO_TO_32
    case _ => i.n < TWO_TO_64
  }

  function Payload(i: Item): Bytes {
    match i
    case Comparator(name) => Delimited(name)
    case CompactPointer(level, key) => Varint(level) + Delimited(key)
    case DeletedFile(level, n) => Varint(level) + Varint(n)
    case NewFile(level, f) => Varint(level) + Varint(f.number) + Varint(f.fileSize) + Delimited(f.smallest) + Delimited(f.largest)
    case _ => Varint(i.n)
  }

  function ItemBytes(i: Item): Bytes {
    Varint(TagOf(i)) + Payload(i)
  }

  function ItemsBytes(items: seq<Item>): Bytes {
    if |items| == 0 then [] else ItemBytes(items[0]) + ItemsBytes(items[1..])
  }

  lemma {:induction false} ItemsConcat(a: seq<Item>, b: seq<Item>)
    ensures ItemsBytes(a + b) == ItemsBytes(a) + ItemsBytes(b)
  {
    hide ItemBytes;
    if |a| == 0 {
      assert a + b == b;
    } else {
      assert (a + b)[1..] == a[1..] + b;
      ItemsConcat(a[1..], b);
    }
  }

  // ------------------------------------------------------------- decoding

  function TakeLevel(b: Bytes): (r: Option<(nat, Bytes)>)
    ensures r.Some? ==> |r.value.1| < |b|
  {
    var t := TakeVarint32(b);
    if t == None || t.value.0 >= NUM_LEVELS then None else t
  }

  function TakeNumber(b: Bytes, tag: nat): (r: Option<(Item, Bytes)>)
    ensures r.Some? ==> |r.value.1| < |b|
  {
    var t := TakeVarint64(b);
    if t == None then None
    else
      var n := t.value.0;
      Some((if tag == 2 then LogNumber(n) else if tag == 3 then NextFileNumber(n)
            else if tag == 4 then LastSequence(n) else PrevLogNumber(n), t.value.1))
  }

  function TakeNewFile(b: Bytes, level: nat): (r: Option<(Item, Bytes)>)
    ensures r.Some? ==> |r.value.1| < |b|
  {
    var number := TakeVarint64(b);
    if number == None then None
    else
      var size := TakeVarint64(number.value.1);
      if size == None then None
      else
        var smallest := TakeDelimited(size.value.1);
        if smallest == None then None
        else
          var largest := TakeDelimited(smallest.value.1);
          if largest == None then None
          else
            Some((NewFile(level, FileMetaData(number.value.0, size.value.0, smallest.value.0, largest.value.0)), largest.value.1))
  }

  // One turn of the loop in DecodeFrom, after the tag.
  function TakePayload(tag: nat, b: Bytes): (r: Option<(Item, Bytes)>)
    ensures r.Some? ==> |r.value.1| < |b|
  {
    if tag == 1 then
      var t := TakeDelimited(b);
      if t == None then None else Some((Comparator(t.value.0), t.value.1))
    else if tag == 2 || tag == 3 || tag == 4 || tag == 9 then TakeNumber(b, tag)
    else if tag == 5 || tag == 6 || tag == 7 then
      var l := TakeLevel(b);
      if l == None then None
      else if tag == 5 then
        var k := TakeDelimited(l.value.1);
        if k == None then None else Some((CompactPointer(l.value.0, k.value.0), k.value.1))
      else if tag == 6 then
        var n := TakeVarint64(l.value.1);
        if n == None then None else Some((DeletedFile(l.value.0, n.value.0), n.value.1))
      else TakeNewFile(l.value.1, l.value.0)
    else None
  }

  function Apply(e: Edit, i: Item): Edit {
    match i
    case Comparator(name) => e.(comparator := Some(name))
    case LogNumber(n) => e.(logNumber := Some(n))
    case PrevLogNumber(n) => e.(prevLogNumber := Some(n))
    case NextFileNumber(n) => e.(nextFileNumber := Some(n))
    case LastSequence(n) => e.(lastSequence := Some(n))
    case CompactPointer(level, key) => e.(compactPointers := e.compactPointers + [(level, key)])
    case DeletedFile(level, n) => e.(deletedFiles := InsertPair(e.deletedFiles, (level, n)))
    case NewFile(level, f) => e.(newFiles := e.newFiles + [(level, f)])
  }

  function ApplyAll(e: Edit, items: seq<Item>): Edit
    decreases |items|
  {
    if |items| == 0 then e else ApplyAll(Apply(e, items[0]), items[1..])
  }

  // The edit read so far goes on with these bytes, or they are corrupt.
  function DecodeRest(e: Edit, b: Bytes): Option<Edit>
    decreases |b|
  {
    var t := TakeVarint32(b);
    if t == None then if |b| == 0 then Some(e) else None
    else
      var i := TakePayload(t.value.0, t.value.1);
      if i == None then None else DecodeRest(Apply(e, i.value.0), i.value.1)
  }

  lemma PayloadIsTaken(i: Item, rest: Bytes)
    requires ItemOk(i)
    ensures TakePayload(TagOf(i), Payload(i) + rest) == Some((i, rest))
  {
    hide Varint, Delimited, TakeVarint32, TakeVarint64, TakeDelimited;
    var b := Payload(i) + rest;
    match i
    case Comparator(name) => TakesDelimited(name, rest);
    case CompactPointer(level, key) =>
      assert b == Varint(level) + (Delimited(key) + rest);
      TakesVarint32(level, Delimited(key) + rest);
      TakesDelimited(key, rest);
    case DeletedFile(level, n) =>
      assert b == Varint(level) + (Varint(n) + rest);
      TakesVarint32(level, Varint(n) + rest);
      TakesVarint64(n, rest);
    case NewFile(level, f) =>
      var b3 := Delimited(f.largest) + rest;
      var b2 := Delimited(f.smallest) + b3;
      var b1 := Varint(f.fileSize) + b2;
      assert b == Varint(level) + (Varint(f.number) + b1);
      TakesVarint32(level, Varint(f.number) + b1);
      TakesVarint64(f.number, b1);
      TakesVarint64(f.fileSize, b2);
      TakesDelimited(f.smallest, b3);
      TakesDelimited(f.largest, rest);
    case LogNumber(n) => TakesVarint64(n, rest);
    case PrevLogNumber(n) => TakesVarint64(n, rest);
    case NextFileNumber(n) => TakesVarint64(n, rest);
    case LastSequence(n) => TakesVarint64(n, rest);
  }

  lemma {:induction false} ItemsAreDecoded(e: Edit, items: seq<Item>)
    requires forall i :: i in items ==> ItemOk(i)
    ensures DecodeRest(e, ItemsBytes(items)) == Some(ApplyAll(e, items))
    decreases |items|
  {
    hide Varint, TakePayload, Payload, Apply, TakeVarint32;
    if |items| == 0 {
      NoTag();
    } else {
      var i, rest := items[0], ItemsBytes(items[1..]);
      assert ItemsBytes(items) == Varint(TagOf(i)) + (Payload(i) + rest);
      TakesVarint32(TagOf(i), Payload(i) + rest);
      PayloadIsTaken(i, rest);
      ItemsAreDecoded(Apply(e, i), items[1..]);
    }
  }

  // An edit with a record of an unknown kind is refused, wherever that stands.
  lemma {:induction false} UnknownTagIsRefused(e: Edit, items: seq<Item>, tag: nat, rest: Bytes)
    requires (forall i :: i in items ==> ItemOk(i)) && tag < TWO_TO_32 && (tag == 0 || tag == 8 || tag > 9)
    ensures DecodeRest(e, ItemsBytes(items) + (Varint(tag) + rest)) == None
    decreases |items|
  {
    hide Varint, Payload, Apply, TakeVarint32;
    var bad := Varint(tag) + rest;
    if |items| == 0 {
      TakesVarint32(tag, rest);
      assert ItemsBytes(items) + bad == bad;
    } else {
      hide TakePayload;
      var i, more := items[0], ItemsBytes(items[1..]);
      assert ItemsBytes(items) + bad == Varint(TagOf(i)) + (Payload(i) + (more + bad));
      TakesVarint32(TagOf(i), Payload(i) + (more + bad));
      PayloadIsTaken(i, more + bad);
      UnknownTagIsRefused(Apply(e, i), items[1..], tag, rest);
    }
  }

  // So is one with a level there is not.
  lemma UnknownLevelIsRefused(e: Edit, tag: nat, level: nat, rest: Bytes)
    requires tag == 5 || tag == 6 || tag == 7
    requires NUM_LEVELS <= level < TWO_TO_32
    ensures DecodeRest(e, Varint(tag) + (Varint(level) + rest)) == None
  {
    hide Varint, TakeVarint32;
    TakesVarint32(tag, Varint(level) + rest);
    TakesVarint32(level, rest);
  }

  lemma NoTag()
    ensures TakeVarint32([]) == None
  {
  }

  // ------------------------------------------------------ the whole edit

  function Pointers(ps: seq<(nat, Bytes)>): seq<Item> {
    if |ps| == 0 then [] else Pointers(ps[..|ps| - 1]) + [CompactPointer(ps[|ps| - 1].0, ps[|ps| - 1].1)]
  }

  function Deletions(ds: seq<(nat, nat)>): seq<Item> {
    if |ds| == 0 then [] else Deletions(ds[..|ds| - 1]) + [DeletedFile(ds[|ds| - 1].0, ds[|ds| - 1].1)]
  }

  function Additions(fs: seq<(nat, FileMetaData)>): seq<Item> {
    if |fs| == 0 then [] else Additions(fs[..|fs| - 1]) + [NewFile(fs[|fs| - 1].0, fs[|fs| - 1].1)]
  }

  // The single fields, in the order EncodeTo writes them.
  function Head(e: Edit): seq<Item> {
    (if e.comparator.Some? then [Comparator(e.comparator.value)] else [])
    + (if e.logNumber.Some? then [LogNumber(e.logNumber.value)] else [])
    + (if e.prevLogNumber.Some? then [PrevLogNumber(e.prevLogNumber.value)] else [])
    + (if e.nextFileNumber.Some? then [NextFileNumber(e.nextFileNumber.value)] else [])
    + (if e.lastSequence.Some? then [LastSequence(e.lastSequence.value)] else [])
  }

  function Items(e: Edit): seq<Item> {
    Head(e) + Pointers(e.compactPointers) + Deletions(e.deletedFiles) + Additions(e.newFiles)
  }

  function EditBytes(e: Edit): Bytes {
    ItemsBytes(Items(e))
  }

  ghost predicate EditOk(e: Edit) {
    Ascending(e.deletedFiles) && forall i :: i in Items(e) ==> ItemOk(i)
  }

  lemma {:induction false} ApplyConcat(e: Edit, a: seq<Item>, b: seq<Item>)
    ensures ApplyAll(e, a + b) == ApplyAll(ApplyAll(e, a), b)
    decreases |a|
  {
    hide Apply;
    if |a| == 0 {
      assert a + b == b;
    } else {
      assert (a + b)[1..] == a[1..] + b;
      ApplyConcat(Apply(e, a[0]), a[1..], b);
    }
  }

  lemma ApplyOne(e: Edit, i: Item)
    ensures ApplyAll(e, [i]) == Apply(e, i) && ApplyAll(e, []) == e
  {
  }

  lemma {:induction false} ApplyPointers(e: Edit, ps: seq<(nat, Bytes)>)
    ensures ApplyAll(e, Pointers(ps)) == e.(compactPointers := e.compactPointers + ps)
  {
    if |ps| == 0 {
      assert e.compactPointers + ps == e.compactPointers;
    } else {
      var front, last := ps[..|ps| - 1], ps[|ps| - 1];
      ApplyPointers(e, front);
      ApplyConcat(e, Pointers(front), [CompactPointer(last.0, last.1)]);
      ApplyOne(ApplyAll(e, Pointers(front)), CompactPointer(last.0, last.1));
      assert e.compactPointers + front + [(last.0, last.1)] == e.compactPointers + ps;
    }
  }

  lemma {:induction false} ApplyDeletions(e: Edit, ds: seq<(nat, nat)>)
    requires Ascending(ds) && e.deletedFiles == []
    ensures ApplyAll(e, Deletions(ds)) == e.(deletedFiles := ds)
  {
    if |ds| > 0 {
      var front, last := ds[..|ds| - 1], ds[|ds| - 1];
      ApplyDeletions(e, front);
      ApplyConcat(e, Deletions(front), [DeletedFile(last.0, last.1)]);
      ApplyOne(ApplyAll(e, Deletions(front)), DeletedFile(last.0, last.1));
      assert front + [(last.0, last.1)] == ds;
    }
  }

  lemma {:induction false} ApplyAdditions(e: Edit, fs: seq<(nat, FileMetaData)>)
    ensures ApplyAll(e, Additions(fs)) == e.(newFiles := e.newFiles + fs)
  {
    if |fs| == 0 {
      assert e.newFiles + fs == e.newFiles;
    } else {
      var front, last := fs[..|fs| - 1], fs[|fs| - 1];
      ApplyAdditions(e, front);
      ApplyConcat(e, Additions(front), [NewFile(last.0, last.1)]);
      ApplyOne(ApplyAll(e, Additions(front)), NewFile(last.0, last.1));
      assert e.newFiles + front + [(last.0, last.1)] == e.newFiles + fs;
    }
  }

  lemma ApplyHead(start: Edit, e: Edit)
    requires start == EMPTY.(compactPointers := start.compactPointers)
    ensures ApplyAll(start, Head(e)) == e.(compactPointers := start.compactPointers, deletedFiles := [], newFiles := [])
  {
    hide ApplyAll;
    var i1: seq<Item> := if e.comparator.Some? then [Comparator(e.comparator.value)] else [];
    var i2: seq<Item> := if e.logNumber.Some? then [LogNumber(e.logNumber.value)] else [];
    var i3: seq<Item> := if e.prevLogNumber.Some? then [PrevLogNumber(e.prevLogNumber.value)] else [];
    var i4: seq<Item> := if e.nextFileNumber.Some? then [NextFileNumber(e.nextFileNumber.value)] else [];
    var i5: seq<Item> := if e.lastSequence.Some? then [LastSequence(e.lastSequence.value)] else [];
    var s1 := start.(comparator := e.comparator);
    var s2 := s1.(logNumber := e.logNumber);
    var s3 := s2.(prevLogNumber := e.prevLogNumber);
    var s4 := s3.(nextFileNumber := e.nextFileNumber);
    ApplyOptional(start, [], i1);
    assert ApplyAll(start, [] + i1) == s1 && [] + i1 == i1;
    ApplyOptional(start, i1, i2);
    assert ApplyAll(start, i1 + i2) == s2;
    ApplyOptional(start, i1 + i2, i3);
    assert ApplyAll(start, i1 + i2 + i3) == s3;
    ApplyOptional(start, i1 + i2 + i3, i4);
    assert ApplyAll(start, i1 + i2 + i3 + i4) == s4;
    ApplyOptional(start, i1 + i2 + i3 + i4, i5);
  }

  lemma ApplyOptional(start: Edit, done: seq<Item>, item: seq<Item>)
    requires |item| <= 1
    ensures ApplyAll(start, done + item) == if |item| == 1 then Apply(ApplyAll(start, done), item[0]) else ApplyAll(start, done)
    ensures done == [] ==> ApplyAll(start, done) == start
  {
    ApplyConcat(start, done, item);
    if |item| == 1 {
      assert item == [item[0]];
      ApplyOne(ApplyAll(start, done), item[0]);
    } else {
      assert item == [];
    }
  }

  // DecodeFrom starts from what Clear leaves, and Clear leaves the compaction
  // pointers. So an edit is read back whole, behind the pointers that were
  // already there.
  lemma EditRoundTrip(start: Edit, e: Edit)
    requires EditOk(e) && start == EMPTY.(compactPointers := start.compactPointers)
    ensures DecodeRest(start, EditBytes(e)) == Some(e.(compactPointers := start.compactPointers + e.compactPointers))
    ensures DecodeRest(start, EditBytes(e)) == Some(e) <==> start.compactPointers == []
  {
    hide DecodeRest, ItemsBytes, Head, Pointers, Deletions, Additions, Apply, ApplyAll;
    ItemsAreDecoded(start, Items(e));
    var (h, p, d, a) := (Head(e), Pointers(e.compactPointers), Deletions(e.deletedFiles), Additions(e.newFiles));
    ApplyConcat(start, h + p + d, a);
    ApplyConcat(start, h + p, d);
    ApplyConcat(start, h, p);
    ApplyHead(start, e);
    ApplyPointers(ApplyAll(start, h), e.compactPointers);
    ApplyDeletions(ApplyAll(start, h + p), e.deletedFiles);
    ApplyAdditions(ApplyAll(start, h + p + d), e.newFiles);
    assert [] + e.newFiles == e.newFiles;
    if start.compactPointers != [] {
      assert |start.compactPointers + e.compactPointers| > |e.compactPointers|;
    } else {
      assert [] + e.compactPointers == e.compactPointers;
    }
  }

  // ------------------------------------------------------------- the code

  class VersionEdit {
    var e: Edit

    constructor ()
      ensures e == EMPTY
    {
      e := EMPTY;
    }

    // Everything but the compaction pointers.
    method Clear()
      modifies this
      ensures e == EMPTY.(compactPointers := old(e).compactPointers)
    {
      e := e.(comparator := None, logNumber := None, prevLogNumber := None, nextFileNumber := None, lastSequence := None,
              deletedFiles := [], newFiles := []);
    }

    method EncodeTo(start: Bytes) returns (dst: Bytes)
      ensures dst == start + EditBytes(e)
    {
      hide ItemsBytes, Head, Pointers, Deletions, Additions;
      ghost var done;
      dst, done := EncodeHead(start);
      dst, done := EncodePointers(dst, start, done);
      dst, done := EncodeDeletions(dst, start, done);
      dst, done := EncodeAdditions(dst, start, done);
    }

    method EncodeHead(start: Bytes) returns (dst: Bytes, ghost done: seq<Item>)
      ensures done == Head(e) && dst == start + ItemsBytes(done)
    {
      hide ItemsBytes;
      dst, done := start, [];
      NoItems();
      if e.comparator.Some? { dst, done := Append(dst, start, done, Comparator(e.comparator.value)); }
      if e.logNumber.Some? { dst, done := Append(dst, start, done, LogNumber(e.logNumber.value)); }
      if e.prevLogNumber.Some? { dst, done := Append(dst, start, done, PrevLogNumber(e.prevLogNumber.value)); }
      if e.nextFileNumber.Some? { dst, done := Append(dst, start, done, NextFileNumber(e.nextFileNumber.value)); }
      if e.lastSequence.Some? { dst, done := Append(dst, start, done, LastSequence(e.lastSequence.value)); }
    }

    method EncodePointers(from: Bytes, ghost start: Bytes, ghost before: seq<Item>) returns (dst: Bytes, ghost done: seq<Item>)
      requires from == start + ItemsBytes(before)
      ensures done == before + Pointers(e.compactPointers) && dst == start + ItemsBytes(done)
    {
      hide ItemsBytes;
      dst, done := from, before;
      var i := 0;
      while i < |e.compactPointers|
        invariant i <= |e.compactPointers| && done == before + Pointers(e.compactPointers[..i]) && dst == start + ItemsBytes(done)
      {
        var (level, key) := e.compactPointers[i];
        assert e.compactPointers[..i + 1][..i] == e.compactPointers[..i];
        dst, done := Append(dst, start, done, CompactPointer(level, key));
        i := i + 1;
      }
      assert e.compactPointers[..i] == e.compactPointers;
    }

    method EncodeDeletions(from: Bytes, ghost start: Bytes, ghost before: seq<Item>) returns (dst: Bytes, ghost done: seq<Item>)
      requires from == start + ItemsBytes(before)
      ensures done == before + Deletions(e.deletedFiles) && dst == start + ItemsBytes(done)
    {
      hide ItemsBytes;
      dst, done := from, before;
      var i := 0;
      while i < |e.deletedFiles|
        invariant i <= |e.deletedFiles| && done == before + Deletions(e.deletedFiles[..i]) && dst == start + ItemsBytes(done)
      {
        var (level, n) := e.deletedFiles[i];
        assert e.deletedFiles[..i + 1][..i] == e.deletedFiles[..i];
        dst, done := Append(dst, start, done, DeletedFile(level, n));
        i := i + 1;
      }
      assert e.deletedFiles[..i] == e.deletedFiles;
    }

    method EncodeAdditions(from: Bytes, ghost start: Bytes, ghost before: seq<Item>) returns (dst: Bytes, ghost done: seq<Item>)
      requires from == start + ItemsBytes(before)
      ensures done == before + Additions(e.newFiles) && dst == start + ItemsBytes(done)
    {
      hide ItemsBytes;
      dst, done := from, before;
      var i := 0;
      while i < |e.newFiles|
        invariant i <= |e.newFiles| && done == before + Additions(e.newFiles[..i]) && dst == start + ItemsBytes(done)
      {
        var (level, f) := e.newFiles[i];
        assert e.newFiles[..i + 1][..i] == e.newFiles[..i];
        dst, done := Append(dst, start, done, NewFile(level, f));
        i := i + 1;
      }
      assert e.newFiles[..i] == e.newFiles;
    }

    // Nothing is kept of a corrupt edit.
    method DecodeFrom(src: Bytes) returns (ok: bool)
      modifies this
      ensures var r := DecodeRest(EMPTY.(compactPointers := old(e).compactPointers), src);
        (ok <==> r.Some?) && (ok ==> e == r.value)
    {
      hide TakeVarint32, TakePayload, Apply;
      Clear();
      ghost var spec := DecodeRest(e, src);
      var input := src;
      while true
        invariant DecodeRest(e, input) == spec
        decreases |input|
      {
        var tag := TakeVarint32(input);
        if tag == None { return |input| == 0; }
        var i := TakePayload(tag.value.0, tag.value.1);
        if i == None { return false; }
        e := Apply(e, i.value.0);
        input := i.value.1;
      }
    }
  }

  // PutVarint32 of the tag, and the fields of the record.
  method Append(dst: Bytes, ghost start: Bytes, ghost done: seq<Item>, i: Item) returns (dst': Bytes, ghost done': seq<Item>)
    requires dst == start + ItemsBytes(done)
    ensures done' == done + [i] && dst' == start + ItemsBytes(done')
  {
    hide ItemsBytes, ItemBytes;
    ItemsConcat(done, [i]);
    OneItem(i);
    dst', done' := dst + ItemBytes(i), done + [i];
    assert start + ItemsBytes(done) + ItemBytes(i) == start + (ItemsBytes(done) + ItemBytes(i));
  }

  lemma NoItems()
    ensures ItemsBytes([]) == []
  {
  }

  lemma OneItem(i: Item)
    ensures ItemsBytes([i]) == ItemBytes(i)
  {
    hide ItemBytes;
    assert [i][1..] == [] && ItemBytes(i) + [] == ItemBytes(i);
  }
}
