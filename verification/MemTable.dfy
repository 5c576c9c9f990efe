// The memtable as it is stored: entries of bytes in the order of their
// internal keys.

module MemTables {
  import opened Wrappers
  import opened Coding
  import Comparator
  import opened DbFormat
  import Entries

  // A user key, its number, and the value or a deletion.
  datatype MemEntry = MemEntry(key: Bytes, sn: nat, value: Option<Bytes>)

  predicate EntryOk(e: MemEntry) {
    && e.sn <= Entries.MAX_SEQUENCE_NUMBER && |e.key| + 8 < TWO_TO_32
    && (e.value.Some? ==> |e.value.value| < TWO_TO_32)
  }

  function TypeOf(e: MemEntry): nat { if e.value.Some? then TYPE_VALUE else TYPE_DELETION }

  function KeyOf(e: MemEntry): (k: Bytes)
    requires EntryOk(e)
    ensures IsInternal(k)
  {
    InternalKey(e.key, e.sn, TypeOf(e))
  }

  // The stored form of an entry.
  function Stored(e: MemEntry): Bytes
    requires EntryOk(e)
  {
    Delimited(KeyOf(e)) + Delimited(if e.value.Some? then e.value.value else [])
  }

  function Chars(b: Bytes): (s: string)
    ensures |s| == |b|
  {
    seq(|b|, i requires 0 <= i < |b| => b[i] as char)
  }

  function OpOf(value: Option<Bytes>): Entries.Op {
    if value.Some? then Entries.Put(Chars(value.value)) else Entries.Deletion
  }

  // The entry in the database model.
  ghost function Modelled(e: MemEntry): Entries.Entry
    requires EntryOk(e)
  {
    Entries.Entry(Comparator.Rank(e.key), e.sn, OpOf(e.value))
  }

  ghost function ModelledRun(es: seq<MemEntry>): (r: Entries.Run)
    requires forall e :: e in es ==> EntryOk(e)
    ensures |r| == |es| && forall i :: 0 <= i < |es| ==> r[i] == Modelled(es[i])
  {
    seq(|es|, i requires 0 <= i < |es| => Modelled(es[i]))
  }

  lemma StoredKey(e: MemEntry)
    requires EntryOk(e)
    ensures TakeDelimited(Stored(e)) == Some((KeyOf(e), Delimited(if e.value.Some? then e.value.value else [])))
    ensures e.value.Some? ==> TakeDelimited(Delimited(e.value.value)) == Some((e.value.value, []))
  {
    var v: Bytes := if e.value.Some? then e.value.value else [];
    TakesDelimited(KeyOf(e), Delimited(v));
    assert Delimited(v) + [] == Delimited(v);
    TakesDelimited(v, []);
  }

  // GetLengthPrefixedSlice on a stored entry, which is never corrupted.
  function StoredInternalKey(b: Bytes): Bytes {
    var t := TakeDelimited(b);
    if t.Some? then t.value.0 else []
  }

  // Where the skip list finds the first entry at or after an internal key.
  function Position(table: seq<Bytes>, target: Bytes): (i: nat)
    requires IsInternal(target)
    ensures i <= |table|
    ensures forall j :: 0 <= j < i ==> IsInternal(StoredInternalKey(table[j])) && InternalLess(StoredInternalKey(table[j]), target)
    ensures i < |table| && IsInternal(StoredInternalKey(table[i])) ==> !InternalLess(StoredInternalKey(table[i]), target)
  {
    if |table| == 0 then 0
    else
      var k := StoredInternalKey(table[0]);
      if IsInternal(k) && InternalLess(k, target) then
        var i := Position(table[1..], target);
        assert forall j :: 0 < j < |table| ==> table[j] == table[1..][j - 1];
        1 + i
      else 0
  }

  class MemTable {
    var table: seq<Bytes>
    ghost var es: seq<MemEntry>

    ghost predicate Valid()
      reads this
    {
      && |table| == |es| && (forall e :: e in es ==> EntryOk(e))
      && forall i :: 0 <= i < |es| ==> table[i] == Stored(es[i])
    }

    ghost function Run(): Entries.Run
      requires Valid()
      reads this
    {
      ModelledRun(es)
    }

    constructor ()
      ensures Valid() && es == []
    {
      table, es := [], [];
    }

    // The entry goes to its place; in the model, Insert does the same.
    method Add(s: nat, t: nat, key: Bytes, value: Bytes)
      requires Valid() && (t == TYPE_VALUE || (t == TYPE_DELETION && value == []))
      requires EntryOk(EntryOf(s, t, key, value))
      requires forall e :: e in es ==> !(e.key == key && e.sn == s)
      modifies this
      ensures Valid() && (forall e :: e in es <==> e in old(es) || e == EntryOf(s, t, key, value))
      ensures Run() == Entries.Insert(old(Run()), Modelled(EntryOf(s, t, key, value)))
    {
      hide Position, Stored, Varint, EncodeFixed64, ModelledRun, Modelled, TakeDelimited;
      ghost var e := EntryOf(s, t, key, value);
      var internalKey := key + EncodeFixed64(PackSequenceAndType(s, t));
      var buf := Varint(|key| + 8) + internalKey + Varint(|value|) + value;
      SameBytes(e, value);
      assert buf == Stored(e);
      var i := Position(table, internalKey);
      PositionIsSeek(table, es, e, i);
      Inserted(es, e, i);
      InsertedBytes(table, es, e, i);
      table := table[..i] + [buf] + table[i..];
      es := es[..i] + [e] + es[i..];
    }

    // Whether the table decides the key at this sequence number, and how.
    method Get(key: Bytes, s: nat) returns (r: Option<Option<Bytes>>)
      requires Valid() && s <= Entries.MAX_SEQUENCE_NUMBER
      ensures r == None <==> Entries.RunGet(Run(), Comparator.Rank(key), s) == None
      ensures r.Some? ==> Entries.RunGet(Run(), Comparator.Rank(key), s) == Some(OpOf(r.value))
    {
      hide Position, Stored, ModelledRun, TakeDelimited, Tag, ExtractUserKey, InternalLess, EntryOk, KeyOf;
      var lookup := InternalKey(key, s, VALUE_TYPE_FOR_SEEK);
      var i := Position(table, lookup);
      PositionIsLookup(table, es, key, s, i);
      LandsOn(es, key, s, i);
      if i == |table| { return None; }
      EntryBytes(es[i]);
      var k := TakeDelimited(table[i]);
      if ExtractUserKey(k.value.0) != key { return None; }
      if Tag(k.value.0) % 256 == TYPE_VALUE {
        var v := TakeDelimited(k.value.1);
        r := Some(Some(v.value.0));
      } else {
        r := Some(None);
      }
    }
  }

  // What the parts of a stored entry say.
  lemma EntryBytes(e: MemEntry)
    requires EntryOk(e)
    ensures var k := TakeDelimited(Stored(e));
      && k.Some? && IsInternal(k.value.0) && ExtractUserKey(k.value.0) == e.key
      && (Tag(k.value.0) % 256 == TYPE_VALUE <==> e.value.Some?)
      && (e.value.Some? ==> TakeDelimited(k.value.1) == Some((e.value.value, [])))
  {
    hide Stored, TakeDelimited, Tag, ExtractUserKey;
    StoredKey(e);
    InternalKeyParts(e.key, e.sn, TypeOf(e));
  }

  // The read of the run is decided by the entry the seek lands on.
  lemma LandsOn(es: seq<MemEntry>, key: Bytes, s: nat, i: nat)
    requires (forall e :: e in es ==> EntryOk(e)) && i == Entries.SeekIndex(ModelledRun(es), Comparator.Rank(key), s)
    ensures i == |es| || es[i].key != key ==> Entries.RunGet(ModelledRun(es), Comparator.Rank(key), s) == None
    ensures i < |es| && es[i].key == key ==>
      Entries.RunGet(ModelledRun(es), Comparator.Rank(key), s) == Some(OpOf(es[i].value))
  {
    if i < |es| { Comparator.RankIsInjective(es[i].key, key); }
  }

  function EntryOf(s: nat, t: nat, key: Bytes, value: Bytes): MemEntry {
    MemEntry(key, s, if t == TYPE_VALUE then Some(value) else None)
  }

  lemma SameBytes(e: MemEntry, value: Bytes)
    requires EntryOk(e) && value == if e.value.Some? then e.value.value else []
    ensures Stored(e) == Varint(|e.key| + 8) + KeyOf(e) + Varint(|value|) + value
  {
    assert |KeyOf(e)| == |e.key| + 8;
    assert Stored(e) == Varint(|KeyOf(e)|) + KeyOf(e) + (Varint(|value|) + value);
  }

  // Before a sought entry in the table, and in the model.
  lemma LessIsBefore(e: MemEntry, key: Bytes, s: nat, t: nat)
    requires EntryOk(e) && s <= Entries.MAX_SEQUENCE_NUMBER && t <= VALUE_TYPE_FOR_SEEK
    requires e.key == key && e.sn == s ==> TypeOf(e) <= t
    ensures InternalLess(KeyOf(e), InternalKey(key, s, t)) <==> !Entries.AtOrAfter(Modelled(e), Comparator.Rank(key), s)
  {
    InternalOrderIsEntryOrder(e.key, e.sn, TypeOf(e), key, s, t);
    Comparator.RankIsOrder(e.key, key);
    Comparator.RankIsOrder(key, e.key);
    Comparator.RankIsInjective(e.key, key);
  }

  lemma PositionIs(table: seq<Bytes>, es: seq<MemEntry>, key: Bytes, s: nat, t: nat, i: nat)
    requires |table| == |es| && (forall e :: e in es ==> EntryOk(e)) && forall j :: 0 <= j < |es| ==> table[j] == Stored(es[j])
    requires s <= Entries.MAX_SEQUENCE_NUMBER && t <= VALUE_TYPE_FOR_SEEK
    requires forall e :: e in es && e.key == key && e.sn == s ==> TypeOf(e) <= t
    requires i == Position(table, InternalKey(key, s, t))
    ensures i == Entries.SeekIndex(ModelledRun(es), Comparator.Rank(key), s)
  {
    hide InternalLess, Stored;
    forall j | 0 <= j < |es|
      ensures StoredInternalKey(table[j]) == KeyOf(es[j])
      ensures InternalLess(KeyOf(es[j]), InternalKey(key, s, t))
        <==> !Entries.AtOrAfter(ModelledRun(es)[j], Comparator.Rank(key), s)
    {
      StoredKey(es[j]);
      assert es[j] in es;
      LessIsBefore(es[j], key, s, t);
    }
  }

  lemma PositionIsSeek(table: seq<Bytes>, es: seq<MemEntry>, e: MemEntry, i: nat)
    requires |table| == |es| && (forall x :: x in es ==> EntryOk(x)) && forall j :: 0 <= j < |es| ==> table[j] == Stored(es[j])
    requires EntryOk(e) && forall x :: x in es ==> !(x.key == e.key && x.sn == e.sn)
    requires i == Position(table, KeyOf(e))
    ensures i == Entries.SeekIndex(ModelledRun(es), Comparator.Rank(e.key), e.sn)
  {
    PositionIs(table, es, e.key, e.sn, TypeOf(e), i);
  }

  lemma PositionIsLookup(table: seq<Bytes>, es: seq<MemEntry>, key: Bytes, s: nat, i: nat)
    requires |table| == |es| && (forall x :: x in es ==> EntryOk(x)) && forall j :: 0 <= j < |es| ==> table[j] == Stored(es[j])
    requires s <= Entries.MAX_SEQUENCE_NUMBER && i == Position(table, InternalKey(key, s, VALUE_TYPE_FOR_SEEK))
    ensures i == Entries.SeekIndex(ModelledRun(es), Comparator.Rank(key), s)
  {
    PositionIs(table, es, key, s, VALUE_TYPE_FOR_SEEK, i);
  }

  lemma Inserted(es: seq<MemEntry>, e: MemEntry, i: nat)
    requires (forall x :: x in es ==> EntryOk(x)) && EntryOk(e) && i <= |es|
    ensures var after := es[..i] + [e] + es[i..];
      && (forall x :: x in after ==> EntryOk(x)) && (forall x :: x in after <==> x in es || x == e)
      && (i == Entries.SeekIndex(ModelledRun(es), Comparator.Rank(e.key), e.sn) ==>
            ModelledRun(after) == Entries.Insert(ModelledRun(es), Modelled(e)))
  {
    var after := es[..i] + [e] + es[i..];
    assert es == es[..i] + es[i..];
    assert ModelledRun(after) == ModelledRun(es)[..i] + [Modelled(e)] + ModelledRun(es)[i..];
  }

  lemma InsertedBytes(table: seq<Bytes>, es: seq<MemEntry>, e: MemEntry, i: nat)
    requires |table| == |es| && (forall x :: x in es ==> EntryOk(x)) && EntryOk(e) && i <= |es|
    requires forall j :: 0 <= j < |es| ==> table[j] == Stored(es[j])
    ensures var (after, rows) := (es[..i] + [e] + es[i..], table[..i] + [Stored(e)] + table[i..]);
      |rows| == |after| && forall j :: 0 <= j < |after| ==> EntryOk(after[j]) && rows[j] == Stored(after[j])
  {
    hide Stored, EntryOk;
  }
}
