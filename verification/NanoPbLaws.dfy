// Nanopb: what a decoded message holds, from its pieces: arrays in order, packed
// or not, the last value of anything else, nothing from fields the reader does
// not know.

module NanoPbLaws {
  import opened Wrappers
  import opened Coding
  import opened NanoPb
  import opened NanoPbDecode
  import opened NanoPbRoundTrip
  import opened NanoPbPieces

  // ------------------------------------------- values of a field in order

  // A value by itself comes back as it does from an encoded message.
  lemma FreshIsRestored(f: Field, v: Value)
    requires FieldOk(f) && Encodes(f, v)
    ensures MergedValue(f, Default(f), v) == RestoredValue(f, v)
  {
    hide MergedValue, RestoredValue, DecodeValue, EncodeValue, FieldOk;
    StoredIsDefault(f);
    ValueMerges(f, Default(f), v, []);
    ValueDecodes(f, v, Default(f), []);
  }

  lemma {:induction false} AllFreshAreRestored(f: Field, vs: seq<Value>)
    requires FieldOk(f) && AllEncode(f, vs)
    ensures forall k :: 0 <= k < |vs| ==> ValueOk(f, vs[k])
    ensures Fresh(f, vs) == RestoredValues(f, vs)
    decreases |vs|
  {
    hide MergedValue, RestoredValue, FieldOk, ValueOk;
    EncodesIsOk(f, vs);
    hide Encodes;
    if |vs| > 0 {
      var front, last := vs[..|vs| - 1], vs[|vs| - 1];
      assert front + [last] == vs;
      AllFreshAreRestored(f, front);
      FreshIsRestored(f, last);
      FreshAppends(f, front, [last]);
      OneFresh(f, last);
    }
  }

  lemma EncodesIsOk(f: Field, vs: seq<Value>)
    requires AllEncode(f, vs)
    ensures forall k :: 0 <= k < |vs| ==> ValueOk(f, vs[k])
  {
  }

  // Of plain values the last one is what is left.
  lemma {:induction false} LastIsLeft(f: Field, old_: Value, vs: seq<Value>)
    requires !f.kind.Submessage? && AllEncode(f, vs) && |vs| > 0
    ensures Applied(f, old_, vs).Some? ==> Applied(f, old_, vs).value == vs[|vs| - 1]
    decreases |vs|
  {
    hide Encodes;
    if |vs| > 1 && MergedValue(f, old_, vs[0]).Some? { LastIsLeft(f, vs[0], vs[1..]); }
  }

  lemma FieldOfResult(fields: seq<Field>, slots: seq<Slot>, ps: seq<Piece>, i: nat)
    requires DescriptorOk(fields) && |slots| == |fields| && PiecesOk(fields, ps) && i < |fields|
    ensures var r, s := DecodeMessage(fields, slots, AllBytes(fields, ps)), FieldAfter(fields, slots, ps, i);
      && (r.Some? ==> s == Some(r.value[i])) && (s == None ==> r == None)
      && (fields[i].rule.Required? && ValuesFor(ps, i) == [] ==> r == None)
  {
    hide FieldAfter, DecodeMessage, PieceOk;
    PiecesDecode(fields, slots, ps);
    assert After(fields, slots, ps).Some? <==> AllTaken(fields, slots, ps);
  }

  // Values of a repeated field are gathered in the order of their pieces,
  // packed or not.
  lemma RepeatedGathers(fields: seq<Field>, slots: seq<Slot>, ps: seq<Piece>, i: nat)
    requires DescriptorOk(fields) && |slots| == |fields| && PiecesOk(fields, ps)
    requires i < |fields| && fields[i].rule.Repeated?
    ensures var r, f, vs := DecodeMessage(fields, slots, AllBytes(fields, ps)), fields[i], ValuesFor(ps, i);
      && (forall k :: 0 <= k < |vs| ==> ValueOk(f, vs[k]))
      && (r.Some? ==> RestoredValues(f, vs).Some? && r.value[i].values == slots[i].values + RestoredValues(f, vs).value)
      && (RestoredValues(f, vs) == None || (|vs| > 0 && |slots[i].values| + |vs| > f.rule.arraySize) ==> r == None)
      && (Packable(f.kind) ==> RestoredValues(f, vs) == Some(vs))
  {
    hide Fresh, Applied, DecodeMessage, RestoredValues, PieceOk, Encodes, FieldOk, ValueOk, ValuesFor, AllBytes;
    var f, vs := fields[i], ValuesFor(ps, i);
    FieldIsSmaller(fields, i);
    FieldOfResult(fields, slots, ps, i);
    ValuesForEncode(fields, ps, i);
    AllFreshAreRestored(f, vs);
    NothingFresh(f);
    if Packable(f.kind) { NumbersStay(f, vs); }
    assert slots[i].values + [] == slots[i].values;
  }

  // A field with one value keeps the last one.
  lemma LastValueWins(fields: seq<Field>, slots: seq<Slot>, ps: seq<Piece>, i: nat)
    requires DescriptorOk(fields) && |slots| == |fields| && PiecesOk(fields, ps) && i < |fields|
    requires !fields[i].rule.Repeated? && !fields[i].rule.Oneof? && !fields[i].kind.Submessage?
    ensures var r, vs := DecodeMessage(fields, slots, AllBytes(fields, ps)), ValuesFor(ps, i);
      && (r.Some? ==> r.value[i] == if |vs| == 0 then slots[i] else Slot([vs[|vs| - 1]]))
      && (fields[i].rule.Required? && |vs| == 0 ==> r == None)
  {
    hide Applied, DecodeMessage, PieceOk, Encodes, DescriptorOk, ValuesFor, AllBytes;
    FieldIsSmaller(fields, i);
    FieldOfResult(fields, slots, ps, i);
    ValuesForEncode(fields, ps, i);
    if |ValuesFor(ps, i)| > 0 { LastIsLeft(fields[i], Stored(fields[i], slots[i]), ValuesFor(ps, i)); }
  }

  // Of a union the member that comes last is set, and no other.
  lemma LastMemberWins(fields: seq<Field>, slots: seq<Slot>, ps: seq<Piece>, i: nat)
    requires DescriptorOk(fields) && |slots| == |fields| && PiecesOk(fields, ps) && i < |fields| && fields[i].rule.Oneof?
    ensures var r, vs, last := DecodeMessage(fields, slots, AllBytes(fields, ps)), ValuesFor(ps, i), LastMember(fields, ps, fields[i].rule);
      r.Some? ==>
        && (last == None ==> r.value[i] == slots[i])
        && (last.Some? && last.value != i ==> r.value[i] == Slot([]))
        && (last == Some(i) ==>
              |vs| > 0 && ValueOk(fields[i], vs[|vs| - 1]) && RestoredValue(fields[i], vs[|vs| - 1]).Some?
              && r.value[i] == Slot([RestoredValue(fields[i], vs[|vs| - 1]).value]))
  {
    hide Fresh, DecodeMessage, RestoredValues, PieceOk, Encodes, FieldOk, ValueOk, ValuesFor, AllBytes, LastMember;
    var f, vs := fields[i], ValuesFor(ps, i);
    FieldIsSmaller(fields, i);
    FieldOfResult(fields, slots, ps, i);
    ValuesForEncode(fields, ps, i);
    AllFreshAreRestored(f, vs);
    if |vs| > 0 { LastRestored(f, vs); }
  }

  lemma LastRestored(f: Field, vs: seq<Value>)
    requires (forall k :: 0 <= k < |vs| ==> ValueOk(f, vs[k])) && |vs| > 0
    ensures var r, last := RestoredValues(f, vs), vs[|vs| - 1];
      r.Some? ==> RestoredValue(f, last) == Some(r.value[|vs| - 1])
  {
  }

  lemma SameValuesSameField(fields: seq<Field>, slots: seq<Slot>, ps: seq<Piece>, qs: seq<Piece>, i: nat)
    requires |slots| == |fields| && PiecesOk(fields, ps) && PiecesOk(fields, qs) && i < |fields|
    requires ValuesFor(ps, i) == ValuesFor(qs, i)
    requires fields[i].rule.Oneof? ==> LastMember(fields, ps, fields[i].rule) == LastMember(fields, qs, fields[i].rule)
    ensures FieldAfter(fields, slots, ps, i) == FieldAfter(fields, slots, qs, i)
  {
    hide PieceOk, LastMember, ValuesFor, SlotAfter, Fresh;
    FieldIsSmaller(fields, i);
    ValuesForEncode(fields, ps, i);
  }

  // Nothing else counts: the same values for each field, and the same last
  // members, decode to the same message.
  lemma SameValuesSameMessage(fields: seq<Field>, slots: seq<Slot>, ps: seq<Piece>, qs: seq<Piece>)
    requires DescriptorOk(fields) && |slots| == |fields| && PiecesOk(fields, ps) && PiecesOk(fields, qs)
    requires forall i :: 0 <= i < |fields| ==> ValuesFor(ps, i) == ValuesFor(qs, i)
    requires forall i :: 0 <= i < |fields| && fields[i].rule.Oneof? ==>
      LastMember(fields, ps, fields[i].rule) == LastMember(fields, qs, fields[i].rule)
    ensures DecodeMessage(fields, slots, AllBytes(fields, ps)) == DecodeMessage(fields, slots, AllBytes(fields, qs))
  {
    hide DecodeMessage, PieceOk, LastMember, ValuesFor, After, FieldAfter, AllBytes;
    PiecesDecode(fields, slots, ps);
    PiecesDecode(fields, slots, qs);
    forall i | 0 <= i < |fields| ensures FieldAfter(fields, slots, ps, i) == FieldAfter(fields, slots, qs, i) {
      SameValuesSameField(fields, slots, ps, qs, i);
    }
    SameAfter(fields, slots, ps, slots, qs);
  }

  function Known(ps: seq<Piece>): seq<Piece> {
    if |ps| == 0 then [] else (if ps[0].Unknown? then [] else [ps[0]]) + Known(ps[1..])
  }

  lemma {:induction false} KnownValues(fields: seq<Field>, ps: seq<Piece>)
    requires PiecesOk(fields, ps)
    ensures PiecesOk(fields, Known(ps))
    ensures forall i :: 0 <= i < |fields| ==> ValuesFor(Known(ps), i) == ValuesFor(ps, i)
    ensures forall i :: 0 <= i < |fields| ==> LastMember(fields, Known(ps), fields[i].rule) == LastMember(fields, ps, fields[i].rule)
    decreases |ps|
  {
    if |ps| > 0 {
      assert PieceOk(fields, ps[0]);
      hide PieceOk;
      KnownValues(fields, ps[1..]);
      var p, rest := ps[0], Known(ps[1..]);
      if p.Unknown? {
        assert Known(ps) == rest;
        assert forall i :: 0 <= i < |fields| ==> [] + ValuesFor(ps[1..], i) == ValuesFor(ps[1..], i);
      } else {
        assert Known(ps) == [p] + rest && Known(ps)[1..] == rest;
      }
    }
  }

  // Fields that the reader does not know change nothing.
  lemma UnknownFieldsChangeNothing(fields: seq<Field>, slots: seq<Slot>, ps: seq<Piece>)
    requires DescriptorOk(fields) && |slots| == |fields| && PiecesOk(fields, ps)
    ensures PiecesOk(fields, Known(ps))
    ensures DecodeMessage(fields, slots, AllBytes(fields, ps)) == DecodeMessage(fields, slots, AllBytes(fields, Known(ps)))
  {
    hide DecodeMessage, PieceOk, LastMember, ValuesFor, Known;
    KnownValues(fields, ps);
    SameValuesSameMessage(fields, slots, ps, Known(ps));
  }

  // ------------------------------------------- values of an array one by one

  lemma {:induction false} SinglyValues(fields: seq<Field>, i: nat, vs: seq<Value>, j: nat)
    requires i < |fields| && fields[i].rule.Repeated? && AllEncode(fields[i], vs)
    ensures PiecesOk(fields, Singly(i, vs))
    ensures ValuesFor(Singly(i, vs), j) == if j == i then vs else []
    ensures forall rule: Rule :: rule.Oneof? ==> LastMember(fields, Singly(i, vs), rule) == None
    decreases |vs|
  {
    if |vs| > 0 {
      var ps := Singly(i, vs);
      assert ps[1..] == Singly(i, vs[1..]) && ps[0] == One(i, vs[0]);
      SinglyValues(fields, i, vs[1..], j);
      assert j == i ==> [vs[0]] + vs[1..] == vs;
    }
  }

  lemma {:induction false} SinglySeen(fields: seq<Field>, seen: set<nat>, i: nat, vs: seq<Value>)
    requires i < |fields| && fields[i].rule.Repeated? && AllEncode(fields[i], vs) && PiecesOk(fields, Singly(i, vs))
    ensures SeenAfter(fields, seen, Singly(i, vs)) == seen
    decreases |vs|
  {
    if |vs| > 0 {
      var ps := Singly(i, vs);
      assert ps[1..] == Singly(i, vs[1..]) && ps[0] == One(i, vs[0]);
      SinglySeen(fields, seen, i, vs[1..]);
    }
  }

  // An array sent as one tagged value after the other, whatever its kind: if the
  // array has room for them, the values are appended in order.
  lemma SinglyTaggedAppends(fields: seq<Field>, slots: seq<Slot>, seen: set<nat>, i: nat, vs: seq<Value>)
    requires DescriptorOk(fields) && |slots| == |fields| && i < |fields| && fields[i].rule.Repeated?
    requires AllEncode(fields[i], vs) && |slots[i].values| + |vs| <= fields[i].rule.arraySize
    ensures EncodeItems(fields[i], vs, 0, true).Some? && forall k :: 0 <= k < |vs| ==> ValueOk(fields[i], vs[k])
    ensures var r := RestoredValues(fields[i], vs);
      DecodeLoop(fields, slots, seen, EncodeItems(fields[i], vs, 0, true).value)
      == if r == None then None else Some((slots[i := Slot(slots[i].values + r.value)], seen))
  {
    hide Fresh, DecodeLoop, RestoredValues, Encodes, FieldOk, ValueOk, EncodeItems, After, ValuesFor, LastMember;
    var f, ps := fields[i], Singly(i, vs);
    assert vs[0..] == vs;
    FieldIsSmaller(fields, i);
    ItemsArePieces(fields, i, vs, 0);
    LoopDecodes(fields, slots, seen, ps);
    SinglySeen(fields, seen, i, vs);
    AllFreshAreRestored(f, vs);
    NothingFresh(f);
    SinglyValues(fields, i, vs, i);
    assert slots[i].values + [] == slots[i].values;
    forall j | 0 <= j < |fields| && j != i ensures FieldAfter(fields, slots, ps, j) == Some(slots[j]) {
      FieldIsSmaller(fields, j);
      SinglyValues(fields, i, vs, j);
      NothingFresh(fields[j]);
    }
    FieldChanges(fields, slots, ps, i);
  }

  lemma FieldChanges(fields: seq<Field>, slots: seq<Slot>, ps: seq<Piece>, i: nat)
    requires |slots| == |fields| && PiecesOk(fields, ps) && i < |fields|
    requires forall j :: 0 <= j < |fields| && j != i ==> FieldAfter(fields, slots, ps, j) == Some(slots[j])
    ensures var slot := FieldAfter(fields, slots, ps, i);
      After(fields, slots, ps) == if slot == None then None else Some(slots[i := slot.value])
  {
    hide FieldAfter, PieceOk;
    var slot := FieldAfter(fields, slots, ps, i);
    assert AllTaken(fields, slots, ps) <==> slot.Some?;
    if slot.Some? { assert After(fields, slots, ps).value == slots[i := slot.value]; }
  }

  // ---------------------------------------------- one message after another

  lemma {:induction false} AfterAppends(fields: seq<Field>, slots: seq<Slot>, ps: seq<Piece>, qs: seq<Piece>)
    requires |slots| == |fields| && PiecesOk(fields, ps) && PiecesOk(fields, qs)
    ensures PiecesOk(fields, ps + qs)
    ensures After(fields, slots, ps + qs)
      == (var r := After(fields, slots, ps); if r == None then None else After(fields, r.value, qs))
    decreases |ps|
  {
    hide After, PieceOk;
    if |ps| == 0 {
      assert ps == [] && ps + qs == qs;
      NothingAfter(fields, slots);
    } else {
      var p, rest := ps[0], ps[1..];
      assert ps == [p] + rest && ps + qs == [p] + (rest + qs);
      assert PiecesOk(fields, rest + qs);
      AfterSplits(fields, slots, p, rest);
      AfterSplits(fields, slots, p, rest + qs);
      var a := After(fields, slots, [p]);
      if a.Some? { AfterAppends(fields, a.value, rest, qs); }
    }
  }

  lemma {:induction false} ValuesAppend(ps: seq<Piece>, qs: seq<Piece>, i: nat)
    ensures ValuesFor(ps + qs, i) == ValuesFor(ps, i) + ValuesFor(qs, i)
  {
    if |ps| == 0 {
      assert ps + qs == qs;
    } else {
      assert (ps + qs)[1..] == ps[1..] + qs;
      ValuesAppend(ps[1..], qs, i);
    }
  }

  // Decoding two messages written one after the other is decoding the second on
  // top of the first, if each has what is required.
  lemma ConcatenationMerges(fields: seq<Field>, slots: seq<Slot>, ps: seq<Piece>, qs: seq<Piece>)
    requires DescriptorOk(fields) && |slots| == |fields| && PiecesOk(fields, ps) && PiecesOk(fields, qs)
    requires RequiredThere(fields, ps) && RequiredThere(fields, qs)
    ensures DecodeMessage(fields, slots, AllBytes(fields, ps) + AllBytes(fields, qs))
      == (var r := DecodeMessage(fields, slots, AllBytes(fields, ps));
          if r == None then None else DecodeMessage(fields, r.value, AllBytes(fields, qs)))
  {
    hide DecodeMessage, After, PieceOk, AllBytes, ValuesFor;
    BytesAppend(fields, ps, qs);
    PiecesDecode(fields, slots, ps);
    PiecesDecode(fields, slots, ps + qs);
    AfterAppends(fields, slots, ps, qs);
    forall i | 0 <= i < |fields| && fields[i].rule.Required? ensures ValuesFor(ps + qs, i) != [] {
      ValuesAppend(ps, qs, i);
    }
    var r := Result(fields, slots, ps);
    if r.Some? { PiecesDecode(fields, r.value, qs); }
  }

  // ---------------------------------------- messages from a newer sender

  // The fields a reader knows, of a message with more of them.
  lemma OlderPart(older: seq<Field>, extra: seq<Field>, slots: seq<Slot>)
    requires SlotsOk(older + extra, slots)
    ensures SlotsOk(older, slots[..|older|])
  {
    hide SlotOk;
    var newer, front := older + extra, slots[..|older|];
    forall i | 0 <= i < |older| ensures FieldSize(older[i]) < TreeSize(older) && SlotOk(older[i], front[i]) {
      FieldIsSmaller(older, i);
      assert newer[i] == older[i] && front[i] == slots[i];
    }
    assert UnionsOk(older, front) by {
      assert forall i :: 0 <= i < |older| ==> newer[i] == older[i] && front[i] == slots[i];
    }
  }

  lemma {:induction false} OlderBytesFirst(older: seq<Field>, extra: seq<Field>, slots: seq<Slot>, i: nat)
    requires SlotsOk(older + extra, slots) && SlotsOk(older, slots[..|older|]) && i <= |older|
    ensures EncodeFrom(older + extra, slots, i)
      == Join(EncodeFrom(older, slots[..|older|], i), EncodeFrom(older + extra, slots, |older|))
    decreases |older| - i
  {
    hide SlotOk, EncodeSlot;
    if i == |older| {
      var e := EncodeFrom(older + extra, slots, |older|);
      assert e.Some? ==> [] + e.value == e.value;
    } else {
      var newer, front := older + extra, slots[..|older|];
      FieldIsSmaller(older, i);
      FieldIsSmaller(newer, i);
      assert newer[i] == older[i] && front[i] == slots[i];
      OlderBytesFirst(older, extra, slots, i + 1);
      JoinsAssociate(EncodeSlot(older[i], front[i]), EncodeFrom(older, front, i + 1), EncodeFrom(newer, slots, |older|));
    }
  }

  lemma JoinsAssociate(a: Option<Bytes>, b: Option<Bytes>, c: Option<Bytes>)
    ensures Join(a, Join(b, c)) == Join(Join(a, b), c)
  {
    if a.Some? && b.Some? && c.Some? { assert a.value + (b.value + c.value) == a.value + b.value + c.value; }
  }

  predicate AllUnknown(ps: seq<Piece>) {
    forall k :: 0 <= k < |ps| ==> ps[k].Unknown?
  }

  lemma {:induction false} UnknownItems(older: seq<Field>, f: Field, values: seq<Value>, j: nat) returns (ps: seq<Piece>)
    requires 0 < f.tag <= MAX_TAG && (forall k :: 0 <= k < |older| ==> older[k].tag != f.tag)
    requires j <= |values| && AllEncode(f, values)
    ensures AllUnknown(ps) && PiecesOk(older, ps) && EncodeItems(f, values, j, true) == Some(AllBytes(older, ps))
    decreases |values| - j
  {
    hide Tag, EncodeValue, FieldSize;
    if j == |values| {
      ps := [];
    } else {
      assert PieceOk(older, Unknown(f, values[j]));
      hide PieceOk, ValueOk;
      var more := UnknownItems(older, f, values, j + 1);
      ps := [Unknown(f, values[j])] + more;
      assert ps[1..] == more;
    }
  }

  // To someone who does not know the field a packed array is a string of bytes.
  lemma UnknownString(older: seq<Field>, tag: nat, d: Bytes) returns (ps: seq<Piece>)
    requires 0 < tag <= MAX_TAG && (forall k :: 0 <= k < |older| ==> older[k].tag != tag) && |Delimited(d)| < TWO_TO_32
    ensures AllUnknown(ps) && PiecesOk(older, ps) && AllBytes(older, ps) == Tag(StringType, tag) + Delimited(d)
  {
    hide Tag, Varint;
    var p := Unknown(Field(tag, Optional, BytesArray, |d| + BYTES_OFFSET, None), Data(d));
    ps := [p];
    DelimitedIsLonger(d);
    assert PieceOk(older, p);
    assert ps[1..] == [] && AllBytes(older, []) == [];
    assert AllBytes(older, ps) == PieceBytes(older, p) + [];
  }

  lemma UnknownSlot(older: seq<Field>, f: Field, s: Slot) returns (ps: seq<Piece>)
    requires SlotOk(f, s) && 0 < f.tag <= MAX_TAG && (forall k :: 0 <= k < |older| ==> older[k].tag != f.tag)
    requires var e := EncodeSlot(f, s); e.Some? && |e.value| < TWO_TO_32
    ensures AllUnknown(ps) && PiecesOk(older, ps) && EncodeSlot(f, s) == Some(AllBytes(older, ps))
  {
    hide Tag, Varint, PieceOk;
    ps := [];
    if f.rule.Repeated? && |s.values| > 0 {
      ItemsAreOk(f, s.values, 0, !Packable(f.kind));
      if Packable(f.kind) {
        ps := UnknownString(older, f.tag, EncodeItems(f, s.values, 0, false).value);
      } else {
        ps := UnknownItems(older, f, s.values, 0);
      }
    } else if !f.rule.Repeated? && |Written(f, s)| > 0 {
      assert Encodes(f, s.values[0]);
      ps := UnknownItems(older, f, [s.values[0]], 0);
      OneItem(f, s.values[0]);
    }
  }

  lemma OneItem(f: Field, v: Value)
    requires ValueOk(f, v)
    ensures EncodeItems(f, [v], 0, true) == TaggedValue(f, v)
  {
    var e := TaggedValue(f, v);
    assert e.Some? ==> e.value + [] == e.value;
    assert EncodeItems(f, [v], 1, true) == Some([]);
  }

  lemma {:induction false} UnknownTail(older: seq<Field>, newer: seq<Field>, slots: seq<Slot>, i: nat) returns (ps: seq<Piece>)
    requires SlotsOk(newer, slots) && i <= |newer|
    requires forall j :: i <= j < |newer| ==> 0 < newer[j].tag <= MAX_TAG
    requires forall j, k :: i <= j < |newer| && 0 <= k < |older| ==> older[k].tag != newer[j].tag
    requires var e := EncodeFrom(newer, slots, i); e.Some? && |e.value| < TWO_TO_32
    ensures AllUnknown(ps) && PiecesOk(older, ps) && EncodeFrom(newer, slots, i) == Some(AllBytes(older, ps))
    decreases |newer| - i
  {
    hide EncodeSlot, SlotOk, PieceOk;
    if i == |newer| {
      ps := [];
    } else {
      FieldIsSmaller(newer, i);
      var head := UnknownSlot(older, newer[i], slots[i]);
      var tail := UnknownTail(older, newer, slots, i + 1);
      ps := head + tail;
      BytesAppend(older, head, tail);
    }
  }

  lemma {:induction false} NoneKnown(ps: seq<Piece>, qs: seq<Piece>)
    requires AllUnknown(qs)
    ensures Known(ps + qs) == Known(ps)
  {
    if |ps| > 0 {
      assert (ps + qs)[1..] == ps[1..] + qs;
      NoneKnown(ps[1..], qs);
    } else if |qs| > 0 {
      assert ps + qs == qs && qs == [qs[0]] + qs[1..];
      NoneKnown([], qs[1..]);
      assert [] + qs[1..] == qs[1..];
    }
  }

  // A message with fields that its reader does not know decodes as if it had
  // been sent without them.
  lemma NewerMessageDecodes(older: seq<Field>, extra: seq<Field>, slots: seq<Slot>)
    requires DescriptorOk(older + extra) && DescriptorOk(older) && SlotsOk(older + extra, slots)
    requires var e := Encode(older + extra, slots); e.Some? && |e.value| < TWO_TO_32
    ensures SlotsOk(older, slots[..|older|]) && Encode(older, slots[..|older|]).Some?
    ensures Decode(older, Encode(older + extra, slots).value) == Decode(older, Encode(older, slots[..|older|]).value)
  {
    hide SlotOk, DecodeMessage, PieceOk, AllBytes, Known, Join, EncodeFrom;
    var newer, front := older + extra, slots[..|older|];
    OlderPart(older, extra, slots);
    OlderBytesFirst(older, extra, slots, 0);
    JoinedParts(EncodeFrom(older, front, 0), EncodeFrom(newer, slots, |older|));
    UsableTags(older, extra);
    var qs := UnknownTail(older, newer, slots, |older|);
    EncodedIsPieces(older, front, 0);
    var ps := PiecesFrom(older, front, 0);
    BytesAppend(older, ps, qs);
    NoneKnown(ps, qs);
    UnknownFieldsChangeNothing(older, Defaults(older), ps + qs);
    UnknownFieldsChangeNothing(older, Defaults(older), ps);
  }

  lemma JoinedParts(a: Option<Bytes>, b: Option<Bytes>)
    ensures Join(a, b).Some? ==> a.Some? && b.Some? && Join(a, b).value == a.value + b.value
    ensures Join(a, b).Some? ==> |a.value| <= |Join(a, b).value| && |b.value| <= |Join(a, b).value|
  {
  }

  lemma UsableTags(older: seq<Field>, extra: seq<Field>)
    requires DescriptorOk(older + extra)
    ensures var newer := older + extra;
      && (forall j :: |older| <= j < |newer| ==> 0 < newer[j].tag <= MAX_TAG)
      && (forall j, k :: |older| <= j < |newer| && 0 <= k < |older| ==> older[k].tag != newer[j].tag)
  {
    var newer := older + extra;
    forall j | |older| <= j < |newer| ensures 0 < newer[j].tag <= MAX_TAG {
      FieldIsSmaller(newer, j);
    }
    assert forall k :: 0 <= k < |older| ==> newer[k] == older[k];
  }

  // ------------------------------------------------------- bytes on the wire

  function NumberField(tag: nat, kind: Kind): Field {
    Field(tag, Required, kind, 4, None)
  }

  lemma SmallVarints()
    ensures Varint(13) == [13] && Varint(9) == [9] && Varint(8) == [8] && Varint(18) == [18] && Varint(34) == [34]
    ensures Varint(2) == [2] && Varint(3) == [3] && Varint(6) == [6]
    ensures Varint(150) == [150, 1] && Varint(149) == [149, 1] && Varint(270) == [142, 2]
    ensures Varint(86942) == [158, 167, 5]
  {
    assert Varint(86942) == [158] + Varint(679);
  }

  // Some values as they stand on the wire.
  lemma WireExamples()
    ensures ValueOk(NumberField(1, Fixed32), Word(7)) && ValueOk(NumberField(1, Fixed64), Word(7))
    ensures TaggedValue(NumberField(1, Fixed32), Word(7)) == Some([13, 7, 0, 0, 0])
    ensures TaggedValue(NumberField(1, Fixed64), Word(7)) == Some([9, 7, 0, 0, 0, 0, 0, 0, 0])
    ensures ValueOk(NumberField(1, UVarInt), Int(150)) && ValueOk(NumberField(2, BytesArray), Data([116, 101]))
    ensures TaggedValue(NumberField(1, UVarInt), Int(150)) == Some([8, 150, 1])
    ensures TaggedValue(NumberField(2, BytesArray), Data([116, 101])) == Some([18, 2, 116, 101])
    ensures ValueOk(NumberField(1, SVarInt), Int(-75)) && TaggedValue(NumberField(1, SVarInt), Int(-75)) == Some([8, 149, 1])
  {
    PowersOf256();
    hide Pow256;
    SmallVarints();
    hide Varint;
    assert Tag(Type32, 1) == [13] && [13] + EncodeFixed32(7) == [13, 7, 0, 0, 0];
    assert Tag(Type64, 1) == [9] && [9] + EncodeFixed64(7) == [9, 7, 0, 0, 0, 0, 0, 0, 0];
    assert Tag(VarintType, 1) == [8] && [8] + [150, 1] == [8, 150, 1] && [8] + [149, 1] == [8, 149, 1];
    assert Tag(StringType, 2) == [18] && [18] + ([2] + [116, 101]) == [18, 2, 116, 101];
    assert ZigZag(-75) == 149;
  }

  lemma PackedExample()
    ensures var f, vs := Field(4, Repeated(8), UVarInt, 4, None), [Int(3), Int(270), Int(86942)];
      && (forall k :: 0 <= k < |vs| ==> ValueOk(f, vs[k]))
      && EncodeArray(f, vs, 8) == Some([34, 6, 3, 142, 2, 158, 167, 5])
  {
    PowersOf256();
    hide Pow256;
    SmallVarints();
    hide Varint;
    var f, vs := Field(4, Repeated(8), UVarInt, 4, None), [Int(3), Int(270), Int(86942)];
    var (first, second, third) := (EncodeValue(f, vs[0]), EncodeValue(f, vs[1]), EncodeValue(f, vs[2]));
    assert first == Some([3]) && second == Some([142, 2]) && third == Some([158, 167, 5]);
    assert EncodeItems(f, vs, 3, false) == Some([]) && [158, 167, 5] + [] == [158, 167, 5];
    assert EncodeItems(f, vs, 2, false) == Join(third, EncodeItems(f, vs, 3, false)) == third;
    assert [142, 2] + [158, 167, 5] == [142, 2, 158, 167, 5];
    assert EncodeItems(f, vs, 1, false) == Join(second, third) == Some([142, 2, 158, 167, 5]);
    assert [3] + [142, 2, 158, 167, 5] == [3, 142, 2, 158, 167, 5];
    assert EncodeItems(f, vs, 0, false) == Some([3, 142, 2, 158, 167, 5]);
    assert Tag(StringType, 4) == [34] && Delimited([3, 142, 2, 158, 167, 5]) == [6] + [3, 142, 2, 158, 167, 5];
    assert [34] + ([6] + [3, 142, 2, 158, 167, 5]) == [34, 6, 3, 142, 2, 158, 167, 5];
  }
}
