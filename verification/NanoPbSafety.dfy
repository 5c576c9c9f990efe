// Nanopb: whatever bytes arrive, what the decoder stores fits its C types, its
// buffers and its arrays, and no union has two members.

module NanoPbSafety {
  import opened Wrappers
  import opened Coding
  import opened NanoPb
  import opened NanoPbDecode
  import NanoPbRoundTrip

  // Defaults are values of their fields, all over the tree.
  predicate Typed(fields: seq<Field>)
    decreases TreeSize(fields), 1
  {
    forall i :: 0 <= i < |fields| ==> (FieldIsSmaller(fields, i); TypedField(fields[i]))
  }

  predicate TypedField(f: Field)
    decreases FieldSize(f), 0
  {
    Good(f, Default(f)) && (f.kind.Submessage? ==> Typed(f.kind.fields))
  }

  // A value of the field's C type that fits its buffer.
  predicate Good(f: Field, v: Value)
    decreases FieldSize(f), 0
  {
    ValueOk(f, v) && ValueFits(f, v) && (f.kind.Submessage? ==> GoodSlots(f.kind.fields, v.slots))
  }

  predicate GoodSlot(f: Field, s: Slot)
    decreases FieldSize(f), 1
  {
    && (f.rule.Required? || f.rule.Implicit? ==> |s.values| == 1)
    && (f.rule.Optional? || f.rule.Oneof? ==> |s.values| <= 1)
    && (f.rule.Repeated? ==> |s.values| <= f.rule.arraySize)
    && forall i :: 0 <= i < |s.values| ==> Good(f, s.values[i])
  }

  // No array holds more than it has room for, and at most one member of a union
  // is set.
  predicate GoodSlots(fields: seq<Field>, slots: seq<Slot>)
    decreases TreeSize(fields), 2
  {
    && |slots| == |fields| && UnionsOk(fields, slots)
    && forall i :: 0 <= i < |fields| ==> (FieldIsSmaller(fields, i); GoodSlot(fields[i], slots[i]))
  }

  lemma GoodSlotsFit(fields: seq<Field>, slots: seq<Slot>)
    requires GoodSlots(fields, slots)
    ensures SlotsOk(fields, slots) && Fits(fields, slots)
  {
    hide ValueOk, ValueFits, UnionsOk;
    forall i | 0 <= i < |fields|
      ensures FieldSize(fields[i]) < TreeSize(fields) && SlotOk(fields[i], slots[i]) && SlotFits(fields[i], slots[i])
    {
      FieldIsSmaller(fields, i);
      GoodSlotFits(fields[i], slots[i]);
    }
  }

  lemma GoodSlotFits(f: Field, s: Slot)
    requires GoodSlot(f, s)
    ensures SlotOk(f, s) && SlotFits(f, s)
  {
    hide ValueOk, ValueFits;
  }

  lemma DefaultsAreGood(fields: seq<Field>)
    requires Typed(fields)
    ensures GoodSlots(fields, Defaults(fields))
  {
    hide Good;
    forall i | 0 <= i < |fields| ensures GoodSlot(fields[i], Defaults(fields)[i]) {
      FieldIsSmaller(fields, i);
      assert TypedField(fields[i]);
    }
  }

  lemma NumberIsGood(f: Field, u: nat)
    requires f.kind.VarInt? || f.kind.UVarInt? || f.kind.SVarInt?
    ensures var v := if f.kind.VarInt? then ToVarInt(f, u) else if f.kind.UVarInt? then ToUVarInt(f, u) else ToSVarInt(f, u);
      v.Some? ==> Good(f, v.value)
  {
    NanoPbRoundTrip.PowersOf256();
    hide Pow256;
  }

  lemma {:induction false} UpToNulHasNone(d: Bytes)
    ensures |UpToNul(d)| <= |d| && forall i :: 0 <= i < |UpToNul(d)| ==> UpToNul(d)[i] != 0
  {
    if |d| > 0 && d[0] != 0 { UpToNulHasNone(d[1..]); }
  }

  lemma DataIsGood(f: Field, old_: Value, b: Bytes)
    requires f.kind.BytesArray? || f.kind.Text? || f.kind.FixedBytes?
    requires Good(f, Default(f))
    ensures var r := DecodeValue(f, old_, b); r.Some? ==> Good(f, r.value.0)
  {
    var t := TakeDelimited(b);
    if t.Some? {
      LengthIsSmall(b);
      UpToNulHasNone(t.value.0);
    }
  }

  lemma LengthIsSmall(b: Bytes)
    ensures TakeDelimited(b).Some? ==> |TakeDelimited(b).value.0| < TWO_TO_32
  {
  }

  lemma {:induction false} DecodedValueIsGood(f: Field, old_: Value, b: Bytes)
    requires TypedField(f) && Good(f, old_)
    ensures var r := DecodeValue(f, old_, b); r.Some? ==> Good(f, r.value.0)
    decreases |b|, 1
  {
    match f.kind
    case VarInt => if TakeVarint64(b).Some? { NumberIsGood(f, TakeVarint64(b).value.0); }
    case UVarInt => if TakeVarint64(b).Some? { NumberIsGood(f, TakeVarint64(b).value.0); }
    case SVarInt => if TakeVarint64(b).Some? { NumberIsGood(f, TakeVarint64(b).value.0); }
    case Fixed32 =>
    case Fixed64 =>
    case Submessage(sub) => SubmessageIsGood(f, old_, b);
    case _ => DataIsGood(f, old_, b);
  }

  lemma {:induction false} SubmessageIsGood(f: Field, old_: Value, b: Bytes)
    requires f.kind.Submessage? && TypedField(f) && Good(f, old_)
    ensures var r := DecodeValue(f, old_, b); r.Some? ==> Good(f, r.value.0)
    decreases |b|, 0
  {
    var t, sub := TakeDelimited(b), f.kind.fields;
    if t.Some? {
      DecodedIsGood(sub, old_.slots, t.value.0);
      var m := DecodeMessage(sub, old_.slots, t.value.0);
      if m.Some? { GoodSlotsFit(sub, m.value); }
    }
  }

  lemma {:induction false} PackedIsGood(f: Field, values: seq<Value>, arraySize: nat, b: Bytes)
    requires TypedField(f) && |values| <= arraySize && forall i :: 0 <= i < |values| ==> Good(f, values[i])
    ensures var r := DecodePacked(f, values, arraySize, b);
      r.Some? ==> |r.value| <= arraySize && forall i :: 0 <= i < |r.value| ==> Good(f, r.value[i])
    decreases |b|, 2
  {
    hide Good, DecodeValue, TypedField;
    if |b| > 0 && |values| < arraySize {
      DefaultIsGood(f);
      DecodedValueIsGood(f, Default(f), b);
      var v := DecodeValue(f, Default(f), b);
      if v.Some? { PackedIsGood(f, values + [v.value.0], arraySize, v.value.1); }
    }
  }

  lemma DefaultIsGood(f: Field)
    requires TypedField(f)
    ensures Good(f, Default(f))
  {
  }

  lemma FieldIsGood(fields: seq<Field>, slots: seq<Slot>, i: nat)
    requires GoodSlots(fields, slots) && Typed(fields) && i < |fields|
    ensures GoodSlot(fields[i], slots[i]) && TypedField(fields[i]) && Good(fields[i], Stored(fields[i], slots[i]))
  {
    hide Good;
    FieldIsSmaller(fields, i);
    DefaultIsGood(fields[i]);
  }

  lemma OneSlotChanges(fields: seq<Field>, slots: seq<Slot>, i: nat, s: Slot)
    requires GoodSlots(fields, slots) && i < |fields| && GoodSlot(fields[i], s) && !fields[i].rule.Oneof?
    ensures GoodSlots(fields, slots[i := s])
  {
    hide GoodSlot;
    forall j | 0 <= j < |fields| ensures FieldSize(fields[j]) < TreeSize(fields) && GoodSlot(fields[j], slots[i := s][j]) {
      FieldIsSmaller(fields, j);
    }
  }

  lemma MemberChanges(fields: seq<Field>, slots: seq<Slot>, i: nat, v: Value)
    requires GoodSlots(fields, slots) && i < |fields| && Good(fields[i], v) && fields[i].rule.Oneof?
    ensures GoodSlots(fields, SetMember(fields, slots, i, v))
  {
    hide Good;
    var slots' := SetMember(fields, slots, i, v);
    forall j | 0 <= j < |fields| ensures FieldSize(fields[j]) < TreeSize(fields) && GoodSlot(fields[j], slots'[j]) {
      FieldIsSmaller(fields, j);
      assert GoodSlot(fields[j], slots[j]);
    }
  }

  lemma {:induction false} DecodedFieldIsGood(fields: seq<Field>, i: nat, slots: seq<Slot>, wire: nat, b: Bytes)
    requires Typed(fields) && GoodSlots(fields, slots) && i < |fields|
    ensures var r := DecodeField(fields, i, slots, wire, b); r.Some? ==> GoodSlots(fields, r.value.0)
    decreases |b|, 3
  {
    hide Good, GoodSlots, Typed, TypedField, DecodeValue, DecodePacked, SetMember;
    SameLength(fields, slots);
    FieldIsGood(fields, slots, i);
    var f := fields[i];
    DefaultIsGood(f);
    DecodedValueIsGood(f, Default(f), b);
    var v := DecodeValue(f, Default(f), b);
    match f.rule
    case Repeated(arraySize) =>
      var t := TakeDelimited(b);
      if wire == 2 && Packable(f.kind) && t.Some? {
        PackedIsGood(f, slots[i].values, arraySize, t.value.0);
        var vs := DecodePacked(f, slots[i].values, arraySize, t.value.0);
        if vs.Some? { OneSlotChanges(fields, slots, i, Slot(vs.value)); }
      }
      if v.Some? && |slots[i].values| < arraySize {
        OneSlotChanges(fields, slots, i, Slot(slots[i].values + [v.value.0]));
      }
    case Oneof(_) =>
      if v.Some? { MemberChanges(fields, slots, i, v.value.0); }
    case _ =>
      DecodedValueIsGood(f, Stored(f, slots[i]), b);
      var w := DecodeValue(f, Stored(f, slots[i]), b);
      if w.Some? { OneSlotChanges(fields, slots, i, Slot([w.value.0])); }
  }

  lemma SameLength(fields: seq<Field>, slots: seq<Slot>)
    requires GoodSlots(fields, slots)
    ensures |slots| == |fields|
  {
  }

  lemma {:induction false} LoopIsGood(fields: seq<Field>, slots: seq<Slot>, seen: set<nat>, b: Bytes)
    requires Typed(fields) && |slots| == |fields| && GoodSlots(fields, slots)
    ensures var r := DecodeLoop(fields, slots, seen, b); r.Some? ==> GoodSlots(fields, r.value.0)
    decreases |b|, 4
  {
    hide GoodSlots, Typed, DecodeField, Skip, DecodeTag;
    var t := DecodeTag(b);
    if |b| > 0 && t.TagIs? {
      var i := FindField(fields, t.tag);
      if i == |fields| {
        var s := Skip(t.wire, t.rest);
        if s.Some? { LoopIsGood(fields, slots, seen, s.value); }
      } else {
        DecodedFieldIsGood(fields, i, slots, t.wire, t.rest);
        var d := DecodeField(fields, i, slots, t.wire, t.rest);
        if d.Some? { LoopIsGood(fields, d.value.0, SeenWith(fields, seen, i), d.value.1); }
      }
    }
  }

  lemma {:induction false} DecodedIsGood(fields: seq<Field>, slots: seq<Slot>, b: Bytes)
    requires Typed(fields) && |slots| == |fields| && GoodSlots(fields, slots)
    ensures var r := DecodeMessage(fields, slots, b); r.Some? ==> GoodSlots(fields, r.value)
    decreases |b|, 5
  {
    hide GoodSlots, Typed, DecodeLoop, AllSeen;
    LoopIsGood(fields, slots, {}, b);
  }

  // The main theorem: a message decoded from any bytes fits its descriptor,
  // and can be encoded again.
  lemma DecodedMessageFits(fields: seq<Field>, b: Bytes)
    requires Typed(fields)
    ensures var r := Decode(fields, b);
      r.Some? ==> GoodSlots(fields, r.value) && SlotsOk(fields, r.value) && Encode(fields, r.value).Some?
  {
    hide GoodSlots, Typed, DecodeMessage, Encode;
    DefaultsAreGood(fields);
    DecodedIsGood(fields, Defaults(fields), b);
    var r := Decode(fields, b);
    if r.Some? {
      GoodSlotsFit(fields, r.value);
      MessageEncodes(fields, r.value);
    }
  }
}
