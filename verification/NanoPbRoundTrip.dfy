// Nanopb: exactly what decoding an encoded message gives back, and so exactly
// which messages survive the trip.

module NanoPbRoundTrip {
  import opened Wrappers
  import opened Coding
  import opened NanoPb
  import opened NanoPbDecode

  // -------------------------------------------- what comes back, by rule

  // Tags are usable and tell the fields apart, in every message of the tree;
  // a field encoded by value only when it is not zero is no submessage.
  predicate DescriptorOk(fields: seq<Field>)
    decreases TreeSize(fields), 1
  {
    && (forall i :: 0 <= i < |fields| ==> (FieldIsSmaller(fields, i); FieldOk(fields[i])))
    && (forall i, j :: 0 <= i < j < |fields| ==> fields[i].tag != fields[j].tag)
  }

  predicate FieldOk(f: Field)
    decreases FieldSize(f), 0
  {
    && 0 < f.tag <= MAX_TAG
    && (f.rule.Implicit? ==> !f.kind.Submessage?)
    && (f.kind.Submessage? ==> DescriptorOk(f.kind.fields))
  }

  function Snoc<T>(front: Option<seq<T>>, last: Option<T>): Option<seq<T>> {
    if front == None || last == None then None else Some(front.value + [last.value])
  }

  // None if the decoder rejects what the encoder wrote.
  function RestoredValue(f: Field, v: Value): Option<Value>
    requires ValueOk(f, v)
    decreases FieldSize(f), 0
  {
    match f.kind
    case Text => if |v.d| < f.size then Some(v) else None
    case Submessage(fields) =>
      var r := Restored(fields, v.slots);
      if r == None then None else Some(Message(r.value))
    case _ => Some(v)
  }

  function RestoredValues(f: Field, values: seq<Value>): (r: Option<seq<Value>>)
    requires forall i :: 0 <= i < |values| ==> ValueOk(f, values[i])
    ensures r.Some? ==> |r.value| == |values|
    decreases FieldSize(f), 1, |values|
  {
    if |values| == 0 then Some([])
    else
      Snoc(RestoredValues(f, values[..|values| - 1]), RestoredValue(f, values[|values| - 1]))
  }

  // An implicit zero is not written, so the default comes back.
  function RestoredSlot(f: Field, s: Slot): Option<Slot>
    requires SlotOk(f, s)
    decreases FieldSize(f), 2
  {
    if f.rule.Implicit? && IsZero(f, s.values[0]) then Some(DefaultSlot(f))
    else
      var r := RestoredValues(f, s.values);
      if r == None then None else Some(Slot(r.value))
  }

  function RestoredUpTo(fields: seq<Field>, slots: seq<Slot>, i: nat): (r: Option<seq<Slot>>)
    requires SlotsOk(fields, slots) && i <= |fields|
    ensures r.Some? ==> |r.value| == i
    decreases TreeSize(fields), 3, i
  {
    if i == 0 then Some([])
    else
      FieldIsSmaller(fields, i - 1);
      Snoc(RestoredUpTo(fields, slots, i - 1), RestoredSlot(fields[i - 1], slots[i - 1]))
  }

  function Restored(fields: seq<Field>, slots: seq<Slot>): (r: Option<seq<Slot>>)
    requires SlotsOk(fields, slots)
    ensures r.Some? ==> |r.value| == |fields|
    decreases TreeSize(fields), 4
  {
    var r := RestoredUpTo(fields, slots, |fields|);
    if r == None || !CountOk(fields) then None else r
  }

  // -------------------------------------------------------- small pieces

  lemma PowersOf256()
    ensures Pow256(1) == 256 && Pow256(2) == 65536 && Pow256(4) == TWO_TO_32 && Pow256(8) == TWO_TO_64
  {
    assert Pow256(2) == 256 * Pow256(1) && Pow256(3) == 256 * Pow256(2) && Pow256(4) == 256 * Pow256(3);
    assert Pow256(5) == 256 * Pow256(4) && Pow256(6) == 256 * Pow256(5) && Pow256(7) == 256 * Pow256(6);
    assert Pow256(8) == 256 * Pow256(7);
  }

  lemma SignedComesBack(v: int, f: Field)
    requires IntegerSize(f.size) && SignedFits(v, f.size)
    ensures ToVarInt(f, Unsigned(v)) == Some(Int(v))
  {
    PowersOf256();
    hide Pow256;
    var u := Unsigned(v);
    if f.size == 8 {
      assert AsSigned(u, 8) == v;
    } else {
      Narrower(v);
      assert AsSigned(u, 4) == v && AsSigned(v, f.size) == v;
    }
  }

  // The low 32 bits of the 64.
  lemma Narrower(v: int)
    ensures Unsigned(v) % TWO_TO_32 == v % TWO_TO_32
  {
    var q := v / TWO_TO_64;
    assert v == TWO_TO_64 * q + Unsigned(v);
    assert TWO_TO_64 * q == TWO_TO_32 * (TWO_TO_32 * q);
    SameRemainder(Unsigned(v), TWO_TO_32 * q);
  }

  lemma SameRemainder(u: nat, q: int)
    ensures (TWO_TO_32 * q + u) % TWO_TO_32 == u % TWO_TO_32
  {
  }

  lemma ZigZagComesBack(v: int, f: Field)
    requires IntegerSize(f.size) && SignedFits(v, f.size)
    ensures ZigZag(v) < TWO_TO_64 && ToSVarInt(f, ZigZag(v)) == Some(Int(v))
  {
    PowersOf256();
    hide Pow256;
    assert -TWO_TO_64 <= 2 * v < TWO_TO_64;
    assert UnZigZag(ZigZag(v)) == v;
  }

  lemma UnsignedComesBack(v: nat, f: Field)
    requires IntegerSize(f.size) && v < Pow256(f.size)
    ensures v < TWO_TO_64 && ToUVarInt(f, v) == Some(Int(v))
  {
    PowersOf256();
  }

  lemma {:induction false} NoNulInside(d: Bytes)
    requires forall i :: 0 <= i < |d| ==> d[i] != 0
    ensures UpToNul(d) == d
  {
    if |d| > 0 { NoNulInside(d[1..]); }
  }

  lemma TagComesBack(w: WireType, tag: nat, rest: Bytes)
    requires 0 < tag <= MAX_TAG
    ensures DecodeTag(Tag(w, tag) + rest) == TagIs(WireNumber(w), tag, rest)
  {
    TakesVarint32(tag * 8 + WireNumber(w), rest);
  }

  // ------------------------------------------------------------ one value

  lemma NumberDecodes(f: Field, v: Value, old_: Value, rest: Bytes)
    requires ValueOk(f, v) && Packable(f.kind)
    ensures EncodeValue(f, v).Some? && |EncodeValue(f, v).value| > 0
    ensures DecodeValue(f, old_, EncodeValue(f, v).value + rest) == Some((v, rest))
  {
    hide AsSigned, UnZigZag, ToVarInt, ToUVarInt, ToSVarInt, ZigZag, Unsigned;
    match f.kind
    case VarInt =>
      SignedComesBack(v.v, f);
      UnsignedIsSmall(v.v);
      TakesVarint64(Unsigned(v.v), rest);
    case UVarInt =>
      UnsignedComesBack(v.v, f);
      TakesVarint64(v.v, rest);
    case SVarInt =>
      ZigZagComesBack(v.v, f);
      TakesVarint64(ZigZag(v.v), rest);
    case Fixed32 =>
      Fixed32RoundTrip(v.w);
      TakesBytes(EncodeFixed32(v.w), rest);
    case Fixed64 =>
      Fixed64RoundTrip(v.w);
      TakesBytes(EncodeFixed64(v.w), rest);
  }

  lemma UnsignedIsSmall(v: int)
    ensures Unsigned(v) < TWO_TO_64
  {
  }

  lemma DataDecodes(f: Field, v: Value, old_: Value, rest: Bytes)
    requires ValueOk(f, v) && !Packable(f.kind) && !f.kind.Submessage? && EncodeValue(f, v).Some?
    ensures DecodeValue(f, old_, EncodeValue(f, v).value + rest)
      == if RestoredValue(f, v) == None then None else Some((v, rest))
  {
    TakesDelimited(v.d, rest);
    if f.kind.Text? { NoNulInside(v.d); }
  }

  lemma {:induction false} ValueDecodes(f: Field, v: Value, old_: Value, rest: Bytes)
    requires FieldOk(f) && ValueOk(f, v) && EncodeValue(f, v).Some? && |EncodeValue(f, v).value| < TWO_TO_32
    requires f.kind.Submessage? ==> SlotsOf(f.kind.fields, old_) == Defaults(f.kind.fields)
    ensures var r := RestoredValue(f, v);
      DecodeValue(f, old_, EncodeValue(f, v).value + rest) == if r == None then None else Some((r.value, rest))
    decreases FieldSize(f), 0
  {
    if f.kind.Submessage? {
      var e := EncodeFrom(f.kind.fields, v.slots, 0).value;
      MessageDecodes(f.kind.fields, v.slots);
      TakesDelimited(e, rest);
    } else if Packable(f.kind) {
      NumberDecodes(f, v, old_, rest);
    } else {
      DataDecodes(f, v, old_, rest);
    }
  }

  // One turn of the decoding loop on a field's tag.
  lemma LoopStep(fields: seq<Field>, cur: seq<Slot>, seen: set<nat>, i: nat, w: WireType, tail: Bytes)
    requires DescriptorOk(fields) && |cur| == |fields| && i < |fields|
    ensures var d := DecodeField(fields, i, cur, WireNumber(w), tail);
      DecodeLoop(fields, cur, seen, Tag(w, fields[i].tag) + tail)
      == if d == None then None else DecodeLoop(fields, d.value.0, SeenWith(fields, seen, i), d.value.1)
  {
    FieldIsSmaller(fields, i);
    TagComesBack(w, fields[i].tag, tail);
    assert FindField(fields, fields[i].tag) == i;
    assert |Tag(w, fields[i].tag) + tail| > 0;
  }

  // A tagged value that the field takes over.
  lemma {:induction false} TaggedDecodes(fields: seq<Field>, cur: seq<Slot>, seen: set<nat>, i: nat, v: Value, rest: Bytes)
    requires DescriptorOk(fields) && |cur| == |fields| && i < |fields| && !fields[i].rule.Repeated?
    requires ValueOk(fields[i], v) && TaggedValue(fields[i], v).Some? && |TaggedValue(fields[i], v).value| < TWO_TO_32
    requires cur[i] == DefaultSlot(fields[i])
    requires fields[i].rule.Oneof? ==> forall j :: 0 <= j < |fields| && fields[j].rule == fields[i].rule ==> cur[j] == Slot([])
    ensures var r := RestoredValue(fields[i], v);
      DecodeLoop(fields, cur, seen, TaggedValue(fields[i], v).value + rest)
      == if r == None then None else DecodeLoop(fields, cur[i := Slot([r.value])], SeenWith(fields, seen, i), rest)
    decreases TreeSize(fields), 0
  {
    hide DecodeLoop, Tag;
    var f := fields[i];
    FieldIsSmaller(fields, i);
    var e := EncodeValue(f, v).value;
    var r := RestoredValue(f, v);
    assert TaggedValue(f, v).value + rest == Tag(WireTypeOf(f.kind), f.tag) + (e + rest);
    LoopStep(fields, cur, seen, i, WireTypeOf(f.kind), e + rest);
    StoredIsDefault(f);
    ValueDecodes(f, v, Default(f), rest);
    if f.rule.Oneof? && r.Some? {
      assert SetMember(fields, cur, i, r.value) == cur[i := Slot([r.value])];
    }
  }

  lemma StoredIsDefault(f: Field)
    ensures Stored(f, DefaultSlot(f)) == Default(f)
    ensures f.kind.Submessage? ==> SlotsOf(f.kind.fields, Default(f)) == Defaults(f.kind.fields)
  {
  }

  // ------------------------------------------------------------ repeated

  lemma {:induction false} PackedDecodes(f: Field, values: seq<Value>, j: nat, arraySize: nat)
    requires j <= |values| <= arraySize && Packable(f.kind) && forall i :: 0 <= i < |values| ==> ValueOk(f, values[i])
    ensures EncodeItems(f, values, j, false).Some?
    ensures DecodePacked(f, values[..j], arraySize, EncodeItems(f, values, j, false).value) == Some(values)
    decreases |values| - j
  {
    if j == |values| {
      assert values[..j] == values;
    } else {
      PackedDecodes(f, values, j + 1, arraySize);
      NumberDecodes(f, values[j], Default(f), EncodeItems(f, values, j + 1, false).value);
      assert values[..j] + [values[j]] == values[..j + 1];
    }
  }

  lemma NumberStays(f: Field, v: Value)
    requires Packable(f.kind) && ValueOk(f, v)
    ensures RestoredValue(f, v) == Some(v)
  {
  }

  lemma {:induction false} NumbersStay(f: Field, values: seq<Value>)
    requires Packable(f.kind) && forall i :: 0 <= i < |values| ==> ValueOk(f, values[i])
    ensures RestoredValues(f, values) == Some(values)
  {
    hide RestoredValue;
    if |values| > 0 {
      NumberStays(f, values[|values| - 1]);
      NumbersStay(f, values[..|values| - 1]);
      assert values[..|values| - 1] + [values[|values| - 1]] == values;
    }
  }

  lemma {:induction false} RestoredPrefix(f: Field, values: seq<Value>, j: nat)
    requires j <= |values| && forall i :: 0 <= i < |values| ==> ValueOk(f, values[i])
    ensures RestoredValues(f, values).Some? ==> RestoredValues(f, values[..j]).Some?
    ensures j < |values| ==> RestoredValues(f, values[..j + 1]) == Snoc(RestoredValues(f, values[..j]), RestoredValue(f, values[j]))
  {
    if j < |values| { assert values[..j + 1][..j] == values[..j]; }
    if j == |values| {
      assert values[..j] == values;
    } else {
      RestoredPrefix(f, values[..|values| - 1], j);
      assert values[..|values| - 1][..j] == values[..j];
    }
  }

  lemma {:induction false} ItemsDecode(fields: seq<Field>, cur: seq<Slot>, seen: set<nat>, i: nat, values: seq<Value>, j: nat,
                                       rest: Bytes)
    requires DescriptorOk(fields) && |cur| == |fields| && i < |fields| && !Packable(fields[i].kind)
    requires fields[i].rule.Repeated? && j <= |values| <= fields[i].rule.arraySize
    requires forall k :: 0 <= k < |values| ==> ValueOk(fields[i], values[k])
    requires EncodeItems(fields[i], values, j, true).Some? && |EncodeItems(fields[i], values, j, true).value| < TWO_TO_32
    requires RestoredValues(fields[i], values[..j]) == Some(cur[i].values)
    ensures var r := RestoredValues(fields[i], values);
      DecodeLoop(fields, cur, seen, EncodeItems(fields[i], values, j, true).value + rest)
      == if r == None then None else DecodeLoop(fields, cur[i := Slot(r.value)], seen, rest)
    decreases TreeSize(fields), 1, |values| - j
  {
    hide DecodeLoop, Tag, RestoredValues, RestoredValue;
    var f := fields[i];
    if j == |values| {
      assert values[..j] == values && cur[i := Slot(cur[i].values)] == cur;
      assert [] + rest == rest;
    } else {
      FieldIsSmaller(fields, i);
      var e, more := EncodeValue(f, values[j]).value, EncodeItems(f, values, j + 1, true).value;
      assert EncodeItems(f, values, j, true).value + rest == Tag(WireTypeOf(f.kind), f.tag) + (e + (more + rest));
      LoopStep(fields, cur, seen, i, WireTypeOf(f.kind), e + (more + rest));
      StoredIsDefault(f);
      ValueDecodes(f, values[j], Default(f), more + rest);
      RestoredPrefix(f, values, j);
      var r := RestoredValue(f, values[j]);
      if r == None {
        RestoredPrefix(f, values, j + 1);
      } else {
        var next := cur[i := Slot(cur[i].values + [r.value])];
        ItemsDecode(fields, next, seen, i, values, j + 1, rest);
        var all := RestoredValues(f, values);
        if all.Some? { assert next[i := Slot(all.value)] == cur[i := Slot(all.value)]; }
      }
    }
  }

  // ---------------------------------------------------- fields in order

  function SeenUpTo(fields: seq<Field>, i: nat): set<nat>
    requires i <= |fields|
  {
    if i == 0 then {} else SeenWith(fields, SeenUpTo(fields, i - 1), i - 1)
  }

  lemma {:induction false} SeenUpToHas(fields: seq<Field>, i: nat)
    requires i <= |fields|
    ensures forall k :: 0 <= k < RequiredBefore(fields, i) && k < MAX_REQUIRED_FIELDS ==> k in SeenUpTo(fields, i)
  {
    if i > 0 { SeenUpToHas(fields, i - 1); }
  }

  lemma SeenNext(fields: seq<Field>, i: nat)
    requires i < |fields|
    ensures SeenWith(fields, SeenUpTo(fields, i), i) == SeenUpTo(fields, i + 1)
    ensures !fields[i].rule.Required? ==> SeenWith(fields, SeenUpTo(fields, i), i) == SeenUpTo(fields, i)
  {
  }

  lemma OneRestored(f: Field, v: Value)
    requires ValueOk(f, v)
    ensures RestoredValues(f, [v]) == (var r := RestoredValue(f, v); if r == None then None else Some([r.value]))
  {
    assert [v][..0] == [] && [v][0] == v;
    NoneRestored(f);
    var r := RestoredValue(f, v);
    if r.Some? { assert [] + [r.value] == [r.value]; }
  }

  lemma NoneRestored(f: Field)
    ensures RestoredValues(f, []) == Some([])
  {
  }

  // While the fields are decoded in order, field i still has its default.
  ghost predicate Reached(fields: seq<Field>, slots: seq<Slot>, i: nat, cur: seq<Slot>)
    requires SlotsOk(fields, slots) && i <= |fields|
  {
    var r := RestoredUpTo(fields, slots, i);
    r.Some? && cur == r.value + Defaults(fields)[i..]
  }

  lemma {:induction false} EmptyStaysEmpty(fields: seq<Field>, slots: seq<Slot>, i: nat, j: nat)
    requires SlotsOk(fields, slots) && j < i <= |fields| && RestoredUpTo(fields, slots, i).Some?
    requires fields[j].rule.Oneof? && slots[j].values == []
    ensures RestoredUpTo(fields, slots, i).value[j] == Slot([])
  {
    FieldIsSmaller(fields, i - 1);
    if j == i - 1 {
      assert RestoredValues(fields[j], slots[j].values) == Some([]);
    } else {
      EmptyStaysEmpty(fields, slots, i - 1, j);
    }
  }

  lemma MembersDefault(fields: seq<Field>)
    ensures forall j :: 0 <= j < |fields| && fields[j].rule.Oneof? ==> Defaults(fields)[j] == Slot([])
  {
  }

  // When a member of a union is decoded the others are empty.
  lemma OthersEmpty(fields: seq<Field>, slots: seq<Slot>, i: nat, cur: seq<Slot>)
    requires SlotsOk(fields, slots) && i < |fields| && Reached(fields, slots, i, cur)
    requires fields[i].rule.Oneof? && |slots[i].values| == 1 && cur[i] == Slot([])
    ensures forall j :: 0 <= j < |fields| && fields[j].rule == fields[i].rule ==> cur[j] == Slot([])
  {
    hide RestoredUpTo, Defaults, SlotOk, ValueOk;
    MembersDefault(fields);
    forall j | 0 <= j < |fields| && fields[j].rule == fields[i].rule ensures cur[j] == Slot([]) {
      if j < i {
        EmptyStaysEmpty(fields, slots, i, j);
      } else {
        assert cur[j] == Defaults(fields)[j];
      }
    }
  }

  // Decoding what was written for field i restores it, or fails.
  lemma {:induction false} SlotDecodes(fields: seq<Field>, slots: seq<Slot>, i: nat, cur: seq<Slot>, rest: Bytes)
    requires DescriptorOk(fields) && SlotsOk(fields, slots) && i < |fields| && Reached(fields, slots, i, cur)
    requires EncodeSlotAt(fields, slots, i).Some? && |EncodeSlotAt(fields, slots, i).value| < TWO_TO_32
    ensures var r := RestoredSlotAt(fields, slots, i);
      DecodeLoop(fields, cur, SeenUpTo(fields, i), EncodeSlotAt(fields, slots, i).value + rest)
      == if r == None then None else DecodeLoop(fields, cur[i := r.value], SeenUpTo(fields, i + 1), rest)
    decreases TreeSize(fields), 2
  {
    hide DecodeLoop, Tag, RestoredValue, RestoredValues;
    FieldIsSmaller(fields, i);
    SeenNext(fields, i);
    var f, s := fields[i], slots[i];
    assert cur[i] == DefaultSlot(f);
    if f.rule.Repeated? {
      ArrayDecodes(fields, slots, i, cur, rest);
    } else if |s.values| == 0 || (f.rule.Implicit? && IsZero(f, s.values[0])) {
      assert [] + rest == rest && cur[i := cur[i]] == cur;
      NoneRestored(f);
    } else {
      if f.rule.Oneof? { OthersEmpty(fields, slots, i, cur); }
      assert s.values == [s.values[0]];
      OneRestored(f, s.values[0]);
      TaggedDecodes(fields, cur, SeenUpTo(fields, i), i, s.values[0], rest);
    }
  }

  function EncodeSlotAt(fields: seq<Field>, slots: seq<Slot>, i: nat): Option<Bytes>
    requires SlotsOk(fields, slots) && i < |fields|
  {
    FieldIsSmaller(fields, i);
    EncodeSlot(fields[i], slots[i])
  }

  function RestoredSlotAt(fields: seq<Field>, slots: seq<Slot>, i: nat): Option<Slot>
    requires SlotsOk(fields, slots) && i < |fields|
  {
    FieldIsSmaller(fields, i);
    RestoredSlot(fields[i], slots[i])
  }

  lemma {:induction false} ArrayDecodes(fields: seq<Field>, slots: seq<Slot>, i: nat, cur: seq<Slot>, rest: Bytes)
    requires DescriptorOk(fields) && SlotsOk(fields, slots) && i < |fields| && Reached(fields, slots, i, cur)
    requires fields[i].rule.Repeated? && cur[i] == Slot([])
    requires EncodeSlotAt(fields, slots, i).Some? && |EncodeSlotAt(fields, slots, i).value| < TWO_TO_32
    ensures var r := RestoredSlotAt(fields, slots, i);
      DecodeLoop(fields, cur, SeenUpTo(fields, i), EncodeSlotAt(fields, slots, i).value + rest)
      == if r == None then None else DecodeLoop(fields, cur[i := r.value], SeenUpTo(fields, i), rest)
    decreases TreeSize(fields), 1
  {
    hide DecodeLoop, Tag, RestoredValue, RestoredValues;
    FieldIsSmaller(fields, i);
    var f, values := fields[i], slots[i].values;
    NoneRestored(f);
    assert EncodeSlotAt(fields, slots, i) == EncodeArray(f, values, f.rule.arraySize);
    if |values| == 0 {
      assert values == [] && [] + rest == rest && cur[i := cur[i]] == cur;
    } else if Packable(f.kind) {
      var e := EncodeItems(f, values, 0, false).value;
      assert EncodeSlot(f, slots[i]).value + rest == Tag(StringType, f.tag) + (Delimited(e) + rest);
      LoopStep(fields, cur, SeenUpTo(fields, i), i, StringType, Delimited(e) + rest);
      PackedDecodes(f, values, 0, f.rule.arraySize);
      assert values[..0] == [];
      TakesDelimited(e, rest);
      NumbersStay(f, values);
    } else {
      assert values[..0] == [];
      ItemsDecode(fields, cur, SeenUpTo(fields, i), i, values, 0, rest);
    }
  }

  lemma {:induction false} NoneStays(fields: seq<Field>, slots: seq<Slot>, i: nat, n: nat)
    requires SlotsOk(fields, slots) && i <= n <= |fields| && RestoredUpTo(fields, slots, i) == None
    ensures RestoredUpTo(fields, slots, n) == None
  {
    if i < n { NoneStays(fields, slots, i, n - 1); }
  }

  lemma ReachedNext(fields: seq<Field>, slots: seq<Slot>, i: nat, cur: seq<Slot>)
    requires SlotsOk(fields, slots) && i < |fields| && Reached(fields, slots, i, cur)
    ensures RestoredSlotAt(fields, slots, i).Some? ==>
      Reached(fields, slots, i + 1, cur[i := RestoredSlotAt(fields, slots, i).value])
    ensures RestoredSlotAt(fields, slots, i) == None ==> RestoredUpTo(fields, slots, i + 1) == None
  {
    FieldIsSmaller(fields, i);
  }

  lemma {:induction false} FieldsDecode(fields: seq<Field>, slots: seq<Slot>, i: nat, cur: seq<Slot>)
    requires DescriptorOk(fields) && SlotsOk(fields, slots) && i <= |fields| && Reached(fields, slots, i, cur)
    requires EncodeFrom(fields, slots, i).Some? && |EncodeFrom(fields, slots, i).value| < TWO_TO_32
    ensures var r := RestoredUpTo(fields, slots, |fields|);
      DecodeLoop(fields, cur, SeenUpTo(fields, i), EncodeFrom(fields, slots, i).value)
      == if r == None then None else Some((r.value, SeenUpTo(fields, |fields|)))
    decreases TreeSize(fields), 3, |fields| - i
  {
    hide DecodeLoop, RestoredSlot, SeenUpTo;
    if i == |fields| {
      NothingLeft(fields, cur, SeenUpTo(fields, i));
      assert Defaults(fields)[i..] == [] && cur == RestoredUpTo(fields, slots, i).value;
      assert EncodeFrom(fields, slots, i) == Some([]);
    } else {
      SlotDecodes(fields, slots, i, cur, EncodeFrom(fields, slots, i + 1).value);
      ReachedNext(fields, slots, i, cur);
      var r := RestoredSlotAt(fields, slots, i);
      if r == None {
        NoneStays(fields, slots, i + 1, |fields|);
      } else {
        FieldsDecode(fields, slots, i + 1, cur[i := r.value]);
      }
    }
  }

  lemma NothingLeft(fields: seq<Field>, cur: seq<Slot>, seen: set<nat>)
    requires |cur| == |fields|
    ensures DecodeLoop(fields, cur, seen, []) == Some((cur, seen))
  {
  }

  // What a message becomes when its bytes are decoded, for every message.
  lemma {:induction false} MessageDecodes(fields: seq<Field>, slots: seq<Slot>)
    requires DescriptorOk(fields) && SlotsOk(fields, slots)
    requires Encode(fields, slots).Some? && |Encode(fields, slots).value| < TWO_TO_32
    ensures Decode(fields, Encode(fields, slots).value) == Restored(fields, slots)
    decreases TreeSize(fields), 4
  {
    hide DecodeLoop;
    assert Defaults(fields)[0..] == Defaults(fields) && SeenUpTo(fields, 0) == {};
    FieldsDecode(fields, slots, 0, Defaults(fields));
    SeenUpToHas(fields, |fields|);
  }

  // --------------------------------------------- what survives the trip

  // Strings are terminated inside their buffers, zeros that are not written
  // are the defaults, and the required fields can be checked.
  predicate Faithful(fields: seq<Field>, slots: seq<Slot>)
    requires SlotsOk(fields, slots)
    decreases TreeSize(fields), 2
  {
    CountOk(fields) && forall i :: 0 <= i < |fields| ==> (FieldIsSmaller(fields, i); FaithfulSlot(fields[i], slots[i]))
  }

  predicate FaithfulSlot(f: Field, s: Slot)
    requires SlotOk(f, s)
    decreases FieldSize(f), 1
  {
    if f.rule.Implicit? && IsZero(f, s.values[0]) then s.values[0] == Default(f)
    else forall i :: 0 <= i < |s.values| ==> FaithfulValue(f, s.values[i])
  }

  predicate FaithfulValue(f: Field, v: Value)
    requires ValueOk(f, v)
    decreases FieldSize(f), 0
  {
    (f.kind.Text? ==> |v.d| < f.size) && (f.kind.Submessage? ==> Faithful(f.kind.fields, v.slots))
  }

  lemma {:induction false} SameValue(f: Field, v: Value)
    requires ValueOk(f, v)
    ensures RestoredValue(f, v) == Some(v) <==> FaithfulValue(f, v)
    decreases FieldSize(f), 0
  {
    if f.kind.Submessage? { SameMessage(f.kind.fields, v.slots); }
  }

  lemma {:induction false} SameValues(f: Field, values: seq<Value>)
    requires forall i :: 0 <= i < |values| ==> ValueOk(f, values[i])
    ensures RestoredValues(f, values) == Some(values) <==> forall i :: 0 <= i < |values| ==> FaithfulValue(f, values[i])
    decreases FieldSize(f), 1, |values|
  {
    if |values| > 0 {
      var front, last := values[..|values| - 1], values[|values| - 1];
      SameValues(f, front);
      SameValue(f, last);
      SameSnoc(RestoredValues(f, front), RestoredValue(f, last), front, last);
      assert front + [last] == values;
    }
  }

  lemma SameSnoc<T>(a: Option<seq<T>>, b: Option<T>, front: seq<T>, last: T)
    requires a.Some? ==> |a.value| == |front|
    ensures Snoc(a, b) == Some(front + [last]) <==> a == Some(front) && b == Some(last)
  {
    if a.Some? && b.Some? && a.value + [b.value] == front + [last] {
      assert (a.value + [b.value])[..|front|] == (front + [last])[..|front|];
      assert (a.value + [b.value])[|front|] == (front + [last])[|front|];
    }
  }

  lemma {:induction false} SameSlot(f: Field, s: Slot)
    requires SlotOk(f, s)
    ensures RestoredSlot(f, s) == Some(s) <==> FaithfulSlot(f, s)
    decreases FieldSize(f), 2
  {
    SameValues(f, s.values);
    var r := RestoredSlot(f, s);
    if f.rule.Implicit? && IsZero(f, s.values[0]) {
      assert r == Some(Slot([Default(f)])) && s.values == [s.values[0]];
      assert Slot([Default(f)]).values[0] == Default(f);
    }
  }

  lemma {:induction false} SameSlots(fields: seq<Field>, slots: seq<Slot>, i: nat)
    requires SlotsOk(fields, slots) && i <= |fields|
    ensures RestoredUpTo(fields, slots, i) == Some(slots[..i])
      <==> forall j :: 0 <= j < i ==> (FieldIsSmaller(fields, j); FaithfulSlot(fields[j], slots[j]))
    decreases TreeSize(fields), 3, i
  {
    hide RestoredSlot, FaithfulSlot, SlotOk;
    if i > 0 {
      FieldIsSmaller(fields, i - 1);
      SameSlots(fields, slots, i - 1);
      SameSlot(fields[i - 1], slots[i - 1]);
      SameSnoc(RestoredUpTo(fields, slots, i - 1), RestoredSlot(fields[i - 1], slots[i - 1]), slots[..i - 1], slots[i - 1]);
      assert slots[..i - 1] + [slots[i - 1]] == slots[..i];
    }
  }

  lemma {:induction false} SameMessage(fields: seq<Field>, slots: seq<Slot>)
    requires SlotsOk(fields, slots)
    ensures Restored(fields, slots) == Some(slots) <==> Faithful(fields, slots)
    decreases TreeSize(fields), 4
  {
    hide RestoredUpTo, FaithfulSlot, SlotOk;
    SameSlots(fields, slots, |fields|);
    assert slots[..|fields|] == slots;
  }

  // The main theorem: a message that was encoded comes back from its bytes if
  // and only if it is faithful.
  lemma RoundTrip(fields: seq<Field>, slots: seq<Slot>)
    requires DescriptorOk(fields) && SlotsOk(fields, slots)
    requires Encode(fields, slots).Some? && |Encode(fields, slots).value| < TWO_TO_32
    ensures Decode(fields, Encode(fields, slots).value) == Some(slots) <==> Faithful(fields, slots)
  {
    hide Decode, Encode;
    MessageDecodes(fields, slots);
    SameMessage(fields, slots);
  }
}
