// Nanopb: a message is a tree of values laid out by a tree of field
// descriptors. This file says which bytes the encoder writes for a message.

module NanoPb {
  import opened Wrappers
  import opened Coding

  // ------------------------------------------------------- descriptors

  datatype Kind =
    | VarInt | UVarInt | SVarInt | Fixed32 | Fixed64   // packable
    | BytesArray | Text | FixedBytes
    | Submessage(fields: seq<Field>)

  // Optional with a has_ flag, or by value (proto3). Members of one union
  // share its which_ variable.
  datatype Rule = Required | Optional | Implicit | Repeated(arraySize: nat) | Oneof(union: nat)

  // The preset is the default value; without one a field starts as zero.
  datatype Field = Field(tag: nat, rule: Rule, kind: Kind, size: nat, preset: Option<Value>)

  // ------------------------------------------------------------- values

  datatype Value = Int(v: int) | Word(w: nat) | Data(d: Bytes) | Message(slots: seq<Slot>)

  // What one field holds: one value if required or implicit, none or one if
  // optional or in a union, any number up to the array size if repeated.
  datatype Slot = Slot(values: seq<Value>)

  const BYTES_OFFSET := 1 // of the bytes in pb_bytes_array_t, after their count
  const MAX_REQUIRED_FIELDS := 64
  const MAX_TAG := 0x1FFF_FFFF

  function Pow256(n: nat): (r: nat)
    ensures r > 0
  {
    if n == 0 then 1 else 256 * Pow256(n - 1)
  }

  predicate IntegerSize(size: nat) { size == 1 || size == 2 || size == 4 || size == 8 }

  predicate Packable(k: Kind) { k.VarInt? || k.UVarInt? || k.SVarInt? || k.Fixed32? || k.Fixed64? }

  // The sizes of descriptor trees, for recursion.
  function FieldSize(f: Field): nat {
    if f.kind.Submessage? then 1 + TreeSize(f.kind.fields) else 1
  }

  function TreeSize(fields: seq<Field>): nat {
    if |fields| == 0 then 1 else FieldSize(fields[0]) + TreeSize(fields[1..])
  }

  lemma {:induction false} FieldIsSmaller(fields: seq<Field>, i: nat)
    requires i < |fields|
    ensures FieldSize(fields[i]) < TreeSize(fields)
  {
    if i > 0 {
      FieldIsSmaller(fields[1..], i - 1);
      assert fields[1..][i - 1] == fields[i];
    }
    assert TreeSize(fields[1..]) > 0 by { TreeIsPositive(fields[1..]); }
  }

  lemma {:induction false} TreeIsPositive(fields: seq<Field>)
    ensures TreeSize(fields) > 0
  {
    if |fields| > 0 { TreeIsPositive(fields[1..]); }
  }

  predicate SignedFits(v: int, size: nat) {
    -2 * v <= Pow256(size) && 2 * v < Pow256(size)
  }

  // A value that fits the field's C type. (A byte count may exceed its buffer.)
  predicate ValueOk(f: Field, v: Value)
    decreases FieldSize(f), 0
  {
    match f.kind
    case VarInt => v.Int? && IntegerSize(f.size) && SignedFits(v.v, f.size)
    case UVarInt => v.Int? && IntegerSize(f.size) && 0 <= v.v < Pow256(f.size)
    case SVarInt => v.Int? && IntegerSize(f.size) && SignedFits(v.v, f.size)
    case Fixed32 => v.Word? && v.w < TWO_TO_32
    case Fixed64 => v.Word? && v.w < TWO_TO_64
    case BytesArray => v.Data? && |v.d| < TWO_TO_32
    case Text => v.Data? && |v.d| <= f.size && |v.d| < TWO_TO_32 && forall i :: 0 <= i < |v.d| ==> v.d[i] != 0
    case FixedBytes => v.Data? && |v.d| == f.size && |v.d| < TWO_TO_32
    case Submessage(fields) => v.Message? && SlotsOk(fields, v.slots)
  }

  predicate SlotOk(f: Field, s: Slot)
    decreases FieldSize(f), 1
  {
    && (f.rule.Required? || f.rule.Implicit? ==> |s.values| == 1)
    && (f.rule.Optional? || f.rule.Oneof? ==> |s.values| <= 1)
    && forall i :: 0 <= i < |s.values| ==> ValueOk(f, s.values[i])
  }

  predicate SlotsOk(fields: seq<Field>, slots: seq<Slot>)
    decreases TreeSize(fields), 2
  {
    && |slots| == |fields|
    && (forall i :: 0 <= i < |fields| ==> (FieldIsSmaller(fields, i); SlotOk(fields[i], slots[i])))
    && UnionsOk(fields, slots)
  }

  // At most one member of a union is set.
  predicate UnionsOk(fields: seq<Field>, slots: seq<Slot>)
    requires |slots| == |fields|
  {
    forall i, j :: 0 <= i < j < |fields| && fields[i].rule.Oneof? && fields[i].rule == fields[j].rule ==>
      slots[i].values == [] || slots[j].values == []
  }

  // ---------------------------------------------------------- the encoder

  datatype WireType = VarintType | Type64 | StringType | Type32

  function WireNumber(w: WireType): nat {
    match w
    case VarintType => 0
    case Type64 => 1
    case StringType => 2
    case Type32 => 5
  }

  function WireTypeOf(k: Kind): WireType {
    match k
    case VarInt => VarintType
    case UVarInt => VarintType
    case SVarInt => VarintType
    case Fixed32 => Type32
    case Fixed64 => Type64
    case _ => StringType
  }

  function Tag(w: WireType, tag: nat): Bytes {
    Varint(tag * 8 + WireNumber(w))
  }

  // As uint64_t.
  function Unsigned(v: int): nat {
    v % TWO_TO_64
  }

  // pb_encode_svarint: ~(v << 1) for negative v, v << 1 otherwise.
  function ZigZag(v: int): nat {
    if v < 0 then TWO_TO_64 - 1 - (2 * v) % TWO_TO_64 else (2 * v) % TWO_TO_64
  }

  function Join(a: Option<Bytes>, b: Option<Bytes>): Option<Bytes> {
    if a.Some? && b.Some? then Some(a.value + b.value) else None
  }

  // pb_check_proto3_default_value, which no submessage asks for here.
  predicate IsZero(f: Field, v: Value) {
    match v
    case Int(n) => n == 0
    case Word(w) => w == 0
    case Data(d) => if f.kind.FixedBytes? then f.size == 0 else |d| == 0
    case Message(_) => false
  }

  // What the encoder of the field's kind writes for one value.
  function EncodeValue(f: Field, v: Value): Option<Bytes>
    requires ValueOk(f, v)
    decreases FieldSize(f), 0
  {
    match f.kind
    case VarInt => Some(Varint(Unsigned(v.v)))
    case UVarInt => Some(Varint(v.v))
    case SVarInt => Some(Varint(ZigZag(v.v)))
    case Fixed32 => Some(EncodeFixed32(v.w))
    case Fixed64 => Some(EncodeFixed64(v.w))
    case BytesArray => if |v.d| + BYTES_OFFSET > f.size then None else Some(Delimited(v.d))
    case Text => Some(Delimited(v.d))
    case FixedBytes => Some(Delimited(v.d))
    case Submessage(fields) =>
      var e := EncodeFrom(fields, v.slots, 0);
      if e == None then None else Some(Delimited(e.value))
  }

  function TaggedValue(f: Field, v: Value): Option<Bytes>
    requires ValueOk(f, v)
    decreases FieldSize(f), 1
  {
    Join(Some(Tag(WireTypeOf(f.kind), f.tag)), EncodeValue(f, v))
  }

  // Values from position j on, one after the other.
  function EncodeItems(f: Field, values: seq<Value>, j: nat, tagged: bool): Option<Bytes>
    requires j <= |values| && forall i :: 0 <= i < |values| ==> ValueOk(f, values[i])
    decreases FieldSize(f), 2, |values| - j
  {
    if j == |values| then Some([])
    else Join(if tagged then TaggedValue(f, values[j]) else EncodeValue(f, values[j]), EncodeItems(f, values, j + 1, tagged))
  }

  // encode_array: numbers packed behind one tag, everything else tagged singly.
  function EncodeArray(f: Field, values: seq<Value>, arraySize: nat): Option<Bytes>
    requires forall i :: 0 <= i < |values| ==> ValueOk(f, values[i])
    decreases FieldSize(f), 3
  {
    if |values| == 0 then Some([])
    else if |values| > arraySize then None
    else if Packable(f.kind) then
      var e := EncodeItems(f, values, 0, false);
      if e == None then None else Some(Tag(StringType, f.tag) + Delimited(e.value))
    else EncodeItems(f, values, 0, true)
  }

  function EncodeSlot(f: Field, s: Slot): Option<Bytes>
    requires SlotOk(f, s)
    decreases FieldSize(f), 4
  {
    match f.rule
    case Required => TaggedValue(f, s.values[0])
    case Optional => if |s.values| == 1 then TaggedValue(f, s.values[0]) else Some([])
    case Implicit => if IsZero(f, s.values[0]) then Some([]) else TaggedValue(f, s.values[0])
    case Repeated(arraySize) => EncodeArray(f, s.values, arraySize)
    case Oneof(_) => if |s.values| == 1 then TaggedValue(f, s.values[0]) else Some([])
  }

  // pb_encode: the fields in descriptor order, from field i on.
  function EncodeFrom(fields: seq<Field>, slots: seq<Slot>, i: nat): Option<Bytes>
    requires SlotsOk(fields, slots) && i <= |fields|
    decreases TreeSize(fields), 3, |fields| - i
  {
    if i == |fields| then Some([])
    else
      FieldIsSmaller(fields, i);
      Join(EncodeSlot(fields[i], slots[i]), EncodeFrom(fields, slots, i + 1))
  }

  function Encode(fields: seq<Field>, slots: seq<Slot>): Option<Bytes>
    requires SlotsOk(fields, slots)
  {
    EncodeFrom(fields, slots, 0)
  }

  // -------------------------------------------- which messages it encodes

  // Byte counts stay within their buffers and array counts within their arrays.
  predicate Fits(fields: seq<Field>, slots: seq<Slot>)
    requires SlotsOk(fields, slots)
    decreases TreeSize(fields), 2
  {
    forall i :: 0 <= i < |fields| ==> (FieldIsSmaller(fields, i); SlotFits(fields[i], slots[i]))
  }

  predicate SlotFits(f: Field, s: Slot)
    requires SlotOk(f, s)
    decreases FieldSize(f), 1
  {
    if f.rule.Implicit? && IsZero(f, s.values[0]) then true
    else
      && (f.rule.Repeated? ==> |s.values| <= f.rule.arraySize)
      && forall i :: 0 <= i < |s.values| ==> ValueFits(f, s.values[i])
  }

  predicate ValueFits(f: Field, v: Value)
    requires ValueOk(f, v)
    decreases FieldSize(f), 0
  {
    && (f.kind.BytesArray? ==> |v.d| + BYTES_OFFSET <= f.size)
    && (f.kind.Submessage? ==> Fits(f.kind.fields, v.slots))
  }

  lemma {:induction false} ValueEncodes(f: Field, v: Value)
    requires ValueOk(f, v)
    ensures EncodeValue(f, v).Some? <==> ValueFits(f, v)
    decreases FieldSize(f), 0
  {
    if f.kind.Submessage? { MessageEncodes(f.kind.fields, v.slots); }
  }

  lemma {:induction false} ItemsEncode(f: Field, values: seq<Value>, j: nat, tagged: bool)
    requires j <= |values| && forall i :: 0 <= i < |values| ==> ValueOk(f, values[i])
    ensures EncodeItems(f, values, j, tagged).Some? <==> forall i :: j <= i < |values| ==> ValueFits(f, values[i])
    decreases FieldSize(f), 1, |values| - j
  {
    if j < |values| {
      ValueEncodes(f, values[j]);
      ItemsEncode(f, values, j + 1, tagged);
    }
  }

  lemma {:induction false} SlotEncodes(f: Field, s: Slot)
    requires SlotOk(f, s)
    ensures EncodeSlot(f, s).Some? <==> SlotFits(f, s)
    decreases FieldSize(f), 2
  {
    if f.rule.Repeated? {
      ItemsEncode(f, s.values, 0, !Packable(f.kind));
    } else if |s.values| == 1 {
      ValueEncodes(f, s.values[0]);
    }
  }

  lemma {:induction false} FieldsEncode(fields: seq<Field>, slots: seq<Slot>, i: nat)
    requires SlotsOk(fields, slots) && i <= |fields|
    ensures EncodeFrom(fields, slots, i).Some?
      <==> forall j :: i <= j < |fields| ==> (FieldIsSmaller(fields, j); SlotFits(fields[j], slots[j]))
    decreases TreeSize(fields), 3, |fields| - i
  {
    hide SlotFits, EncodeSlot, SlotOk;
    if i < |fields| {
      FieldIsSmaller(fields, i);
      SlotEncodes(fields[i], slots[i]);
      FieldsEncode(fields, slots, i + 1);
    }
  }

  // The encoder fails on exactly the messages whose counts overflow.
  lemma {:induction false} MessageEncodes(fields: seq<Field>, slots: seq<Slot>)
    requires SlotsOk(fields, slots)
    ensures Encode(fields, slots).Some? <==> Fits(fields, slots)
    decreases TreeSize(fields), 4
  {
    hide SlotFits, EncodeSlot, SlotOk;
    FieldsEncode(fields, slots, 0);
  }
}
