// Nanopb: what the decoder makes of any bytes whatever.

module NanoPbDecode {
  import opened Wrappers
  import opened Coding
  import opened NanoPb

  // ------------------------------------------------------------- defaults

  function Zero(f: Field): Value
    requires !f.kind.Submessage?
  {
    match f.kind
    case VarInt => Int(0)
    case UVarInt => Int(0)
    case SVarInt => Int(0)
    case Fixed32 => Word(0)
    case Fixed64 => Word(0)
    case BytesArray => Data([])
    case Text => Data([])
    case FixedBytes => Data(Zeros(f.size))
  }

  function Zeros(n: nat): (r: Bytes)
    ensures |r| == n
  {
    seq(n, _ => 0)
  }

  // pb_field_set_to_default, one item.
  function Default(f: Field): Value
    decreases FieldSize(f), 0
  {
    if f.kind.Submessage? then Message(Defaults(f.kind.fields))
    else if f.preset.Some? then f.preset.value
    else Zero(f)
  }

  function DefaultSlot(f: Field): Slot
    decreases FieldSize(f), 1
  {
    if f.rule.Required? || f.rule.Implicit? then Slot([Default(f)]) else Slot([])
  }

  // pb_message_set_to_defaults.
  function Defaults(fields: seq<Field>): (r: seq<Slot>)
    ensures |r| == |fields|
    decreases TreeSize(fields), 2
  {
    seq(|fields|, i requires 0 <= i < |fields| => (FieldIsSmaller(fields, i); DefaultSlot(fields[i])))
  }

  // The fields of a submessage value.
  function SlotsOf(fields: seq<Field>, v: Value): (r: seq<Slot>)
    ensures |r| == |fields|
  {
    if v.Message? && |v.slots| == |fields| then v.slots else Defaults(fields)
  }

  // What the field's storage holds before it is decoded.
  function Stored(f: Field, s: Slot): Value {
    if |s.values| == 1 then s.values[0] else Default(f)
  }

  // ---------------------------------------------------------- small pieces

  // A cast to a signed integer of that many bytes.
  function AsSigned(u: int, size: nat): int {
    var m := u % Pow256(size);
    if 2 * m >= Pow256(size) then m - Pow256(size) else m
  }

  // pb_decode_svarint: ~(u >> 1) for odd u, u >> 1 otherwise.
  function UnZigZag(u: nat): int {
    if u % 2 == 1 then -(u / 2) - 1 else u / 2
  }

  // Values below 2^31 or 64 bits wide; anything that does not fit is an error.
  function ToVarInt(f: Field, u: nat): Option<Value> {
    var s := AsSigned(u, if f.size == 8 then 8 else 4);
    if IntegerSize(f.size) && AsSigned(s, f.size) == s then Some(Int(s)) else None
  }

  function ToUVarInt(f: Field, u: nat): Option<Value> {
    if IntegerSize(f.size) && u % Pow256(f.size) == u then Some(Int(u)) else None
  }

  function ToSVarInt(f: Field, u: nat): Option<Value> {
    var s := UnZigZag(u);
    if IntegerSize(f.size) && AsSigned(s, f.size) == s then Some(Int(s)) else None
  }

  // A C string ends at its first NUL.
  function UpToNul(d: Bytes): Bytes {
    if |d| == 0 || d[0] == 0 then [] else [d[0]] + UpToNul(d[1..])
  }

  function ToText(f: Field, d: Bytes): Option<Value> {
    if |d| + 1 > f.size then None else Some(Data(UpToNul(d)))
  }

  function ToBytesArray(f: Field, d: Bytes): Option<Value> {
    if |d| + BYTES_OFFSET > f.size then None else Some(Data(d))
  }

  // No bytes stand for all zeros.
  function ToFixedBytes(f: Field, d: Bytes): Option<Value> {
    if |d| == 0 then Some(Data(Zeros(f.size))) else if |d| != f.size then None else Some(Data(d))
  }

  datatype TagResult = EndOfMessage | BadTag | TagIs(wire: nat, tag: nat, rest: Bytes)

  // A tag that is cut short, or of zero, ends the message.
  function DecodeTag(b: Bytes): (r: TagResult)
    ensures r.TagIs? ==> |r.rest| < |b|
  {
    var g := TakeVarint32(b);
    if g == None then if |b| <= 5 then EndOfMessage else BadTag
    else if g.value.0 == 0 then EndOfMessage
    else TagIs(g.value.0 % 8, g.value.0 / 8, g.value.1)
  }

  function SkipVarint(b: Bytes): (r: Option<Bytes>)
    ensures r.Some? ==> |r.value| < |b|
  {
    if |b| == 0 then None else if b[0] < 128 then Some(b[1..]) else SkipVarint(b[1..])
  }

  // pb_skip_field.
  function Skip(wire: nat, b: Bytes): (r: Option<Bytes>)
    ensures r.Some? ==> |r.value| <= |b|
  {
    match wire
    case 0 => SkipVarint(b)
    case 1 => (var t := TakeBytes(b, 8); if t == None then None else Some(t.value.1))
    case 2 => (var t := TakeDelimited(b); if t == None then None else Some(t.value.1))
    case 5 => (var t := TakeBytes(b, 4); if t == None then None else Some(t.value.1))
    case _ => None
  }

  // Index of the field with a tag, or |fields|.
  function FindField(fields: seq<Field>, tag: nat): (i: nat)
    ensures i <= |fields| && (i < |fields| ==> fields[i].tag == tag)
    ensures forall j :: 0 <= j < i ==> fields[j].tag != tag
  {
    if |fields| == 0 || fields[0].tag == tag then 0
    else
      var i := FindField(fields[1..], tag);
      assert forall j :: 0 < j < |fields| ==> fields[j] == fields[1..][j - 1];
      1 + i
  }

  function RequiredBefore(fields: seq<Field>, i: nat): nat
    requires i <= |fields|
  {
    if i == 0 then 0 else RequiredBefore(fields, i - 1) + if fields[i - 1].rule.Required? then 1 else 0
  }

  // The check at the end of pb_decode_noinit. With 32 required fields it
  // shifts a word by its whole width, and with 64 or more it also reads past
  // the bits it keeps; the model reports an error there.
  predicate CountOk(fields: seq<Field>) {
    var n := RequiredBefore(fields, |fields|);
    n == 0 || (n % 32 != 0 && n < MAX_REQUIRED_FIELDS)
  }

  predicate AllSeen(fields: seq<Field>, seen: set<nat>) {
    CountOk(fields) && forall k :: 0 <= k < RequiredBefore(fields, |fields|) ==> k in seen
  }

  function SeenWith(fields: seq<Field>, seen: set<nat>, i: nat): set<nat>
    requires i < |fields|
  {
    if fields[i].rule.Required? && RequiredBefore(fields, i) < MAX_REQUIRED_FIELDS then seen + {RequiredBefore(fields, i)}
    else seen
  }

  // The other members of a union are gone when one is set.
  function SetMember(fields: seq<Field>, slots: seq<Slot>, i: nat, v: Value): (r: seq<Slot>)
    requires |slots| == |fields| && i < |fields|
    ensures |r| == |fields|
  {
    seq(|fields|, j requires 0 <= j < |fields| =>
      if j == i then Slot([v]) else if fields[i].rule.Oneof? && fields[j].rule == fields[i].rule then Slot([]) else slots[j])
  }

  // ------------------------------------------------------------ the decoder

  // One value, and the bytes after it.
  function DecodeValue(f: Field, old_: Value, b: Bytes): (r: Option<(Value, Bytes)>)
    ensures r.Some? ==> |r.value.1| < |b|
    decreases |b|, 1
  {
    match f.kind
    case VarInt => Map64(b, (u: nat) => ToVarInt(f, u))
    case UVarInt => Map64(b, (u: nat) => ToUVarInt(f, u))
    case SVarInt => Map64(b, (u: nat) => ToSVarInt(f, u))
    case Fixed32 => (var t := TakeBytes(b, 4); if t == None then None else Some((Word(DecodeFixed32(t.value.0)), t.value.1)))
    case Fixed64 => (var t := TakeBytes(b, 8); if t == None then None else Some((Word(DecodeFixed64(t.value.0)), t.value.1)))
    case BytesArray => MapBytes(b, (d: Bytes) => ToBytesArray(f, d))
    case Text => MapBytes(b, (d: Bytes) => ToText(f, d))
    case FixedBytes => MapBytes(b, (d: Bytes) => ToFixedBytes(f, d))
    case Submessage(fields) =>
      var t := TakeDelimited(b);
      if t == None then None
      else
        var m := DecodeMessage(fields, SlotsOf(fields, old_), t.value.0);
        if m == None then None else Some((Message(m.value), t.value.1))
  }

  function Map64(b: Bytes, to: nat -> Option<Value>): (r: Option<(Value, Bytes)>)
    ensures r.Some? ==> |r.value.1| < |b|
  {
    var g := TakeVarint64(b);
    if g == None then None
    else
      var v := to(g.value.0);
      if v == None then None else Some((v.value, g.value.1))
  }

  function MapBytes(b: Bytes, to: Bytes -> Option<Value>): (r: Option<(Value, Bytes)>)
    ensures r.Some? ==> |r.value.1| < |b|
  {
    var g := TakeDelimited(b);
    if g == None then None
    else
      var v := to(g.value.0);
      if v == None then None else Some((v.value, g.value.1))
  }

  // The items of a packed array, up to the end of its bytes.
  function DecodePacked(f: Field, values: seq<Value>, arraySize: nat, b: Bytes): Option<seq<Value>>
    decreases |b|, 2
  {
    if |b| == 0 then Some(values)
    else if |values| >= arraySize then None
    else
      var v := DecodeValue(f, Default(f), b);
      if v == None then None else DecodePacked(f, values + [v.value.0], arraySize, v.value.1)
  }

  // decode_static_field.
  function DecodeField(fields: seq<Field>, i: nat, slots: seq<Slot>, wire: nat, b: Bytes): (r: Option<(seq<Slot>, Bytes)>)
    requires |slots| == |fields| && i < |fields|
    ensures r.Some? ==> |r.value.0| == |fields| && |r.value.1| < |b|
    decreases |b|, 3
  {
    var f := fields[i];
    match f.rule
    case Repeated(arraySize) =>
      if wire == 2 && Packable(f.kind) then
        var t := TakeDelimited(b);
        if t == None then None
        else
          var vs := DecodePacked(f, slots[i].values, arraySize, t.value.0);
          if vs == None then None else Some((slots[i := Slot(vs.value)], t.value.1))
      else if |slots[i].values| >= arraySize then None
      else
        var v := DecodeValue(f, Default(f), b);
        if v == None then None else Some((slots[i := Slot(slots[i].values + [v.value.0])], v.value.1))
    case Oneof(_) =>
      var v := DecodeValue(f, Default(f), b);
      if v == None then None else Some((SetMember(fields, slots, i, v.value.0), v.value.1))
    case _ =>
      var v := DecodeValue(f, Stored(f, slots[i]), b);
      if v == None then None else Some((slots[i := Slot([v.value.0])], v.value.1))
  }

  // The loop of pb_decode_noinit. (A message without fields has only the
  // terminator for a field, which a tag of zero finds.)
  function DecodeLoop(fields: seq<Field>, slots: seq<Slot>, seen: set<nat>, b: Bytes): (r: Option<(seq<Slot>, set<nat>)>)
    requires |slots| == |fields|
    ensures r.Some? ==> |r.value.0| == |fields|
    decreases |b|, 4
  {
    if |b| == 0 then Some((slots, seen))
    else
      match DecodeTag(b)
      case EndOfMessage => Some((slots, seen))
      case BadTag => None
      case TagIs(wire, tag, rest) =>
        var i := FindField(fields, tag);
        if i == |fields| then
          if i == 0 && tag == 0 then None
          else
            var s := Skip(wire, rest);
            if s == None then None else DecodeLoop(fields, slots, seen, s.value)
        else
          var d := DecodeField(fields, i, slots, wire, rest);
          if d == None then None else DecodeLoop(fields, d.value.0, SeenWith(fields, seen, i), d.value.1)
  }

  // pb_decode_noinit.
  function DecodeMessage(fields: seq<Field>, slots: seq<Slot>, b: Bytes): (r: Option<seq<Slot>>)
    requires |slots| == |fields|
    ensures r.Some? ==> |r.value| == |fields|
    decreases |b|, 5
  {
    var d := DecodeLoop(fields, slots, {}, b);
    if d == None || !AllSeen(fields, d.value.1) then None else Some(d.value.0)
  }

  // pb_decode.
  function Decode(fields: seq<Field>, b: Bytes): Option<seq<Slot>> {
    DecodeMessage(fields, Defaults(fields), b)
  }
}
