// Nanopb: the encoder as it runs, on streams. Every submessage is first encoded
// into a stream that only counts, to know the length that goes before it.

module NanoPbEncoder {
  import opened Wrappers
  import opened Coding
  import opened NanoPb

  // What can be seen of an output stream.
  datatype Out = Out(content: Bytes, state: nat, written: nat)

  // Writing e succeeds if and only if there is an e and it fits. Then it is
  // there, and nothing else has changed; a failed write stays within the limit.
  ghost predicate Appended(a: Out, b: Out, e: Option<Bytes>, ok: bool, sizing: bool, max: nat) {
    if sizing then
      && b.content == a.content && b.state == a.state && (ok <==> e.Some?)
      && (ok ==> b.written == a.written + |e.value|)
    else
      && (ok <==> e.Some? && a.written + |e.value| <= max)
      && a.state <= b.state && b.state - a.state == b.written - a.written && b.written <= max
      && |b.content| == |a.content| && a.written <= max && a.state + (max - a.written) <= |a.content|
      && (ok ==> b.written == a.written + |e.value| && b.content == Overwritten(a.content, a.state, e.value))
      && b.content[..a.state] == a.content[..a.state]
      && b.content[a.state + (max - a.written)..] == a.content[a.state + (max - a.written)..]
  }

  function Overwritten(content: Bytes, at: nat, e: Bytes): (r: Bytes)
    requires at + |e| <= |content|
    ensures |r| == |content|
  {
    content[..at] + e + content[at + |e|..]
  }

  lemma OverwrittenTwice(content: Bytes, at: nat, e1: Bytes, e2: Bytes)
    requires at + |e1| + |e2| <= |content|
    ensures Overwritten(Overwritten(content, at, e1), at + |e1|, e2) == Overwritten(content, at, e1 + e2)
  {
  }

  lemma AppendedBoth(a: Out, b: Out, c: Out, e1: Option<Bytes>, e2: Option<Bytes>, ok: bool, sizing: bool, max: nat)
    requires Appended(a, b, e1, true, sizing, max) && Appended(b, c, e2, ok, sizing, max)
    ensures Appended(a, c, Join(e1, e2), ok, sizing, max)
  {
    if !sizing {
      var lim := a.state + (max - a.written);
      assert b.state + (max - b.written) == lim;
      assert c.content[..a.state] == c.content[..b.state][..a.state];
      if ok { OverwrittenTwice(a.content, a.state, e1.value, e2.value); }
    }
  }

  lemma AppendedNone(a: Out, b: Out, e1: Option<Bytes>, e2: Option<Bytes>, sizing: bool, max: nat)
    requires Appended(a, b, e1, false, sizing, max)
    ensures Appended(a, b, Join(e1, e2), false, sizing, max)
  {
  }

  lemma NothingAppended(a: Out, sizing: bool, max: nat)
    requires !sizing ==> a.written <= max && a.state + (max - a.written) <= |a.content|
    ensures Appended(a, a, Some([]), true, sizing, max) && Appended(a, a, None, false, sizing, max)
  {
  }

  class OStream {
    const buf: array?<Byte>      // none: the stream only counts
    const maxSize: nat
    var state: nat               // where in buf the next byte goes
    var bytesWritten: nat

    ghost predicate Valid()
      reads this
    {
      buf != null ==> bytesWritten <= maxSize && state + (maxSize - bytesWritten) <= buf.Length
    }

    ghost function Now(): Out
      reads this, buf
    {
      Out(if buf != null then buf[..] else [], state, bytesWritten)
    }

    ghost predicate Did(before: Out, e: Option<Bytes>, ok: bool)
      reads this, buf
    {
      Valid() && Appended(before, Now(), e, ok, buf == null, maxSize)
    }

    constructor Sizing()
      ensures Valid() && buf == null && bytesWritten == 0
    {
      buf, maxSize, state, bytesWritten := null, 0, 0, 0;
    }

    // pb_ostream_from_buffer, and the substream of a submessage.
    constructor FromBuffer(buf: array<Byte>, state: nat, maxSize: nat)
      requires state + maxSize <= buf.Length
      ensures Valid() && this.buf == buf && this.maxSize == maxSize && this.state == state && bytesWritten == 0
    {
      this.buf, this.maxSize, this.state, bytesWritten := buf, maxSize, state, 0;
    }

    // pb_write.
    method Write(b: Bytes) returns (ok: bool)
      requires Valid()
      modifies this, buf
      ensures Did(old(Now()), Some(b), ok)
    {
      if buf != null {
        if bytesWritten + |b| > maxSize { return false; }
        CopyTo(buf, state, b);
        Within(old(buf[..]), state, b, state + (maxSize - bytesWritten));
        state := state + |b|;
      }
      bytesWritten := bytesWritten + |b|;
      ok := true;
    }

    // pb_write without bytes, on a stream that only counts.
    method Count(n: nat)
      requires Valid() && buf == null
      modifies this`bytesWritten
      ensures Valid() && bytesWritten == old(bytesWritten) + n
    {
      bytesWritten := bytesWritten + n;
    }
  }

  // buf_write.
  method CopyTo(dest: array<Byte>, at: nat, b: Bytes)
    requires at + |b| <= dest.Length
    modifies dest
    ensures dest[..] == Overwritten(old(dest[..]), at, b)
  {
    var i := 0;
    while i < |b|
      invariant i <= |b|
      invariant forall k :: 0 <= k < dest.Length ==> dest[k] == if at <= k < at + i then b[k - at] else old(dest[k])
    {
      dest[at + i] := b[i];
      i := i + 1;
    }
  }

  lemma Within(content: Bytes, at: nat, b: Bytes, limit: nat)
    requires at + |b| <= limit <= |content|
    ensures Overwritten(content, at, b)[..at] == content[..at]
    ensures Overwritten(content, at, b)[limit..] == content[limit..]
  {
  }

  // pb_encode_varint.
  method EncodeVarint(s: OStream, v: nat) returns (ok: bool)
    requires s.Valid()
    modifies s, s.buf
    ensures s.Did(old(s.Now()), Some(Varint(v)), ok)
  {
    var b := EncodeVarint64(v);
    ok := s.Write(b);
  }

  method EncodeTag(s: OStream, w: WireType, tag: nat) returns (ok: bool)
    requires s.Valid()
    modifies s, s.buf
    ensures s.Did(old(s.Now()), Some(Tag(w, tag)), ok)
  {
    ok := EncodeVarint(s, tag * 8 + WireNumber(w));
  }

  // pb_encode_string.
  method EncodeString(s: OStream, d: Bytes) returns (ok: bool)
    requires s.Valid()
    modifies s, s.buf
    ensures s.Did(old(s.Now()), Some(Delimited(d)), ok)
  {
    hide Appended;
    ghost var a := s.Now();
    ok := EncodeVarint(s, |d|);
    if !ok {
      AppendedNone(a, s.Now(), Some(Varint(|d|)), Some(d), s.buf == null, s.maxSize);
      return;
    }
    ghost var b := s.Now();
    ok := s.Write(d);
    AppendedBoth(a, b, s.Now(), Some(Varint(|d|)), Some(d), ok, s.buf == null, s.maxSize);
  }

  lemma JoinAssoc(a: Option<Bytes>, b: Option<Bytes>, c: Option<Bytes>)
    ensures Join(Join(a, b), c) == Join(a, Join(b, c))
  {
    if a.Some? && b.Some? && c.Some? { assert a.value + b.value + c.value == a.value + (b.value + c.value); }
  }

  lemma JoinNothing(a: Option<Bytes>)
    ensures Join(a, Some([])) == a && Join(Some([]), a) == a
  {
    if a.Some? { assert a.value + [] == a.value && [] + a.value == a.value; }
  }

  // After some bytes are out, one more write.
  lemma OneMore(s: OStream, a: Out, b: Out, e1: Option<Bytes>, e2: Option<Bytes>, rest: Option<Bytes>, ok: bool)
    requires Appended(a, b, e1, true, s.buf == null, s.maxSize)
    requires s.Did(b, e2, ok)
    ensures s.Did(a, Join(e1, e2), ok)
    ensures !ok ==> s.Did(a, Join(e1, Join(e2, rest)), ok)
  {
    hide Appended, Join;
    AppendedBoth(a, b, s.Now(), e1, e2, ok, s.buf == null, s.maxSize);
    if !ok { AppendedNone(a, s.Now(), Join(e1, e2), rest, s.buf == null, s.maxSize); }
    JoinAssoc(e1, e2, rest);
  }

  // The length of a submessage and then the submessage.
  function Prefixed(e: Option<Bytes>): Option<Bytes> {
    if e == None then None else Some(Delimited(e.value))
  }

  method EncodeValue(s: OStream, f: Field, v: Value) returns (ok: bool)
    requires s.Valid() && ValueOk(f, v)
    modifies s, s.buf
    ensures s.Did(old(s.Now()), NanoPb.EncodeValue(f, v), ok)
    decreases FieldSize(f), 0
  {
    hide Appended;
    match f.kind
    case VarInt => ok := EncodeVarint(s, Unsigned(v.v));
    case UVarInt => ok := EncodeVarint(s, v.v);
    case SVarInt => ok := EncodeVarint(s, ZigZag(v.v));
    case Fixed32 => ok := s.Write(EncodeFixed32(v.w));
    case Fixed64 => ok := s.Write(EncodeFixed64(v.w));
    case BytesArray =>
      if |v.d| + BYTES_OFFSET > f.size {
        Idle(s);
        ok := false;
      } else {
        ok := EncodeString(s, v.d);
      }
    case Text => ok := EncodeString(s, v.d);
    case FixedBytes => ok := EncodeString(s, v.d);
    case Submessage(fields) => ok := EncodeSubmessage(s, fields, v.slots);
  }

  lemma Idle(s: OStream)
    requires s.Valid()
    ensures s.Did(s.Now(), Some([]), true) && s.Did(s.Now(), None, false)
  {
    NothingAppended(s.Now(), s.buf == null, s.maxSize);
  }

  // pb_encode_submessage.
  method EncodeSubmessage(s: OStream, fields: seq<Field>, slots: seq<Slot>) returns (ok: bool)
    requires s.Valid() && SlotsOk(fields, slots)
    modifies s, s.buf
    ensures s.Did(old(s.Now()), Prefixed(EncodeFrom(fields, slots, 0)), ok)
    decreases TreeSize(fields), 4
  {
    var size;
    ok, size := EncodedSize(fields, slots);
    if !ok {
      Idle(s);
      return;
    }
    ok := EncodeSized(s, fields, slots, size);
  }

  // The dry run: pb_get_encoded_size.
  method EncodedSize(fields: seq<Field>, slots: seq<Slot>) returns (ok: bool, size: nat)
    requires SlotsOk(fields, slots)
    ensures ok <==> Encode(fields, slots).Some?
    ensures ok ==> size == |Encode(fields, slots).value|
    decreases TreeSize(fields), 2
  {
    var counter := new OStream.Sizing();
    ok := EncodeMessage(counter, fields, slots);
    size := counter.bytesWritten;
  }

  // The length, and then the message again, on a stream that may write no more
  // than the length.
  method EncodeSized(s: OStream, fields: seq<Field>, slots: seq<Slot>, size: nat) returns (ok: bool)
    requires s.Valid() && SlotsOk(fields, slots)
    requires Encode(fields, slots).Some? && size == |Encode(fields, slots).value|
    modifies s, s.buf
    ensures s.Did(old(s.Now()), Some(Delimited(Encode(fields, slots).value)), ok)
    decreases TreeSize(fields), 3
  {
    hide Appended, Encode, EncodeFrom;
    ghost var a := s.Now();
    ghost var e := Encode(fields, slots);
    ok := EncodeVarint(s, size);
    if !ok {
      AppendedNone(a, s.Now(), Some(Varint(size)), e, s.buf == null, s.maxSize);
      return;
    }
    ghost var b := s.Now();
    ok := EncodeBody(s, fields, slots, size);
    OneMore(s, a, b, Some(Varint(size)), e, None, ok);
  }

  method EncodeBody(s: OStream, fields: seq<Field>, slots: seq<Slot>, size: nat) returns (ok: bool)
    requires s.Valid() && SlotsOk(fields, slots)
    requires Encode(fields, slots).Some? && size == |Encode(fields, slots).value|
    modifies s, s.buf
    ensures s.Did(old(s.Now()), Encode(fields, slots), ok)
    decreases TreeSize(fields), 2
  {
    hide Encode, EncodeFrom;
    if s.buf == null {
      s.Count(size);
      return true;
    }
    if s.bytesWritten + size > s.maxSize {
      return false;
    }
    var sub := new OStream.FromBuffer(s.buf, s.state, size);
    ok := EncodeMessage(sub, fields, slots);
    s.bytesWritten := s.bytesWritten + sub.bytesWritten;
    s.state := sub.state;
    if sub.bytesWritten != size {
      return false;
    }
  }

  // pb_encode.
  method EncodeMessage(s: OStream, fields: seq<Field>, slots: seq<Slot>) returns (ok: bool)
    requires s.Valid() && SlotsOk(fields, slots)
    modifies s, s.buf
    ensures s.Did(old(s.Now()), Encode(fields, slots), ok)
    decreases TreeSize(fields), 1
  {
    hide Appended, EncodeFrom, SlotOk;
    ghost var a := s.Now();
    ghost var done: Bytes := [];
    Idle(s);
    JoinNothing(EncodeFrom(fields, slots, 0));
    var i := 0;
    while i < |fields|
      invariant i <= |fields| && s.Did(a, Some(done), true)
      invariant Join(Some(done), EncodeFrom(fields, slots, i)) == Encode(fields, slots)
    {
      FieldIsSmaller(fields, i);
      FromNext(fields, slots, i);
      ghost var b := s.Now();
      ok := EncodeSlot(s, fields[i], slots[i]);
      OneMore(s, a, b, Some(done), NanoPb.EncodeSlot(fields[i], slots[i]), EncodeFrom(fields, slots, i + 1), ok);
      if !ok { return; }
      SlotWritten(s, b, NanoPb.EncodeSlot(fields[i], slots[i]));
      JoinAssoc(Some(done), NanoPb.EncodeSlot(fields[i], slots[i]), EncodeFrom(fields, slots, i + 1));
      done := done + NanoPb.EncodeSlot(fields[i], slots[i]).value;
      i := i + 1;
    }
    NothingFrom(fields, slots);
    JoinNothing(Some(done));
    ok := true;
  }

  lemma FromNext(fields: seq<Field>, slots: seq<Slot>, i: nat)
    requires SlotsOk(fields, slots) && i < |fields|
    ensures SlotOk(fields[i], slots[i])
    ensures FieldSize(fields[i]) < TreeSize(fields)
    ensures EncodeFrom(fields, slots, i) == Join(NanoPb.EncodeSlot(fields[i], slots[i]), EncodeFrom(fields, slots, i + 1))
  {
    FieldIsSmaller(fields, i);
  }

  lemma NothingFrom(fields: seq<Field>, slots: seq<Slot>)
    requires SlotsOk(fields, slots)
    ensures EncodeFrom(fields, slots, |fields|) == Some([])
  {
  }

  lemma SlotWritten(s: OStream, b: Out, e: Option<Bytes>)
    requires s.Did(b, e, true)
    ensures e.Some?
  {
  }

  // encode_basic_field.
  method EncodeSlot(s: OStream, f: Field, slot: Slot) returns (ok: bool)
    requires s.Valid() && SlotOk(f, slot)
    modifies s, s.buf
    ensures s.Did(old(s.Now()), NanoPb.EncodeSlot(f, slot), ok)
    decreases FieldSize(f), 4
  {
    hide Appended;
    match f.rule
    case Required => ok := EncodeTagged(s, f, slot.values[0]);
    case Optional => ok := EncodeIfSet(s, f, slot);
    case Implicit =>
      if IsZero(f, slot.values[0]) {
        Idle(s);
        ok := true;
      } else {
        ok := EncodeTagged(s, f, slot.values[0]);
      }
    case Repeated(arraySize) => ok := EncodeArray(s, f, slot.values, arraySize);
    case Oneof(_) => ok := EncodeIfSet(s, f, slot);
  }

  method EncodeIfSet(s: OStream, f: Field, slot: Slot) returns (ok: bool)
    requires s.Valid() && SlotOk(f, slot) && (f.rule.Optional? || f.rule.Oneof?)
    modifies s, s.buf
    ensures s.Did(old(s.Now()), NanoPb.EncodeSlot(f, slot), ok)
    decreases FieldSize(f), 2
  {
    hide Appended;
    if |slot.values| == 1 {
      ok := EncodeTagged(s, f, slot.values[0]);
    } else {
      Idle(s);
      ok := true;
    }
  }

  method EncodeTagged(s: OStream, f: Field, v: Value) returns (ok: bool)
    requires s.Valid() && ValueOk(f, v)
    modifies s, s.buf
    ensures s.Did(old(s.Now()), TaggedValue(f, v), ok)
    decreases FieldSize(f), 1
  {
    hide Appended;
    ghost var a := s.Now();
    ghost var tag := Some(Tag(WireTypeOf(f.kind), f.tag));
    ok := EncodeTag(s, WireTypeOf(f.kind), f.tag);
    if !ok {
      AppendedNone(a, s.Now(), tag, NanoPb.EncodeValue(f, v), s.buf == null, s.maxSize);
      return;
    }
    ghost var b := s.Now();
    ok := EncodeValue(s, f, v);
    OneMore(s, a, b, tag, NanoPb.EncodeValue(f, v), None, ok);
  }

  // The items of an array, each behind its tag or all of them packed.
  method EncodeItems(s: OStream, f: Field, values: seq<Value>, tagged: bool) returns (ok: bool)
    requires s.Valid() && forall i :: 0 <= i < |values| ==> ValueOk(f, values[i])
    modifies s, s.buf
    ensures s.Did(old(s.Now()), NanoPb.EncodeItems(f, values, 0, tagged), ok)
    decreases FieldSize(f), 2
  {
    hide Appended;
    ghost var a := s.Now();
    ghost var done: Bytes := [];
    Idle(s);
    JoinNothing(NanoPb.EncodeItems(f, values, 0, tagged));
    var i := 0;
    while i < |values|
      invariant i <= |values| && s.Did(a, Some(done), true)
      invariant Join(Some(done), NanoPb.EncodeItems(f, values, i, tagged)) == NanoPb.EncodeItems(f, values, 0, tagged)
    {
      ghost var e := if tagged then TaggedValue(f, values[i]) else NanoPb.EncodeValue(f, values[i]);
      ghost var b := s.Now();
      if tagged {
        ok := EncodeTagged(s, f, values[i]);
      } else {
        ok := EncodeValue(s, f, values[i]);
      }
      OneMore(s, a, b, Some(done), e, NanoPb.EncodeItems(f, values, i + 1, tagged), ok);
      if !ok { return; }
      SlotWritten(s, b, e);
      JoinAssoc(Some(done), e, NanoPb.EncodeItems(f, values, i + 1, tagged));
      done := done + e.value;
      i := i + 1;
    }
    JoinNothing(Some(done));
    ok := true;
  }

  // The size of a packed array: fixed widths are multiplied out, everything
  // else is a dry run.
  method PackedSize(f: Field, values: seq<Value>) returns (ok: bool, size: nat)
    requires Packable(f.kind) && forall i :: 0 <= i < |values| ==> ValueOk(f, values[i])
    ensures var e := NanoPb.EncodeItems(f, values, 0, false); (ok <==> e.Some?) && (ok ==> size == |e.value|)
    decreases FieldSize(f), 3, 0
  {
    if f.kind.Fixed32? {
      FixedItems(f, values, 0, 4);
      return true, 4 * |values|;
    }
    if f.kind.Fixed64? {
      FixedItems(f, values, 0, 8);
      return true, 8 * |values|;
    }
    var counter := new OStream.Sizing();
    ok := EncodeItems(counter, f, values, false);
    size := counter.bytesWritten;
  }

  lemma {:induction false} FixedItems(f: Field, values: seq<Value>, j: nat, width: nat)
    requires j <= |values| && forall i :: 0 <= i < |values| ==> ValueOk(f, values[i])
    requires (f.kind.Fixed32? && width == 4) || (f.kind.Fixed64? && width == 8)
    ensures var e := NanoPb.EncodeItems(f, values, j, false); e.Some? && |e.value| == width * (|values| - j)
    decreases |values| - j
  {
    if j < |values| { FixedItems(f, values, j + 1, width); }
  }

  // encode_array.
  method EncodeArray(s: OStream, f: Field, values: seq<Value>, arraySize: nat) returns (ok: bool)
    requires s.Valid() && forall i :: 0 <= i < |values| ==> ValueOk(f, values[i])
    modifies s, s.buf
    ensures s.Did(old(s.Now()), NanoPb.EncodeArray(f, values, arraySize), ok)
    decreases FieldSize(f), 3, 2
  {
    hide Appended;
    if |values| == 0 {
      Idle(s);
      return true;
    }
    if |values| > arraySize {
      Idle(s);
      return false;
    }
    if Packable(f.kind) {
      ok := EncodePacked(s, f, values);
    } else {
      ok := EncodeItems(s, f, values, true);
    }
  }

  method EncodePacked(s: OStream, f: Field, values: seq<Value>) returns (ok: bool)
    requires s.Valid() && Packable(f.kind) && forall i :: 0 <= i < |values| ==> ValueOk(f, values[i])
    modifies s, s.buf
    ensures s.Did(old(s.Now()), Join(Some(Tag(StringType, f.tag)), Prefixed(NanoPb.EncodeItems(f, values, 0, false))), ok)
    decreases FieldSize(f), 3, 1
  {
    hide Appended;
    ghost var a := s.Now();
    ghost var tag, e := Some(Tag(StringType, f.tag)), NanoPb.EncodeItems(f, values, 0, false);
    ok := EncodeTag(s, StringType, f.tag);
    if !ok {
      AppendedNone(a, s.Now(), tag, Prefixed(e), s.buf == null, s.maxSize);
      return;
    }
    ghost var b := s.Now();
    var size;
    ok, size := PackedSize(f, values);
    if !ok {
      Idle(s);
      OneMore(s, a, b, tag, None, None, false);
      return;
    }
    ok := EncodePackedBody(s, f, values, size);
    OneMore(s, a, b, tag, Prefixed(e), None, ok);
  }

  method EncodePackedBody(s: OStream, f: Field, values: seq<Value>, size: nat) returns (ok: bool)
    requires s.Valid() && Packable(f.kind) && forall i :: 0 <= i < |values| ==> ValueOk(f, values[i])
    requires NanoPb.EncodeItems(f, values, 0, false).Some? && size == |NanoPb.EncodeItems(f, values, 0, false).value|
    modifies s, s.buf
    ensures s.Did(old(s.Now()), Some(Delimited(NanoPb.EncodeItems(f, values, 0, false).value)), ok)
    decreases FieldSize(f), 3, 0
  {
    hide Appended;
    ghost var a := s.Now();
    ghost var e := NanoPb.EncodeItems(f, values, 0, false);
    ok := EncodeVarint(s, size);
    if !ok {
      AppendedNone(a, s.Now(), Some(Varint(size)), e, s.buf == null, s.maxSize);
      return;
    }
    ghost var b := s.Now();
    if s.buf == null {
      s.Count(size);
      Counted(s, b, e);
      ok := true;
    } else {
      ok := EncodeItems(s, f, values, false);
    }
    OneMore(s, a, b, Some(Varint(size)), e, None, ok);
  }

  lemma Counted(s: OStream, b: Out, e: Option<Bytes>)
    requires s.Valid() && s.buf == null && e.Some? && s.Now() == b.(written := b.written + |e.value|)
    ensures s.Did(b, e, true)
  {
  }
}
