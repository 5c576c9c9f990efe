// Nanopb: the decoder as it runs, on streams and with the field iterator.

module NanoPbDecoder {
  import opened Wrappers
  import opened Coding
  import opened NanoPb
  import opened NanoPbDecode
  import opened NanoPbRoundTrip

  class IStream {
    const buf: Bytes
    var state: nat       // next byte
    var bytesLeft: nat

    ghost predicate Valid()
      reads this
    {
      state + bytesLeft <= |buf|
    }

    ghost function Rest(): (r: Bytes)
      requires Valid()
      reads this
      ensures |r| == bytesLeft
    {
      buf[state..state + bytesLeft]
    }

    ghost function End(): nat
      reads this
    {
      state + bytesLeft
    }

    // pb_istream_from_buffer, and the substream of a delimited field.
    constructor (buf: Bytes, state: nat, size: nat)
      requires state + size <= |buf|
      ensures Valid() && this.buf == buf && this.state == state && bytesLeft == size
    {
      this.buf, this.state, bytesLeft := buf, state, size;
    }

    // pb_read, into a buffer or past the bytes.
    method Read(n: nat) returns (r: Option<Bytes>)
      requires Valid()
      modifies this
      ensures Valid() && End() == old(End())
      ensures var t := TakeBytes(old(Rest()), n);
        (r == None <==> t == None) && (r.Some? ==> (r.value, Rest()) == t.value)
    {
      if bytesLeft < n { return None; }
      r := Some(buf[state..state + n]);
      Split(buf, state, n, bytesLeft);
      state, bytesLeft := state + n, bytesLeft - n;
    }

    method ReadByte() returns (r: Option<Byte>)
      requires Valid()
      modifies this
      ensures Valid() && End() == old(End()) && (r == None <==> old(bytesLeft) == 0)
      ensures r == None ==> bytesLeft == 0
      ensures r.Some? ==> old(Rest()) == [r.value] + Rest() && bytesLeft == old(bytesLeft) - 1
    {
      if bytesLeft == 0 { return None; }
      r := Some(buf[state]);
      state, bytesLeft := state + 1, bytesLeft - 1;
    }
  }

  lemma Split(buf: Bytes, state: nat, n: nat, left: nat)
    requires state + left <= |buf| && n <= left
    ensures buf[state..state + left][..n] == buf[state..state + n]
    ensures buf[state..state + left][n..] == buf[state + n..state + left]
  {
  }

  // pb_decode_varint32 and pb_decode_varint: five or ten bytes, cut to the width.
  method DecodeVarintOf(s: IStream, max: nat, modulus: nat) returns (r: Option<nat>)
    requires s.Valid() && max > 0 && modulus > 0
    modifies s
    ensures s.Valid() && s.End() == old(s.End())
    ensures var v := ParseVarint(old(s.Rest()), 0, max);
      && (r == None <==> v == None)
      && (r.Some? ==> r.value == v.value.0 % modulus && s.Rest() == old(s.Rest())[v.value.1..])
    ensures r == None ==> (s.bytesLeft == 0 <==> |old(s.Rest())| <= max)
  {
    hide ParseVarint;
    ghost var all := s.Rest();
    var result: nat, scale: nat, left: nat := 0, 1, max;
    Started(all, max);
    while true
      invariant s.Valid() && s.End() == old(s.End()) && left <= max && |all| == max - left + s.bytesLeft && s.Rest() == all[max - left..]
      invariant Progress(all, max, left, result, scale)
      decreases left
    {
      if left == 0 {
        OutOfBytes(all, max, left, result, scale);
        return None;
      }
      var b := s.ReadByte();
      if b == None {
        OutOfBytes(all, max, left, result, scale);
        return None;
      }
      var byte := b.value as nat;
      assert all[max - left] == b.value;
      NextByte(all, max, left, result, scale);
      left := left - 1;
      if byte >= 128 {
        result := result + scale * (byte - 128);
        scale := scale * 128;
      } else {
        return Some((result + scale * byte) % modulus);
      }
    }
  }

  // So far max - left bytes have been read; what they say is in result, and
  // the rest counts scale times.
  ghost predicate Progress(all: Bytes, max: nat, left: nat, result: nat, scale: nat)
    requires left <= max
  {
    var v, rest := ParseVarint(all, 0, max), ParseVarint(all, max - left, left);
    && (v == None <==> rest == None)
    && (v.Some? ==> v.value.1 == rest.value.1 && v.value.0 == result + scale * rest.value.0)
  }

  lemma Started(all: Bytes, max: nat)
    ensures Progress(all, max, max, 0, 1)
  {
  }

  lemma OutOfBytes(all: Bytes, max: nat, left: nat, result: nat, scale: nat)
    requires left <= max && Progress(all, max, left, result, scale) && (left == 0 || max - left >= |all|)
    ensures ParseVarint(all, 0, max) == None
  {
  }

  lemma NextByte(all: Bytes, max: nat, left: nat, result: nat, scale: nat)
    requires 0 < left <= max && Progress(all, max, left, result, scale) && max - left < |all|
    ensures var byte := all[max - left] as nat;
      && (byte >= 128 ==> Progress(all, max, left - 1, result + scale * (byte - 128), scale * 128))
      && (byte < 128 ==> ParseVarint(all, 0, max) == Some((result + scale * byte, max - left + 1)))
  {
    var byte := all[max - left] as nat;
    var rest := ParseVarint(all, max - left + 1, left - 1);
    if byte >= 128 && rest.Some? { Distribute(result, scale, byte - 128, rest.value.0); }
  }

  method DecodeVarint32(s: IStream) returns (r: Option<nat>)
    requires s.Valid()
    modifies s
    ensures s.Valid() && s.End() == old(s.End())
    ensures var t := TakeVarint32(old(s.Rest()));
      (r == None <==> t == None) && (r.Some? ==> (r.value, s.Rest()) == t.value)
    ensures r == None ==> (s.bytesLeft == 0 <==> |old(s.Rest())| <= 5)
  {
    r := DecodeVarintOf(s, 5, TWO_TO_32);
  }

  method DecodeVarint64(s: IStream) returns (r: Option<nat>)
    requires s.Valid()
    modifies s
    ensures s.Valid() && s.End() == old(s.End())
    ensures var t := TakeVarint64(old(s.Rest()));
      (r == None <==> t == None) && (r.Some? ==> (r.value, s.Rest()) == t.value)
  {
    r := DecodeVarintOf(s, 10, TWO_TO_64);
  }

  // pb_decode_tag.
  method DecodeNextTag(s: IStream) returns (ok: bool, wire: nat, tag: nat, eof: bool)
    requires s.Valid()
    modifies s
    ensures s.Valid() && s.End() == old(s.End())
    ensures match DecodeTag(old(s.Rest()))
      case EndOfMessage => !ok && eof
      case BadTag => !ok && !eof
      case TagIs(w, t, rest) => ok && wire == w && tag == t && s.Rest() == rest
  {
    ok, wire, tag, eof := false, 0, 0, false;
    var t := DecodeVarint32(s);
    if t == None {
      if s.bytesLeft == 0 { eof := true; }
    } else if t.value == 0 {
      eof := true;
    } else {
      ok, wire, tag := true, t.value % 8, t.value / 8;
    }
  }

  method SkipVarintOn(s: IStream) returns (ok: bool)
    requires s.Valid()
    modifies s
    ensures s.Valid() && s.End() == old(s.End())
    ensures var r := SkipVarint(old(s.Rest())); (ok <==> r.Some?) && (ok ==> s.Rest() == r.value)
  {
    while true
      invariant s.Valid() && s.End() == old(s.End()) && SkipVarint(s.Rest()) == SkipVarint(old(s.Rest()))
      decreases s.bytesLeft
    {
      ghost var was := s.Rest();
      var b := s.ReadByte();
      if b == None { return false; }
      assert was[1..] == s.Rest() && was[0] == b.value;
      if b.value < 128 { return true; }
    }
  }

  // pb_skip_field.
  method SkipField(s: IStream, wire: nat) returns (ok: bool)
    requires s.Valid()
    modifies s
    ensures s.Valid() && s.End() == old(s.End())
    ensures var r := Skip(wire, old(s.Rest())); (ok <==> r.Some?) && (ok ==> s.Rest() == r.value)
  {
    match wire
    case 0 => ok := SkipVarintOn(s);
    case 1 =>
      var r := s.Read(8);
      ok := r.Some?;
    case 2 =>
      var n := DecodeVarint32(s);
      if n == None { return false; }
      var r := s.Read(n.value);
      ok := r.Some?;
    case 5 =>
      var r := s.Read(4);
      ok := r.Some?;
    case _ => ok := false;
  }

  // ------------------------------------------------------ the iterator

  ghost predicate TagsDiffer(fields: seq<Field>) {
    forall i, j :: 0 <= i < j < |fields| ==> fields[i].tag != fields[j].tag
  }

  class FieldIter {
    const fields: seq<Field>
    var pos: nat
    var requiredIndex: nat

    ghost predicate Valid()
      reads this
    {
      pos <= |fields| && (pos == |fields| ==> pos == 0) && requiredIndex == RequiredBefore(fields, pos)
    }

    constructor (fields: seq<Field>)
      ensures Valid() && this.fields == fields && pos == 0
    {
      this.fields, pos, requiredIndex := fields, 0, 0;
    }

    // pb_field_iter_next: wraps back to the start at the end.
    method Next() returns (more: bool)
      requires Valid()
      modifies this
      ensures Valid() && (more <==> old(pos) + 1 < |fields|)
      ensures pos == if old(pos) + 1 < |fields| then old(pos) + 1 else 0
    {
      if |fields| == 0 { return false; }
      if pos + 1 == |fields| {
        pos, requiredIndex := 0, 0;
        return false;
      }
      if fields[pos].rule.Required? { requiredIndex := requiredIndex + 1; }
      pos := pos + 1;
      more := true;
    }

    // pb_field_iter_find: once around, from where the iterator is.
    method Find(tag: nat) returns (found: bool)
      requires Valid() && TagsDiffer(fields)
      modifies this
      ensures Valid()
      ensures |fields| == 0 ==> (found <==> tag == 0)
      ensures |fields| > 0 ==> (found <==> FindField(fields, tag) < |fields|) && (found ==> pos == FindField(fields, tag))
    {
      if |fields| == 0 { return tag == 0; }
      var start := pos;
      if fields[pos].tag == tag { return true; }
      var _ := Next();
      ghost var seen := 1;
      while pos != start
        invariant Valid() && 1 <= seen <= |fields|
        invariant pos == if start + seen < |fields| then start + seen else start + seen - |fields|
        invariant forall j :: start <= j < |fields| && j < start + seen ==> fields[j].tag != tag
        invariant forall j :: 0 <= j < start + seen - |fields| ==> fields[j].tag != tag
        decreases |fields| - seen
      {
        if fields[pos].tag == tag { return true; }
        var _ := Next();
        seen := seen + 1;
      }
      found := false;
    }

    // The number of required fields, found by running on to the end.
    method CountRequired() returns (n: nat)
      requires Valid()
      modifies this
      ensures Valid() && n == RequiredBefore(fields, |fields|)
    {
      if |fields| == 0 { return 0; }
      var last := fields[pos];
      n := requiredIndex;
      var more := Next();
      while more
        invariant Valid() && (more ==> pos > 0)
        invariant !more ==> n == RequiredBefore(fields, |fields| - 1) && last == fields[|fields| - 1]
        decreases if more then |fields| - pos else 0
      {
        n, last := requiredIndex, fields[pos];
        more := Next();
      }
      if last.rule.Required? { n := n + 1; }
    }
  }

  // --------------------------------------------------------- one field

  // What a method read agrees with what the bytes say.
  ghost predicate Read<T>(r: Option<T>, rest: Bytes, spec: Option<(T, Bytes)>) {
    (r == None <==> spec == None) && (r.Some? ==> (r.value, rest) == spec.value)
  }

  method DecodeNumber(s: IStream, f: Field) returns (r: Option<Value>)
    requires s.Valid() && Packable(f.kind)
    modifies s
    ensures s.Valid() && s.End() == old(s.End())
    ensures Read(r, s.Rest(), DecodeValue(f, Default(f), old(s.Rest())))
    ensures forall old_ :: DecodeValue(f, old_, old(s.Rest())) == DecodeValue(f, Default(f), old(s.Rest()))
  {
    hide TakeVarint64, ToVarInt, ToUVarInt, ToSVarInt, TakeBytes;
    if f.kind.Fixed32? {
      var b := s.Read(4);
      r := if b == None then None else Some(Word(DecodeFixed32(b.value)));
    } else if f.kind.Fixed64? {
      var b := s.Read(8);
      r := if b == None then None else Some(Word(DecodeFixed64(b.value)));
    } else {
      var u := DecodeVarint64(s);
      if u == None { return None; }
      match f.kind
      case VarInt => r := ToVarInt(f, u.value);
      case UVarInt => r := ToUVarInt(f, u.value);
      case SVarInt => r := ToSVarInt(f, u.value);
    }
  }

  // pb_make_string_substream.
  method OpenSubstream(s: IStream) returns (sub: IStream?)
    requires s.Valid()
    modifies s
    ensures s.Valid() && (sub == null <==> TakeDelimited(old(s.Rest())) == None)
    ensures sub != null ==> fresh(sub) && sub.Valid() && sub.buf == s.buf && sub.state == s.state
    ensures sub != null ==> sub.bytesLeft < old(s.bytesLeft) && sub.End() + s.bytesLeft == old(s.End())
    ensures sub != null ==> sub.state + sub.bytesLeft + s.bytesLeft <= |s.buf|
    ensures sub != null ==>
      (sub.Rest(), s.buf[s.state + sub.bytesLeft..s.state + sub.bytesLeft + s.bytesLeft]) == TakeDelimited(old(s.Rest())).value
  {
    hide TakeVarint32;
    var size := DecodeVarint32(s);
    if size == None || s.bytesLeft < size.value { return null; }
    sub := new IStream(s.buf, s.state, size.value);
    Split(s.buf, s.state, size.value, s.bytesLeft);
    s.bytesLeft := s.bytesLeft - size.value;
  }

  // pb_close_string_substream: the parent goes on after the substream's bytes.
  method CloseSubstream(s: IStream, sub: IStream)
    requires sub.Valid() && s != sub && sub.buf == s.buf && sub.state + sub.bytesLeft + s.bytesLeft <= |s.buf|
    modifies s, sub
    ensures s.Valid() && s.bytesLeft == old(s.bytesLeft) && s.state == old(sub.End())
  {
    if sub.bytesLeft > 0 { var _ := sub.Read(sub.bytesLeft); }
    s.state := sub.state;
  }

  method DecodeData(s: IStream, f: Field, old_: Value) returns (r: Option<Value>)
    requires s.Valid() && !Packable(f.kind) && !f.kind.Submessage?
    modifies s
    ensures s.Valid() && (r.Some? ==> s.End() == old(s.End()))
    ensures Read(r, s.Rest(), DecodeValue(f, old_, old(s.Rest())))
  {
    hide TakeVarint32, ToText, ToBytesArray, ToFixedBytes;
    var size := DecodeVarint32(s);
    if size == None { return None; }
    var d := s.Read(size.value);
    if d == None { return None; }
    match f.kind
    case BytesArray => r := ToBytesArray(f, d.value);
    case Text => r := ToText(f, d.value);
    case FixedBytes => r := ToFixedBytes(f, d.value);
  }

  // The decoder of the field's kind.
  method DecodeOne(s: IStream, f: Field, old_: Value) returns (r: Option<Value>)
    requires s.Valid() && FieldOk(f)
    modifies s
    ensures s.Valid() && (r.Some? ==> s.End() == old(s.End()))
    ensures Read(r, s.Rest(), DecodeValue(f, old_, old(s.Rest())))
    decreases s.bytesLeft, 1
  {
    if f.kind.Submessage? {
      r := DecodeSubmessage(s, f, old_);
    } else if Packable(f.kind) {
      r := DecodeNumber(s, f);
    } else {
      r := DecodeData(s, f, old_);
    }
  }

  // pb_dec_submessage.
  method DecodeSubmessage(s: IStream, f: Field, old_: Value) returns (r: Option<Value>)
    requires s.Valid() && FieldOk(f) && f.kind.Submessage?
    modifies s
    ensures s.Valid() && (r.Some? ==> s.End() == old(s.End()))
    ensures Read(r, s.Rest(), DecodeValue(f, old_, old(s.Rest())))
    decreases s.bytesLeft, 0
  {
    hide TakeDelimited, DecodeMessage;
    var sub := OpenSubstream(s);
    if sub == null { return None; }
    ghost var end := sub.state + sub.bytesLeft;
    var m := DecodeNoInit(sub, f.kind.fields, SlotsOf(f.kind.fields, old_));
    if m == None {
      return None;
    }
    CloseSubstream(s, sub);
    r := Some(Message(m.value));
  }

  method DecodePackedItems(s: IStream, f: Field, start: seq<Value>, arraySize: nat) returns (r: Option<seq<Value>>)
    requires s.Valid() && Packable(f.kind)
    modifies s
    ensures s.Valid() && r == DecodePacked(f, start, arraySize, old(s.Rest()))
    ensures r.Some? ==> s.bytesLeft == 0 && s.End() == old(s.End())
  {
    hide DecodeValue;
    var values := start;
    while s.bytesLeft > 0 && |values| < arraySize
      invariant s.Valid() && s.End() == old(s.End())
      invariant DecodePacked(f, values, arraySize, s.Rest()) == DecodePacked(f, start, arraySize, old(s.Rest()))
      decreases s.bytesLeft
    {
      var v := DecodeNumber(s, f);
      if v == None { return None; }
      values := values + [v.value];
    }
    if s.bytesLeft != 0 { return None; }
    r := Some(values);
  }

  // decode_static_field.
  method DecodeStaticField(s: IStream, fields: seq<Field>, i: nat, slots: seq<Slot>, wire: nat) returns (r: Option<seq<Slot>>)
    requires s.Valid() && |slots| == |fields| && i < |fields| && FieldOk(fields[i])
    modifies s
    ensures s.Valid() && (r.Some? ==> s.End() == old(s.End()))
    ensures Read(r, s.Rest(), DecodeField(fields, i, slots, wire, old(s.Rest())))
    decreases s.bytesLeft, 2
  {
    hide DecodeValue, TakeDelimited, DecodePacked;
    var f := fields[i];
    match f.rule
    case Repeated(arraySize) =>
      if wire == 2 && Packable(f.kind) {
        var sub := OpenSubstream(s);
        if sub == null { return None; }
        var vs := DecodePackedItems(sub, f, slots[i].values, arraySize);
        if vs == None { return None; }
        CloseSubstream(s, sub);
        r := Some(slots[i := Slot(vs.value)]);
      } else {
        if |slots[i].values| >= arraySize { return None; }
        var v := DecodeOne(s, f, Default(f));
        if v == None { return None; }
        r := Some(slots[i := Slot(slots[i].values + [v.value])]);
      }
    case Oneof(_) =>
      var v := DecodeOne(s, f, Default(f));
      if v == None { return None; }
      r := Some(SetMember(fields, slots, i, v.value));
    case _ =>
      var v := DecodeOne(s, f, Stored(f, slots[i]));
      if v == None { return None; }
      r := Some(slots[i := Slot([v.value])]);
  }

  // pb_decode_noinit.
  method DecodeNoInit(s: IStream, fields: seq<Field>, start: seq<Slot>) returns (r: Option<seq<Slot>>)
    requires s.Valid() && DescriptorOk(fields) && |start| == |fields|
    modifies s
    ensures s.Valid() && r == DecodeMessage(fields, start, old(s.Rest()))
    ensures r.Some? ==> s.End() == old(s.End())
    decreases s.bytesLeft, 4
  {
    hide DecodeField, DecodeTag, Skip, AllSeen;
    var iter := new FieldIter(fields);
    var slots, fieldsSeen := start, {};
    ghost var spec := DecodeLoop(fields, start, {}, s.Rest());
    while s.bytesLeft > 0
      invariant s.Valid() && iter.Valid() && iter.fields == fields && fresh(iter) && |slots| == |fields|
      invariant s.bytesLeft <= old(s.bytesLeft) && s.End() == old(s.End())
      invariant DecodeLoop(fields, slots, fieldsSeen, s.Rest()) == spec
      decreases s.bytesLeft
    {
      var ok, wire, tag, eof := DecodeNextTag(s);
      if !ok {
        if eof { break; }
        return None;
      }
      var found := iter.Find(tag);
      if !found {
        ok := SkipField(s, wire);
        if !ok { return None; }
        continue;
      }
      if |fields| == 0 { return None; }
      var i := iter.pos;
      if fields[i].rule.Required? && iter.requiredIndex < MAX_REQUIRED_FIELDS {
        fieldsSeen := fieldsSeen + {iter.requiredIndex};
      }
      FieldIsSmaller(fields, i);
      var d := DecodeStaticField(s, fields, i, slots, wire);
      if d == None { return None; }
      slots := d.value;
    }
    var n := iter.CountRequired();
    SeenOrNot(fields, fieldsSeen);
    if n > 0 && (n % 32 == 0 || n >= MAX_REQUIRED_FIELDS || exists k :: 0 <= k < n && k !in fieldsSeen) {
      return None;
    }
    r := Some(slots);
  }

  lemma SeenOrNot(fields: seq<Field>, seen: set<nat>)
    ensures var n := RequiredBefore(fields, |fields|);
      AllSeen(fields, seen) <==> !(n > 0 && (n % 32 == 0 || n >= MAX_REQUIRED_FIELDS || exists k :: 0 <= k < n && k !in seen))
  {
  }

  // pb_decode.
  method DecodeFrom(s: IStream, fields: seq<Field>) returns (r: Option<seq<Slot>>)
    requires s.Valid() && DescriptorOk(fields)
    modifies s
    ensures s.Valid() && r == Decode(fields, old(s.Rest()))
  {
    r := DecodeNoInit(s, fields, Defaults(fields));
  }
}
