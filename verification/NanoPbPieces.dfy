// Nanopb: a message on the wire is a list of pieces, whoever wrote it. They may
// come in any order, numbers of an array packed or one by one, fields more than
// once, and fields nobody knows. What they are decoded to depends on the values
// of each field alone.

module NanoPbPieces {
  import opened Wrappers
  import opened Coding
  import opened NanoPb
  import opened NanoPbDecode
  import opened NanoPbRoundTrip

  // A tagged value of field i; numbers of field i behind one tag; a tagged value
  // of a field the descriptor does not have.
  datatype Piece = One(i: nat, v: Value) | Packed(i: nat, values: seq<Value>) | Unknown(f: Field, v: Value)

  predicate Encodes(f: Field, v: Value) {
    ValueOk(f, v) && EncodeValue(f, v).Some? && |EncodeValue(f, v).value| < TWO_TO_32
  }

  predicate AllEncode(f: Field, values: seq<Value>) {
    forall k :: 0 <= k < |values| ==> Encodes(f, values[k])
  }

  function ItemBytes(f: Field, values: seq<Value>): Bytes
    requires AllEncode(f, values)
  {
    var e := EncodeItems(f, values, 0, false);
    if e.Some? then e.value else []
  }

  predicate PieceOk(fields: seq<Field>, p: Piece) {
    match p
    case One(i, v) => i < |fields| && Encodes(fields[i], v)
    case Packed(i, values) =>
      && i < |fields| && fields[i].rule.Repeated? && Packable(fields[i].kind)
      && AllEncode(fields[i], values) && |ItemBytes(fields[i], values)| < TWO_TO_32
    case Unknown(f, v) => 0 < f.tag <= MAX_TAG && Encodes(f, v) && forall j :: 0 <= j < |fields| ==> fields[j].tag != f.tag
  }

  predicate PiecesOk(fields: seq<Field>, ps: seq<Piece>) {
    forall k :: 0 <= k < |ps| ==> PieceOk(fields, ps[k])
  }

  function Tagged(f: Field, v: Value): Bytes
    requires Encodes(f, v)
  {
    Tag(WireTypeOf(f.kind), f.tag) + EncodeValue(f, v).value
  }

  function PieceBytes(fields: seq<Field>, p: Piece): Bytes
    requires PieceOk(fields, p)
  {
    match p
    case One(i, v) => Tagged(fields[i], v)
    case Packed(i, values) => Tag(StringType, fields[i].tag) + Delimited(ItemBytes(fields[i], values))
    case Unknown(f, v) => Tagged(f, v)
  }

  function AllBytes(fields: seq<Field>, ps: seq<Piece>): Bytes
    requires PiecesOk(fields, ps)
  {
    if |ps| == 0 then [] else PieceBytes(fields, ps[0]) + AllBytes(fields, ps[1..])
  }

  // -------------------------------------------- the values of each field

  function ValuesIn(p: Piece, i: nat): seq<Value> {
    match p
    case One(j, v) => if j == i then [v] else []
    case Packed(j, values) => if j == i then values else []
    case Unknown(_, _) => []
  }

  function ValuesFor(ps: seq<Piece>, i: nat): seq<Value> {
    if |ps| == 0 then [] else ValuesIn(ps[0], i) + ValuesFor(ps[1..], i)
  }

  lemma {:induction false} ValuesForEncode(fields: seq<Field>, ps: seq<Piece>, i: nat)
    requires PiecesOk(fields, ps) && i < |fields|
    ensures AllEncode(fields[i], ValuesFor(ps, i))
  {
    if |ps| > 0 {
      assert PieceOk(fields, ps[0]);
      ValuesForEncode(fields, ps[1..], i);
    }
  }

  // The member of a union that comes last.
  function LastMember(fields: seq<Field>, ps: seq<Piece>, rule: Rule): (r: Option<nat>)
    requires PiecesOk(fields, ps)
    ensures r.Some? ==> r.value < |fields| && fields[r.value].rule == rule && ValuesFor(ps, r.value) != []
  {
    if |ps| == 0 then None
    else
      var later := LastMember(fields, ps[1..], rule);
      if later.Some? then later
      else (assert PieceOk(fields, ps[0]);
            if ps[0].One? && fields[ps[0].i].rule == rule then Some(ps[0].i) else None)
  }

  // The pieces that the encoder writes for a message.
  function Written(f: Field, s: Slot): seq<Value>
    requires SlotOk(f, s)
  {
    if f.rule.Implicit? && IsZero(f, s.values[0]) then [] else s.values
  }

  function SlotPieces(i: nat, f: Field, s: Slot): seq<Piece>
    requires SlotOk(f, s)
  {
    if f.rule.Repeated? && Packable(f.kind) then (if |s.values| == 0 then [] else [Packed(i, s.values)])
    else
      var vs := Written(f, s);
      seq(|vs|, k requires 0 <= k < |vs| => One(i, vs[k]))
  }

  function PiecesFrom(fields: seq<Field>, slots: seq<Slot>, i: nat): seq<Piece>
    requires SlotsOk(fields, slots) && i <= |fields|
    decreases |fields| - i
  {
    if i == |fields| then []
    else
      FieldIsSmaller(fields, i);
      SlotPieces(i, fields[i], slots[i]) + PiecesFrom(fields, slots, i + 1)
  }

  // Every piece of an encoded message can be put on the wire by itself.
  lemma {:induction false} ItemsAreOk(f: Field, values: seq<Value>, j: nat, tagged: bool)
    requires j <= |values| && forall i :: 0 <= i < |values| ==> ValueOk(f, values[i])
    requires var e := EncodeItems(f, values, j, tagged); e.Some? && |e.value| < TWO_TO_32
    ensures forall k :: j <= k < |values| ==> Encodes(f, values[k])
    decreases |values| - j
  {
    if j < |values| { ItemsAreOk(f, values, j + 1, tagged); }
  }

  lemma SlotPiecesOk(fields: seq<Field>, i: nat, s: Slot)
    requires i < |fields| && SlotOk(fields[i], s)
    requires var e := EncodeSlot(fields[i], s); e.Some? && |e.value| < TWO_TO_32
    ensures PiecesOk(fields, SlotPieces(i, fields[i], s))
  {
    var f := fields[i];
    if f.rule.Repeated? && |s.values| > 0 {
      ItemsAreOk(f, s.values, 0, !Packable(f.kind));
    }
  }

  lemma {:induction false} PiecesFromOk(fields: seq<Field>, slots: seq<Slot>, i: nat)
    requires SlotsOk(fields, slots) && i <= |fields|
    requires var e := EncodeFrom(fields, slots, i); e.Some? && |e.value| < TWO_TO_32
    ensures PiecesOk(fields, PiecesFrom(fields, slots, i))
    decreases |fields| - i
  {
    hide PieceOk, EncodeSlot, SlotPieces, SlotOk;
    if i < |fields| {
      FieldIsSmaller(fields, i);
      SlotPiecesOk(fields, i, slots[i]);
      PiecesFromOk(fields, slots, i + 1);
    }
  }

  // ---------------------------------------------- what the values come to

  // A value on top of what is stored: a submessage is merged into it, anything
  // else replaces it. None if the decoder rejects it.
  function MergedValue(f: Field, old_: Value, v: Value): Option<Value>
    requires Encodes(f, v)
    decreases FieldSize(f), 0
  {
    match f.kind
    case Text => if |v.d| < f.size then Some(v) else None
    case Submessage(sub) =>
      PiecesFromOk(sub, v.slots, 0);
      var m := Result(sub, SlotsOf(sub, old_), PiecesFrom(sub, v.slots, 0));
      if m == None then None else Some(Message(m.value))
    case _ => Some(v)
  }

  // One value after the other.
  function Applied(f: Field, old_: Value, vs: seq<Value>): Option<Value>
    requires AllEncode(f, vs)
    decreases FieldSize(f), 1, |vs|
  {
    if |vs| == 0 then Some(old_)
    else
      var r := MergedValue(f, old_, vs[0]);
      if r == None then None else Applied(f, r.value, vs[1..])
  }

  // Each value by itself.
  function Fresh(f: Field, vs: seq<Value>): (r: Option<seq<Value>>)
    requires AllEncode(f, vs)
    ensures r.Some? ==> |r.value| == |vs|
    decreases FieldSize(f), 1, |vs|
  {
    if |vs| == 0 then Some([])
    else
      var r := MergedValue(f, Default(f), vs[0]);
      var more := Fresh(f, vs[1..]);
      if r == None || more == None then None else Some([r.value] + more.value)
  }

  function SlotAfter(f: Field, s: Slot, vs: seq<Value>): Option<Slot>
    requires AllEncode(f, vs)
    decreases FieldSize(f), 2
  {
    if |vs| == 0 then Some(s)
    else if f.rule.Repeated? then
      var r := Fresh(f, vs);
      if r == None || |s.values| + |vs| > f.rule.arraySize then None else Some(Slot(s.values + r.value))
    else
      var r := Applied(f, Stored(f, s), vs);
      if r == None then None else Some(Slot([r.value]))
  }

  function FieldAfter(fields: seq<Field>, slots: seq<Slot>, ps: seq<Piece>, i: nat): Option<Slot>
    requires |slots| == |fields| && PiecesOk(fields, ps) && i < |fields|
    decreases TreeSize(fields), 3, 0
  {
    var f, vs := fields[i], ValuesFor(ps, i);
    FieldIsSmaller(fields, i);
    ValuesForEncode(fields, ps, i);
    if f.rule.Oneof? then
      var r, last := Fresh(f, vs), LastMember(fields, ps, f.rule);
      if r == None then None
      else if last == None then Some(slots[i])
      else if last.value == i then Some(Slot([r.value[|vs| - 1]]))
      else Some(Slot([]))
    else SlotAfter(f, slots[i], vs)
  }

  // The fields after all pieces, each from its own values.
  function After(fields: seq<Field>, slots: seq<Slot>, ps: seq<Piece>): (r: Option<seq<Slot>>)
    requires |slots| == |fields| && PiecesOk(fields, ps)
    ensures r.Some? ==> |r.value| == |fields|
    decreases TreeSize(fields), 4
  {
    if AllTaken(fields, slots, ps) then
      Some(seq(|fields|, i requires 0 <= i < |fields| && FieldAfter(fields, slots, ps, i).Some? =>
        FieldAfter(fields, slots, ps, i).value))
    else None
  }

  predicate AllTaken(fields: seq<Field>, slots: seq<Slot>, ps: seq<Piece>)
    requires |slots| == |fields| && PiecesOk(fields, ps)
    decreases TreeSize(fields), 3, 1
  {
    forall i :: 0 <= i < |fields| ==> FieldAfter(fields, slots, ps, i).Some?
  }

  predicate RequiredThere(fields: seq<Field>, ps: seq<Piece>) {
    forall i :: 0 <= i < |fields| && fields[i].rule.Required? ==> ValuesFor(ps, i) != []
  }

  function Result(fields: seq<Field>, slots: seq<Slot>, ps: seq<Piece>): (r: Option<seq<Slot>>)
    requires |slots| == |fields| && PiecesOk(fields, ps)
    ensures r.Some? ==> |r.value| == |fields|
    decreases TreeSize(fields), 5
  {
    if CountOk(fields) && RequiredThere(fields, ps) then After(fields, slots, ps) else None
  }

  // ------------------------------------------- first one piece, then the rest

  lemma {:induction false} FreshAppends(f: Field, vs: seq<Value>, ws: seq<Value>)
    requires AllEncode(f, vs) && AllEncode(f, ws)
    ensures AllEncode(f, vs + ws)
    ensures Fresh(f, vs + ws)
      == if Fresh(f, vs) == None || Fresh(f, ws) == None then None else Some(Fresh(f, vs).value + Fresh(f, ws).value)
  {
    hide MergedValue, Encodes;
    if |vs| == 0 {
      assert vs + ws == ws;
      assert Fresh(f, ws).Some? ==> [] + Fresh(f, ws).value == Fresh(f, ws).value;
    } else {
      assert (vs + ws)[1..] == vs[1..] + ws && (vs + ws)[0] == vs[0];
      FreshAppends(f, vs[1..], ws);
      var r, more, all := MergedValue(f, Default(f), vs[0]), Fresh(f, vs[1..]), Fresh(f, ws);
      assert r.Some? && more.Some? && all.Some? ==> [r.value] + (more.value + all.value) == [r.value] + more.value + all.value;
    }
  }

  lemma {:induction false} AppliedAppends(f: Field, old_: Value, vs: seq<Value>, ws: seq<Value>)
    requires AllEncode(f, vs) && AllEncode(f, ws)
    ensures AllEncode(f, vs + ws)
    ensures Applied(f, old_, vs + ws) == (var r := Applied(f, old_, vs); if r == None then None else Applied(f, r.value, ws))
    decreases |vs|
  {
    hide MergedValue, Encodes;
    if |vs| == 0 {
      assert vs + ws == ws;
    } else {
      assert (vs + ws)[1..] == vs[1..] + ws;
      var r := MergedValue(f, old_, vs[0]);
      if r.Some? { AppliedAppends(f, r.value, vs[1..], ws); }
    }
  }

  lemma SlotAfterSplits(f: Field, s: Slot, vs: seq<Value>, ws: seq<Value>)
    requires AllEncode(f, vs) && AllEncode(f, ws) && (f.rule.Repeated? || |vs| <= 1)
    ensures AllEncode(f, vs + ws)
    ensures SlotAfter(f, s, vs + ws) == (var r := SlotAfter(f, s, vs); if r == None then None else SlotAfter(f, r.value, ws))
  {
    hide Fresh, Applied, Encodes;
    FreshAppends(f, vs, ws);
    AppliedAppends(f, Stored(f, s), vs, ws);
    assert |vs| == 0 ==> vs + ws == ws;
    assert |ws| == 0 ==> vs + ws == vs;
    var r := SlotAfter(f, s, vs);
    assert |vs| > 0 && f.rule.Repeated? && r.Some? && Fresh(f, ws).Some? ==>
      s.values + (Fresh(f, vs).value + Fresh(f, ws).value) == r.value.values + Fresh(f, ws).value;
  }

  lemma ValuesForFirst(p: Piece, ps: seq<Piece>, i: nat)
    ensures ValuesFor([p], i) == ValuesIn(p, i)
    ensures ValuesFor([p] + ps, i) == ValuesIn(p, i) + ValuesFor(ps, i)
  {
    assert ([p] + ps)[1..] == ps && [p][1..] == [] && ValuesFor([], i) == [];
  }

  lemma LastMemberFirst(fields: seq<Field>, p: Piece, ps: seq<Piece>, rule: Rule)
    requires PieceOk(fields, p) && PiecesOk(fields, ps)
    ensures PiecesOk(fields, [p]) && PiecesOk(fields, [p] + ps)
    ensures LastMember(fields, [p], rule) == if p.One? && fields[p.i].rule == rule then Some(p.i) else None
    ensures LastMember(fields, [p] + ps, rule)
      == if LastMember(fields, ps, rule).Some? then LastMember(fields, ps, rule) else LastMember(fields, [p], rule)
  {
    assert ([p] + ps)[1..] == ps && [p][1..] == [] && LastMember(fields, [], rule) == None;
  }

  lemma {:induction false} NoMember(fields: seq<Field>, ps: seq<Piece>, i: nat)
    requires PiecesOk(fields, ps) && i < |fields| && fields[i].rule.Oneof? && LastMember(fields, ps, fields[i].rule) == None
    ensures ValuesFor(ps, i) == []
  {
    if |ps| > 0 {
      assert PieceOk(fields, ps[0]);
      NoMember(fields, ps[1..], i);
    }
  }

  lemma MemberAfterSplits(fields: seq<Field>, slots: seq<Slot>, slots': seq<Slot>, p: Piece, ps: seq<Piece>, i: nat)
    requires |slots| == |slots'| == |fields| && PieceOk(fields, p) && PiecesOk(fields, ps) && i < |fields|
    requires fields[i].rule.Oneof? && PiecesOk(fields, [p]) && PiecesOk(fields, [p] + ps)
    requires FieldAfter(fields, slots, [p], i).Some? ==> FieldAfter(fields, slots, [p], i).value == slots'[i]
    ensures FieldAfter(fields, slots, [p] + ps, i)
      == if FieldAfter(fields, slots, [p], i) == None then None else FieldAfter(fields, slots', ps, i)
  {
    hide Fresh, Encodes, SlotAfter, LastMember, ValuesFor;
    var f := fields[i];
    FieldIsSmaller(fields, i);
    ValuesForFirst(p, ps, i);
    LastMemberFirst(fields, p, ps, f.rule);
    ValuesForEncode(fields, [p], i);
    ValuesForEncode(fields, ps, i);
    FreshAppends(f, ValuesFor([p], i), ValuesFor(ps, i));
    if LastMember(fields, ps, f.rule) == None {
      NoMember(fields, ps, i);
      NothingFresh(f);
      assert ValuesIn(p, i) + [] == ValuesIn(p, i);
    }
  }

  lemma NothingFresh(f: Field)
    ensures AllEncode(f, []) && Fresh(f, []) == Some([])
  {
  }

  lemma FieldAfterSplits(fields: seq<Field>, slots: seq<Slot>, slots': seq<Slot>, p: Piece, ps: seq<Piece>, i: nat)
    requires |slots| == |slots'| == |fields| && PieceOk(fields, p) && PiecesOk(fields, ps) && i < |fields|
    requires PiecesOk(fields, [p]) && PiecesOk(fields, [p] + ps)
    requires FieldAfter(fields, slots, [p], i).Some? ==> FieldAfter(fields, slots, [p], i).value == slots'[i]
    ensures FieldAfter(fields, slots, [p] + ps, i)
      == if FieldAfter(fields, slots, [p], i) == None then None else FieldAfter(fields, slots', ps, i)
  {
    hide Fresh, Encodes, SlotAfter, LastMember, ValuesFor;
    if fields[i].rule.Oneof? {
      MemberAfterSplits(fields, slots, slots', p, ps, i);
    } else {
      FieldIsSmaller(fields, i);
      ValuesForFirst(p, ps, i);
      ValuesForEncode(fields, [p], i);
      ValuesForEncode(fields, ps, i);
      SlotAfterSplits(fields[i], slots[i], ValuesFor([p], i), ValuesFor(ps, i));
    }
  }

  lemma SameAfter(fields: seq<Field>, slots: seq<Slot>, ps: seq<Piece>, slots': seq<Slot>, ps': seq<Piece>)
    requires |slots| == |slots'| == |fields| && PiecesOk(fields, ps) && PiecesOk(fields, ps')
    requires forall i :: 0 <= i < |fields| ==> FieldAfter(fields, slots, ps, i) == FieldAfter(fields, slots', ps', i)
    ensures After(fields, slots, ps) == After(fields, slots', ps')
  {
    hide FieldAfter, PieceOk;
    assert AllTaken(fields, slots, ps) <==> AllTaken(fields, slots', ps');
    if AllTaken(fields, slots, ps) {
      var r, r' := After(fields, slots, ps).value, After(fields, slots', ps').value;
      assert forall i :: 0 <= i < |fields| ==> r[i] == FieldAfter(fields, slots, ps, i).value == r'[i];
      assert r == r';
    }
  }

  // The first piece, and then the others on top of it.
  lemma AfterSplits(fields: seq<Field>, slots: seq<Slot>, p: Piece, ps: seq<Piece>)
    requires |slots| == |fields| && PieceOk(fields, p) && PiecesOk(fields, ps)
    ensures PiecesOk(fields, [p]) && PiecesOk(fields, [p] + ps)
    ensures After(fields, slots, [p] + ps)
      == (var r := After(fields, slots, [p]); if r == None then None else After(fields, r.value, ps))
  {
    hide FieldAfter, PieceOk;
    var r := After(fields, slots, [p]);
    var slots' := if r.Some? then r.value else slots;
    assert r.Some? <==> AllTaken(fields, slots, [p]);
    if r.Some? {
      forall i | 0 <= i < |fields|
        ensures FieldAfter(fields, slots, [p] + ps, i) == FieldAfter(fields, slots', ps, i)
      {
        FieldAfterSplits(fields, slots, slots', p, ps, i);
      }
      SameAfter(fields, slots, [p] + ps, slots', ps);
    } else {
      var i :| 0 <= i < |fields| && FieldAfter(fields, slots, [p], i) == None;
      FieldAfterSplits(fields, slots, slots', p, ps, i);
    }
  }

  // ------------------------------------------------ what one piece changes

  // No value for the field, and none for another member of its union.
  lemma FieldStays(fields: seq<Field>, slots: seq<Slot>, p: Piece, j: nat)
    requires |slots| == |fields| && PieceOk(fields, p) && PiecesOk(fields, [p]) && j < |fields|
    requires ValuesIn(p, j) == [] && (fields[j].rule.Oneof? && p.One? ==> fields[p.i].rule != fields[j].rule)
    ensures FieldAfter(fields, slots, [p], j) == Some(slots[j])
  {
    hide Encodes, ValuesFor, LastMember;
    FieldIsSmaller(fields, j);
    ValuesForFirst(p, [], j);
    LastMemberFirst(fields, p, [], fields[j].rule);
  }

  lemma OnlyFieldChanges(fields: seq<Field>, slots: seq<Slot>, p: Piece, i: nat, slot: Option<Slot>)
    requires |slots| == |fields| && PieceOk(fields, p) && PiecesOk(fields, [p]) && i < |fields|
    requires FieldAfter(fields, slots, [p], i) == slot
    requires forall j :: 0 <= j < |fields| && j != i ==> FieldAfter(fields, slots, [p], j) == Some(slots[j])
    ensures After(fields, slots, [p]) == if slot == None then None else Some(slots[i := slot.value])
  {
    hide FieldAfter, PieceOk;
    assert AllTaken(fields, slots, [p]) <==> slot.Some?;
    if slot.Some? {
      assert After(fields, slots, [p]).value == slots[i := slot.value];
    }
  }

  lemma OneValue(f: Field, s: Slot, v: Value)
    requires Encodes(f, v) && !f.rule.Oneof?
    ensures AllEncode(f, [v])
    ensures var r := MergedValue(f, if f.rule.Repeated? then Default(f) else Stored(f, s), v);
      SlotAfter(f, s, [v])
      == if r == None || (f.rule.Repeated? && |s.values| >= f.rule.arraySize) then None
         else Some(Slot((if f.rule.Repeated? then s.values else []) + [r.value]))
  {
    hide MergedValue, Encodes;
    var vs := [v];
    assert vs[1..] == [] && vs[0] == v;
    NothingFresh(f);
    var r := MergedValue(f, Default(f), v);
    assert r.Some? ==> [r.value] + [] == [r.value];
    var q := MergedValue(f, Stored(f, s), v);
    assert q.Some? ==> Applied(f, q.value, []) == q && [] + [q.value] == [q.value];
  }

  // A value of a field outside unions.
  lemma AfterOne(fields: seq<Field>, slots: seq<Slot>, i: nat, v: Value)
    requires |slots| == |fields| && PieceOk(fields, One(i, v)) && !fields[i].rule.Oneof?
    ensures PiecesOk(fields, [One(i, v)])
    ensures var f, s := fields[i], slots[i];
      var r := MergedValue(f, if f.rule.Repeated? then Default(f) else Stored(f, s), v);
      After(fields, slots, [One(i, v)])
      == if r == None || (f.rule.Repeated? && |s.values| >= f.rule.arraySize) then None
         else Some(slots[i := Slot((if f.rule.Repeated? then s.values else []) + [r.value])])
  {
    hide MergedValue, Encodes, SlotAfter, FieldAfter, After, ValuesFor;
    var p := One(i, v);
    forall j | 0 <= j < |fields| && j != i ensures FieldAfter(fields, slots, [p], j) == Some(slots[j]) {
      FieldStays(fields, slots, p, j);
    }
    OneValue(fields[i], slots[i], v);
    OwnValues(fields, slots, p, i);
    OnlyFieldChanges(fields, slots, p, i, SlotAfter(fields[i], slots[i], [v]));
  }

  lemma OwnValues(fields: seq<Field>, slots: seq<Slot>, p: Piece, i: nat)
    requires |slots| == |fields| && PieceOk(fields, p) && PiecesOk(fields, [p]) && i < |fields| && !fields[i].rule.Oneof?
    ensures AllEncode(fields[i], ValuesIn(p, i))
    ensures FieldAfter(fields, slots, [p], i) == SlotAfter(fields[i], slots[i], ValuesIn(p, i))
  {
    hide Encodes, ValuesFor, SlotAfter;
    FieldIsSmaller(fields, i);
    ValuesForFirst(p, [], i);
    ValuesForEncode(fields, [p], i);
  }

  lemma OneFresh(f: Field, v: Value)
    requires Encodes(f, v)
    ensures AllEncode(f, [v])
    ensures Fresh(f, [v]) == (var r := MergedValue(f, Default(f), v); if r == None then None else Some([r.value]))
  {
    hide MergedValue, Encodes;
    var vs := [v];
    assert vs[1..] == [] && vs[0] == v;
    NothingFresh(f);
    var r := MergedValue(f, Default(f), v);
    assert r.Some? ==> [r.value] + [] == [r.value];
  }

  // A value of a union member.
  lemma AfterMember(fields: seq<Field>, slots: seq<Slot>, i: nat, v: Value)
    requires |slots| == |fields| && PieceOk(fields, One(i, v)) && fields[i].rule.Oneof?
    ensures PiecesOk(fields, [One(i, v)])
    ensures After(fields, slots, [One(i, v)])
      == (var r := MergedValue(fields[i], Default(fields[i]), v);
          if r == None then None else Some(SetMember(fields, slots, i, r.value)))
  {
    hide MergedValue, Encodes, FieldAfter;
    var p := One(i, v);
    var r := MergedValue(fields[i], Default(fields[i]), v);
    forall j | 0 <= j < |fields|
      ensures FieldAfter(fields, slots, [p], j)
        == if j == i then (if r == None then None else Some(Slot([r.value])))
           else Some(if fields[j].rule == fields[i].rule then Slot([]) else slots[j])
    {
      MemberAfterOne(fields, slots, i, v, j);
    }
    assert AllTaken(fields, slots, [p]) <==> r.Some?;
    if r.Some? {
      assert After(fields, slots, [p]).value == SetMember(fields, slots, i, r.value);
    }
  }

  lemma MemberAfterOne(fields: seq<Field>, slots: seq<Slot>, i: nat, v: Value, j: nat)
    requires |slots| == |fields| && PieceOk(fields, One(i, v)) && PiecesOk(fields, [One(i, v)])
    requires fields[i].rule.Oneof? && j < |fields|
    ensures var r := MergedValue(fields[i], Default(fields[i]), v);
      FieldAfter(fields, slots, [One(i, v)], j)
      == if j == i then (if r == None then None else Some(Slot([r.value])))
         else Some(if fields[j].rule == fields[i].rule then Slot([]) else slots[j])
  {
    hide MergedValue, Encodes, ValuesFor, LastMember, Fresh;
    var p := One(i, v);
    if j != i && fields[j].rule != fields[i].rule {
      FieldStays(fields, slots, p, j);
    } else {
      FieldIsSmaller(fields, j);
      ValuesForFirst(p, [], j);
      LastMemberFirst(fields, p, [], fields[j].rule);
      OneFresh(fields[i], v);
      NothingFresh(fields[j]);
    }
  }

  lemma {:induction false} NumbersFresh(f: Field, vs: seq<Value>)
    requires Packable(f.kind) && AllEncode(f, vs)
    ensures Fresh(f, vs) == Some(vs)
  {
    hide Encodes;
    if |vs| > 0 {
      NumbersFresh(f, vs[1..]);
      assert [vs[0]] + vs[1..] == vs;
    }
  }

  lemma AfterPacked(fields: seq<Field>, slots: seq<Slot>, i: nat, values: seq<Value>)
    requires |slots| == |fields| && PieceOk(fields, Packed(i, values))
    ensures PiecesOk(fields, [Packed(i, values)])
    ensures After(fields, slots, [Packed(i, values)])
      == if |values| > 0 && |slots[i].values| + |values| > fields[i].rule.arraySize then None
         else Some(slots[i := Slot(slots[i].values + values)])
  {
    hide Encodes, Fresh, FieldAfter, After, ValuesFor;
    var p := Packed(i, values);
    forall j | 0 <= j < |fields| && j != i ensures FieldAfter(fields, slots, [p], j) == Some(slots[j]) {
      FieldStays(fields, slots, p, j);
    }
    NumbersFresh(fields[i], values);
    OwnValues(fields, slots, p, i);
    assert |values| == 0 ==> slots[i].values + values == slots[i].values;
    OnlyFieldChanges(fields, slots, p, i, SlotAfter(fields[i], slots[i], values));
  }

  lemma AfterUnknown(fields: seq<Field>, slots: seq<Slot>, f: Field, v: Value)
    requires |slots| == |fields| && PieceOk(fields, Unknown(f, v))
    ensures PiecesOk(fields, [Unknown(f, v)]) && After(fields, slots, [Unknown(f, v)]) == Some(slots)
  {
    hide Encodes, FieldAfter, ValuesFor;
    var p := Unknown(f, v);
    forall j | 0 <= j < |fields| ensures FieldAfter(fields, slots, [p], j) == Some(slots[j]) {
      FieldStays(fields, slots, p, j);
    }
    assert AllTaken(fields, slots, [p]);
    assert After(fields, slots, [p]).value == slots;
  }

  // --------------------------------------------------------- unknown fields

  lemma {:induction false} SkipsVarint(v: nat, rest: Bytes)
    ensures SkipVarint(Varint(v) + rest) == Some(rest)
    decreases v
  {
    var b := Varint(v) + rest;
    if v < 128 {
      assert b[1..] == rest;
    } else {
      assert b[1..] == Varint(v / 128) + rest;
      SkipsVarint(v / 128, rest);
    }
  }

  // The wire type that the encoder writes tells a reader who does not know the
  // field where it ends.
  lemma TaggedValueIsSkipped(f: Field, v: Value, rest: Bytes)
    requires 0 < f.tag <= MAX_TAG && Encodes(f, v)
    ensures var t := DecodeTag(Tagged(f, v) + rest);
      && t.TagIs? && t.tag == f.tag && t.rest == EncodeValue(f, v).value + rest
      && Skip(t.wire, t.rest) == Some(rest)
  {
    hide EncodeValue, DecodeTag, Tag;
    var e := EncodeValue(f, v).value;
    assert Tagged(f, v) + rest == Tag(WireTypeOf(f.kind), f.tag) + (e + rest);
    TagComesBack(WireTypeOf(f.kind), f.tag, e + rest);
    ValueIsSkipped(f, v, rest);
  }

  lemma ValueIsSkipped(f: Field, v: Value, rest: Bytes)
    requires Encodes(f, v)
    ensures Skip(WireNumber(WireTypeOf(f.kind)), EncodeValue(f, v).value + rest) == Some(rest)
  {
    hide Varint, TakeDelimited, SkipVarint;
    match f.kind
    case VarInt => SkipsVarint(Unsigned(v.v), rest);
    case UVarInt => SkipsVarint(v.v, rest);
    case SVarInt => SkipsVarint(ZigZag(v.v), rest);
    case Fixed32 => TakesBytes(EncodeFixed32(v.w), rest);
    case Fixed64 => TakesBytes(EncodeFixed64(v.w), rest);
    case Submessage(sub) =>
      DelimitedIsLonger(EncodeFrom(sub, v.slots, 0).value);
      TakesDelimited(EncodeFrom(sub, v.slots, 0).value, rest);
    case _ =>
      DelimitedIsLonger(v.d);
      TakesDelimited(v.d, rest);
  }

  lemma DelimitedIsLonger(d: Bytes)
    ensures |d| < |Delimited(d)|
  {
  }

  // ------------------------------------------------------------- decoding

  lemma {:induction false} PackedAppends(f: Field, before: seq<Value>, values: seq<Value>, j: nat, arraySize: nat)
    requires j <= |values| && Packable(f.kind) && forall i :: 0 <= i < |values| ==> ValueOk(f, values[i])
    ensures EncodeItems(f, values, j, false).Some?
    ensures DecodePacked(f, before + values[..j], arraySize, EncodeItems(f, values, j, false).value)
      == if j < |values| && |before| + |values| > arraySize then None else Some(before + values)
    decreases |values| - j
  {
    if j == |values| {
      assert values[..j] == values;
    } else {
      PackedAppends(f, before, values, j + 1, arraySize);
      NumberDecodes(f, values[j], Default(f), EncodeItems(f, values, j + 1, false).value);
      assert before + values[..j] + [values[j]] == before + values[..j + 1];
      if j + 1 == |values| { assert EncodeItems(f, values, j + 1, false) == Some([]); }
    }
  }

  // A value is merged into what is stored.
  lemma {:induction false} ValueMerges(f: Field, old_: Value, v: Value, rest: Bytes)
    requires FieldOk(f) && Encodes(f, v)
    ensures var r := MergedValue(f, old_, v);
      DecodeValue(f, old_, EncodeValue(f, v).value + rest) == if r == None then None else Some((r.value, rest))
    decreases FieldSize(f), 0
  {
    if f.kind.Submessage? {
      var sub, e := f.kind.fields, EncodeFrom(f.kind.fields, v.slots, 0).value;
      DelimitedIsLonger(e);
      TakesDelimited(e, rest);
      PiecesFromOk(sub, v.slots, 0);
      EncodedIsPieces(sub, v.slots, 0);
      PiecesDecode(sub, SlotsOf(sub, old_), PiecesFrom(sub, v.slots, 0));
    } else if Packable(f.kind) {
      NumberDecodes(f, v, old_, rest);
    } else {
      DataDecodes(f, v, old_, rest);
    }
  }

  function SeenAfter(fields: seq<Field>, seen: set<nat>, ps: seq<Piece>): set<nat>
    requires PiecesOk(fields, ps)
    decreases |ps|
  {
    if |ps| == 0 then seen
    else
      assert PieceOk(fields, ps[0]);
      SeenAfter(fields, if ps[0].Unknown? then seen else SeenWith(fields, seen, ps[0].i), ps[1..])
  }

  lemma {:induction false} OneDecodes(fields: seq<Field>, slots: seq<Slot>, seen: set<nat>, i: nat, v: Value, rest: Bytes)
    requires DescriptorOk(fields) && |slots| == |fields| && PieceOk(fields, One(i, v)) && PiecesOk(fields, [One(i, v)])
    ensures var a := After(fields, slots, [One(i, v)]);
      DecodeLoop(fields, slots, seen, Tagged(fields[i], v) + rest)
      == if a == None then None else DecodeLoop(fields, a.value, SeenWith(fields, seen, i), rest)
    decreases TreeSize(fields), 0
  {
    hide DecodeLoop, Tag, MergedValue, After, SetMember, DecodeValue, Varint;
    var f := fields[i];
    FieldIsSmaller(fields, i);
    var e := EncodeValue(f, v).value;
    assert Tagged(f, v) + rest == Tag(WireTypeOf(f.kind), f.tag) + (e + rest);
    LoopStep(fields, slots, seen, i, WireTypeOf(f.kind), e + rest);
    if f.rule.Oneof? {
      AfterMember(fields, slots, i, v);
      ValueMerges(f, Default(f), v, rest);
    } else {
      AfterOne(fields, slots, i, v);
      ValueMerges(f, if f.rule.Repeated? then Default(f) else Stored(f, slots[i]), v, rest);
      NothingBefore(MergedValue(f, Stored(f, slots[i]), v));
    }
  }

  lemma NothingBefore(r: Option<Value>)
    ensures r.Some? ==> [] + [r.value] == [r.value]
  {
  }

  lemma PackedDecodesOnto(fields: seq<Field>, slots: seq<Slot>, seen: set<nat>, i: nat, values: seq<Value>, rest: Bytes)
    requires DescriptorOk(fields) && |slots| == |fields|
    requires PieceOk(fields, Packed(i, values)) && PiecesOk(fields, [Packed(i, values)])
    ensures var a := After(fields, slots, [Packed(i, values)]);
      DecodeLoop(fields, slots, seen, PieceBytes(fields, Packed(i, values)) + rest)
      == if a == None then None else DecodeLoop(fields, a.value, SeenWith(fields, seen, i), rest)
  {
    hide DecodeLoop, Tag, After, DecodePacked, EncodeItems;
    var f, e := fields[i], ItemBytes(fields[i], values);
    assert PieceBytes(fields, Packed(i, values)) + rest == Tag(StringType, f.tag) + (Delimited(e) + rest);
    LoopStep(fields, slots, seen, i, StringType, Delimited(e) + rest);
    TakesDelimited(e, rest);
    PackedAppends(f, slots[i].values, values, 0, f.rule.arraySize);
    assert slots[i].values + values[..0] == slots[i].values;
    AfterPacked(fields, slots, i, values);
  }

  lemma {:induction false} NotFound(fields: seq<Field>, tag: nat)
    requires forall j :: 0 <= j < |fields| ==> fields[j].tag != tag
    ensures FindField(fields, tag) == |fields|
  {
  }

  lemma UnknownDecodes(fields: seq<Field>, slots: seq<Slot>, seen: set<nat>, f: Field, v: Value, rest: Bytes)
    requires |slots| == |fields| && PieceOk(fields, Unknown(f, v))
    ensures DecodeLoop(fields, slots, seen, Tagged(f, v) + rest) == DecodeLoop(fields, slots, seen, rest)
  {
    hide Tag, DecodeTag, Skip, Encodes;
    TaggedValueIsSkipped(f, v, rest);
    NotFound(fields, f.tag);
    assert |Tagged(f, v) + rest| > 0;
  }

  lemma {:induction false} PieceDecodes(fields: seq<Field>, slots: seq<Slot>, seen: set<nat>, p: Piece, rest: Bytes)
    requires DescriptorOk(fields) && |slots| == |fields| && PieceOk(fields, p) && PiecesOk(fields, [p])
    ensures var a := After(fields, slots, [p]);
      DecodeLoop(fields, slots, seen, PieceBytes(fields, p) + rest)
      == if a == None then None
         else DecodeLoop(fields, a.value, if p.Unknown? then seen else SeenWith(fields, seen, p.i), rest)
    decreases TreeSize(fields), 1
  {
    hide DecodeLoop, After, Encodes, SeenWith;
    match p
    case One(i, v) => OneDecodes(fields, slots, seen, i, v, rest);
    case Packed(i, values) => PackedDecodesOnto(fields, slots, seen, i, values, rest);
    case Unknown(f, v) =>
      UnknownDecodes(fields, slots, seen, f, v, rest);
      AfterUnknown(fields, slots, f, v);
  }

  lemma NothingAfter(fields: seq<Field>, slots: seq<Slot>)
    requires |slots| == |fields|
    ensures After(fields, slots, []) == Some(slots)
  {
    hide SlotAfter, Fresh;
    forall i | 0 <= i < |fields| ensures FieldAfter(fields, slots, [], i) == Some(slots[i]) {
      NothingFresh(fields[i]);
      NoChange(fields[i], slots[i]);
    }
    assert AllTaken(fields, slots, []);
    assert After(fields, slots, []).value == slots;
  }

  lemma NoChange(f: Field, s: Slot)
    ensures AllEncode(f, []) && SlotAfter(f, s, []) == Some(s)
  {
  }

  lemma FieldOfPiece(fields: seq<Field>, p: Piece)
    requires PieceOk(fields, p)
    ensures !p.Unknown? ==> p.i < |fields|
  {
  }

  lemma {:induction false} LoopDecodes(fields: seq<Field>, slots: seq<Slot>, seen: set<nat>, ps: seq<Piece>)
    requires DescriptorOk(fields) && |slots| == |fields| && PiecesOk(fields, ps)
    ensures var a := After(fields, slots, ps);
      DecodeLoop(fields, slots, seen, AllBytes(fields, ps))
      == if a == None then None else Some((a.value, SeenAfter(fields, seen, ps)))
    decreases TreeSize(fields), 2, |ps|
  {
    hide DecodeLoop, After, PieceOk, SeenWith;
    if |ps| == 0 {
      NothingLeft(fields, slots, seen);
      NothingAfter(fields, slots);
      assert ps == [];
    } else {
      var p, rest := ps[0], ps[1..];
      assert ps == [p] + rest;
      AfterSplits(fields, slots, p, rest);
      FieldOfPiece(fields, p);
      PieceDecodes(fields, slots, seen, p, AllBytes(fields, rest));
      var a := After(fields, slots, [p]);
      if a.Some? {
        LoopDecodes(fields, a.value, if p.Unknown? then seen else SeenWith(fields, seen, p.i), rest);
      }
    }
  }

  // ------------------------------------------------------ required fields

  lemma {:induction false} CountsUp(fields: seq<Field>, i: nat, j: nat)
    requires i <= j <= |fields|
    ensures RequiredBefore(fields, i) <= RequiredBefore(fields, j)
    ensures i < j && fields[i].rule.Required? ==> RequiredBefore(fields, i) < RequiredBefore(fields, j)
  {
    if i < j { CountsUp(fields, i, j - 1); }
  }

  lemma {:induction false} NthRequired(fields: seq<Field>, n: nat, k: nat) returns (i: nat)
    requires n <= |fields| && k < RequiredBefore(fields, n)
    ensures i < n && fields[i].rule.Required? && RequiredBefore(fields, i) == k
  {
    if k < RequiredBefore(fields, n - 1) {
      i := NthRequired(fields, n - 1, k);
    } else {
      i := n - 1;
    }
  }

  lemma {:induction false} SeenIsCounted(fields: seq<Field>, seen: set<nat>, ps: seq<Piece>, i: nat)
    requires PiecesOk(fields, ps) && i < |fields| && fields[i].rule.Required? && RequiredBefore(fields, i) < MAX_REQUIRED_FIELDS
    ensures RequiredBefore(fields, i) in SeenAfter(fields, seen, ps)
      <==> RequiredBefore(fields, i) in seen || ValuesFor(ps, i) != []
    decreases |ps|
  {
    if |ps| > 0 {
      var p := ps[0];
      assert PieceOk(fields, p);
      if !p.Unknown? {
        if p.i < i { CountsUp(fields, p.i, i); }
        if i < p.i { CountsUp(fields, i, p.i); }
      }
      SeenIsCounted(fields, if p.Unknown? then seen else SeenWith(fields, seen, p.i), ps[1..], i);
    }
  }

  lemma SeenIsThere(fields: seq<Field>, ps: seq<Piece>)
    requires PiecesOk(fields, ps)
    ensures AllSeen(fields, SeenAfter(fields, {}, ps)) <==> CountOk(fields) && RequiredThere(fields, ps)
  {
    hide SeenAfter, ValuesFor, PieceOk;
    if CountOk(fields) {
      forall i | 0 <= i < |fields| && fields[i].rule.Required?
        ensures RequiredBefore(fields, i) < RequiredBefore(fields, |fields|)
        ensures RequiredBefore(fields, i) in SeenAfter(fields, {}, ps) <==> ValuesFor(ps, i) != []
      {
        CountsUp(fields, i, |fields|);
        SeenIsCounted(fields, {}, ps, i);
      }
      if RequiredThere(fields, ps) {
        forall k | 0 <= k < RequiredBefore(fields, |fields|) ensures k in SeenAfter(fields, {}, ps) {
          var i := NthRequired(fields, |fields|, k);
        }
      }
    }
  }

  // The main theorem: whatever pieces a message has and in whatever order, it
  // decodes to what the values of each field come to.
  lemma {:induction false} PiecesDecode(fields: seq<Field>, slots: seq<Slot>, ps: seq<Piece>)
    requires DescriptorOk(fields) && |slots| == |fields| && PiecesOk(fields, ps)
    ensures DecodeMessage(fields, slots, AllBytes(fields, ps)) == Result(fields, slots, ps)
    decreases TreeSize(fields), 3
  {
    hide DecodeLoop, After, PieceOk, AllSeen, SeenAfter;
    LoopDecodes(fields, slots, {}, ps);
    SeenIsThere(fields, ps);
  }

  // ------------------------------------- an encoded message is its pieces

  lemma {:induction false} BytesAppend(fields: seq<Field>, ps: seq<Piece>, qs: seq<Piece>)
    requires PiecesOk(fields, ps) && PiecesOk(fields, qs)
    ensures PiecesOk(fields, ps + qs) && AllBytes(fields, ps + qs) == AllBytes(fields, ps) + AllBytes(fields, qs)
  {
    hide PieceOk;
    if |ps| == 0 {
      assert ps + qs == qs;
    } else {
      assert (ps + qs)[1..] == ps[1..] + qs;
      BytesAppend(fields, ps[1..], qs);
    }
  }

  function Singly(i: nat, vs: seq<Value>): seq<Piece> {
    seq(|vs|, k requires 0 <= k < |vs| => One(i, vs[k]))
  }

  lemma {:induction false} ItemsArePieces(fields: seq<Field>, i: nat, values: seq<Value>, j: nat)
    requires i < |fields| && j <= |values| && AllEncode(fields[i], values)
    ensures PiecesOk(fields, Singly(i, values[j..]))
    ensures EncodeItems(fields[i], values, j, true) == Some(AllBytes(fields, Singly(i, values[j..])))
    decreases |values| - j
  {
    var ps := Singly(i, values[j..]);
    if j == |values| {
      assert values[j..] == [] && ps == [];
    } else {
      assert ps[1..] == Singly(i, values[j + 1..]) && ps[0] == One(i, values[j]);
      ItemsArePieces(fields, i, values, j + 1);
    }
  }

  lemma SlotIsPieces(fields: seq<Field>, i: nat, s: Slot)
    requires i < |fields| && SlotOk(fields[i], s)
    requires var e := EncodeSlot(fields[i], s); e.Some? && |e.value| < TWO_TO_32
    ensures PiecesOk(fields, SlotPieces(i, fields[i], s))
    ensures EncodeSlot(fields[i], s).value == AllBytes(fields, SlotPieces(i, fields[i], s))
  {
    SlotPiecesOk(fields, i, s);
    hide Encodes, PieceOk;
    var f, ps := fields[i], SlotPieces(i, fields[i], s);
    if f.rule.Repeated? && Packable(f.kind) {
      if |s.values| > 0 { assert ps[1..] == []; }
    } else if |Written(f, s)| > 0 {
      assert Written(f, s) == s.values;
      if f.rule.Repeated? {
        ItemsAreOk(f, s.values, 0, true);
        assert s.values[0..] == s.values && ps == Singly(i, s.values);
        ItemsArePieces(fields, i, s.values, 0);
      } else {
        assert ps[1..] == [] && ps[0] == One(i, s.values[0]);
      }
    }
  }

  lemma {:induction false} EncodedIsPieces(fields: seq<Field>, slots: seq<Slot>, i: nat)
    requires SlotsOk(fields, slots) && i <= |fields|
    requires var e := EncodeFrom(fields, slots, i); e.Some? && |e.value| < TWO_TO_32
    ensures PiecesOk(fields, PiecesFrom(fields, slots, i))
    ensures EncodeFrom(fields, slots, i).value == AllBytes(fields, PiecesFrom(fields, slots, i))
    decreases |fields| - i
  {
    hide PieceOk, EncodeSlot, SlotPieces, SlotOk;
    if i < |fields| {
      FieldIsSmaller(fields, i);
      SlotIsPieces(fields, i, slots[i]);
      EncodedIsPieces(fields, slots, i + 1);
      BytesAppend(fields, SlotPieces(i, fields[i], slots[i]), PiecesFrom(fields, slots, i + 1));
    }
  }
}
