// The bytewise comparator and the internal key comparator built on it.

module Comparator {
  import opened Coding

  // Slice::compare: lexicographic, a prefix before its extensions.
  predicate Less(a: Bytes, b: Bytes) {
    |b| > 0 && (|a| == 0 || a[0] < b[0] || (a[0] == b[0] && Less(a[1..], b[1..])))
  }

  lemma {:induction false} LessIsTotal(a: Bytes, b: Bytes)
    ensures Less(a, b) || Less(b, a) || a == b
    ensures !(Less(a, b) && Less(b, a)) && !Less(a, a)
  {
    if |a| > 0 && |b| > 0 {
      LessIsTotal(a[1..], b[1..]);
      LessIsTotal(a[1..], a[1..]);
      assert a == [a[0]] + a[1..] && b == [b[0]] + b[1..];
    } else if |a| > 0 {
      LessIsTotal(a[1..], a[1..]);
    }
  }

  lemma {:induction false} LessIsTransitive(a: Bytes, b: Bytes, c: Bytes)
    requires Less(a, b) && Less(b, c)
    ensures Less(a, c)
  {
    if |a| > 0 && a[0] == b[0] && b[0] == c[0] { LessIsTransitive(a[1..], b[1..], c[1..]); }
  }

  // ------------------------------------------- keys as real numbers

  // A string as a base-257 fraction. The database model orders user keys as
  // real numbers; this embedding shows that bytewise order is such an order.
  ghost function Rank(s: Bytes): (r: real)
    ensures 0.0 <= r < 1.0
  {
    if |s| == 0 then 0.0 else (s[0] as real + 1.0 + Rank(s[1..])) / 257.0
  }

  lemma {:induction false} RankIsOrder(a: Bytes, b: Bytes)
    ensures Less(a, b) <==> Rank(a) < Rank(b)
  {
    if |a| > 0 && |b| > 0 {
      RankIsOrder(a[1..], b[1..]);
      var x, y := a[0] as real + 1.0 + Rank(a[1..]), b[0] as real + 1.0 + Rank(b[1..]);
      assert Rank(a) == x / 257.0 && Rank(b) == y / 257.0;
      assert Rank(a) < Rank(b) <==> x < y;
      if a[0] < b[0] { assert a[0] as real + 1.0 <= b[0] as real; }
      if a[0] > b[0] { assert b[0] as real + 1.0 <= a[0] as real; }
    }
  }

  lemma RankIsInjective(a: Bytes, b: Bytes)
    ensures Rank(a) == Rank(b) <==> a == b
  {
    LessIsTotal(a, b);
    RankIsOrder(a, b);
    RankIsOrder(b, a);
  }

  // ------------------------------------------------------------ shortening

  // Changing strings at one position behind a common prefix.
  lemma {:induction false} LessAt(a: Bytes, b: Bytes, n: nat)
    requires n <= |a| && n <= |b| && a[..n] == b[..n]
    ensures n == |a| && n < |b| ==> Less(a, b)
    ensures n == |b| ==> !Less(a, b)
    ensures n < |a| && n < |b| && a[n] < b[n] ==> Less(a, b)
    ensures n < |a| && n < |b| && a[n] > b[n] ==> !Less(a, b)
  {
    if n > 0 {
      assert a[0] == a[..n][0] == b[..n][0] == b[0];
      assert a[1..][..n - 1] == a[..n][1..] == b[..n][1..] == b[1..][..n - 1];
      LessAt(a[1..], b[1..], n - 1);
    }
  }

  lemma Increment(a: Bytes, n: nat)
    requires n < |a| && a[n] < 255
    ensures Less(a, a[..n] + [a[n] + 1])
  {
    var r: Bytes := a[..n] + [a[n] + 1];
    assert r[..n] == a[..n];
    LessAt(a, r, n);
  }

  // Behind a common prefix the bytes at d leave room for one in between.
  ghost predicate HasRoomAt(start: Bytes, limit: Bytes, d: nat) {
    d < |start| && d < |limit| && start[..d] == limit[..d] && (start[d] as int) + 1 < limit[d]
  }

  // The key with its byte at d raised by one, and cut behind it.
  function RaisedAt(key: Bytes, d: nat): Bytes
    requires d < |key| && key[d] < 255
  {
    key[..d] + [key[d] + 1]
  }

  // Nothing that lies in between is shorter.
  lemma {:induction false} NothingShorterBetween(start: Bytes, limit: Bytes, d: nat, s: Bytes)
    requires HasRoomAt(start, limit, d) && Less(start, s) && Less(s, limit)
    ensures |RaisedAt(start, d)| <= |s|
  {
    if d > 0 {
      assert start[..d][0] == limit[..d][0];
      assert start[..d][1..] == start[1..][..d - 1] && limit[..d][1..] == limit[1..][..d - 1];
      NothingShorterBetween(start[1..], limit[1..], d - 1, s[1..]);
    }
  }

  lemma RoomIsBehindPrefix(start: Bytes, limit: Bytes, d: nat)
    requires d <= |start| && d <= |limit| && start[..d] == limit[..d]
    requires d == |start| || d == |limit| || start[d] != limit[d]
    ensures forall e: nat :: HasRoomAt(start, limit, e) ==> e == d
  {
    assert forall j :: 0 <= j < d ==> start[..d][j] == start[j] && limit[..d][j] == limit[j];
    forall e: nat | HasRoomAt(start, limit, e) ensures e == d {
      assert forall j :: 0 <= j < e ==> start[..e][j] == start[j] && limit[..e][j] == limit[j];
    }
  }

  // A string at least start and below limit, if start is below limit: start
  // itself, or the shortest string strictly in between if there is room behind
  // the common prefix.
  method FindShortestSeparator(start: Bytes, limit: Bytes) returns (r: Bytes)
    ensures r == start || (Less(start, r) && Less(r, limit) && |r| <= |start| && Less(start, limit))
    ensures forall d: nat :: HasRoomAt(start, limit, d) ==> r == RaisedAt(start, d) && r != start
    ensures (forall d: nat :: !HasRoomAt(start, limit, d)) ==> r == start
  {
    var minLength := if |start| < |limit| then |start| else |limit|;
    var d := 0;
    while d < minLength && start[d] == limit[d]
      invariant d <= minLength && start[..d] == limit[..d]
    {
      d := d + 1;
    }
    r := start;
    RoomIsBehindPrefix(start, limit, d);
    if d < minLength {
      if start[d] < 0xff && start[d] + 1 < limit[d] {
        r := start[..d] + [start[d] + 1];
        assert HasRoomAt(start, limit, d) && r[d] != start[d];
        Increment(start, d);
        assert r[..d] == limit[..d];
        LessAt(r, limit, d);
        LessAt(start, limit, d);
      }
    }
  }

  // The first byte that is not 0xff.
  ghost predicate FirstToRaise(key: Bytes, i: nat) {
    i < |key| && key[i] != 0xff && forall j :: 0 <= j < i ==> key[j] == 0xff
  }

  // Nothing above the key is shorter.
  lemma {:induction false} NothingShorterAbove(key: Bytes, i: nat, s: Bytes)
    requires FirstToRaise(key, i) && Less(key, s)
    ensures |RaisedAt(key, i)| <= |s|
  {
    if i > 0 { NothingShorterAbove(key[1..], i - 1, s[1..]); }
  }

  // A string at least the key: the key itself if all its bytes are 0xff,
  // otherwise a shortest string above it.
  method FindShortSuccessor(key: Bytes) returns (r: Bytes)
    ensures r == key || (Less(key, r) && |r| <= |key|)
    ensures r == key <==> forall b :: b in key ==> b == 0xff
    ensures forall i: nat :: FirstToRaise(key, i) ==> r == RaisedAt(key, i)
    ensures r != key ==> exists i: nat :: FirstToRaise(key, i)
  {
    var i := 0;
    while i < |key|
      invariant i <= |key| && forall j :: 0 <= j < i ==> key[j] == 0xff
    {
      if key[i] != 0xff {
        r := key[..i] + [key[i] + 1];
        Increment(key, i);
        assert key[i] in key && r[i] != key[i] && FirstToRaise(key, i);
        return;
      }
      i := i + 1;
    }
    r := key;
  }
}

module DbFormat {
  import opened Coding
  import opened Comparator
  import Entries

  const TYPE_DELETION := 0
  const TYPE_VALUE := 1
  const VALUE_TYPE_FOR_SEEK := TYPE_VALUE

  function PackSequenceAndType(s: nat, t: nat): (n: nat)
    requires s <= Entries.MAX_SEQUENCE_NUMBER && t <= VALUE_TYPE_FOR_SEEK
    ensures n < TWO_TO_64
  {
    s * 256 + t
  }

  // An internal key: the user key and an eight-byte tag.
  predicate IsInternal(key: Bytes) { |key| >= 8 }

  function ExtractUserKey(key: Bytes): Bytes
    requires IsInternal(key)
  {
    key[..|key| - 8]
  }

  function Tag(key: Bytes): nat
    requires IsInternal(key)
  {
    DecodeFixed64(key[|key| - 8..])
  }

  function InternalKey(user: Bytes, s: nat, t: nat): (key: Bytes)
    requires s <= Entries.MAX_SEQUENCE_NUMBER && t <= VALUE_TYPE_FOR_SEEK
    ensures IsInternal(key)
  {
    user + EncodeFixed64(PackSequenceAndType(s, t))
  }

  lemma InternalKeyParts(user: Bytes, s: nat, t: nat)
    requires s <= Entries.MAX_SEQUENCE_NUMBER && t <= VALUE_TYPE_FOR_SEEK
    ensures var key := InternalKey(user, s, t); ExtractUserKey(key) == user && Tag(key) == PackSequenceAndType(s, t)
  {
    var n := PackSequenceAndType(s, t);
    Fixed64RoundTrip(n);
    var key := InternalKey(user, s, t);
    assert key[|key| - 8..] == EncodeFixed64(n);
  }

  // InternalKeyComparator::Compare: user key ascending, then tag descending.
  predicate InternalLess(a: Bytes, b: Bytes)
    requires IsInternal(a) && IsInternal(b)
  {
    || Less(ExtractUserKey(a), ExtractUserKey(b))
    || (ExtractUserKey(a) == ExtractUserKey(b) && Tag(a) > Tag(b))
  }

  // On well-formed keys this is the order of entries in the database model,
  // with the operation type deciding between equal sequence numbers.
  lemma InternalOrderIsEntryOrder(u: Bytes, s: nat, t: nat, u': Bytes, s': nat, t': nat)
    requires s <= Entries.MAX_SEQUENCE_NUMBER && t <= VALUE_TYPE_FOR_SEEK
    requires s' <= Entries.MAX_SEQUENCE_NUMBER && t' <= VALUE_TYPE_FOR_SEEK
    ensures InternalLess(InternalKey(u, s, t), InternalKey(u', s', t'))
      <==> Less(u, u') || (u == u' && (s > s' || (s == s' && t > t')))
    ensures s != s' || u != u' ==>
      forall op, op' :: InternalLess(InternalKey(u, s, t), InternalKey(u', s', t'))
        <==> Entries.Before(Entries.Entry(Rank(u), s, op), Entries.Entry(Rank(u'), s', op'))
  {
    InternalKeyParts(u, s, t);
    InternalKeyParts(u', s', t');
    RankIsOrder(u, u');
    RankIsInjective(u, u');
  }

  // A key at or after start and before limit. When it is not start itself,
  // its user key lies strictly between the two user keys.
  method FindShortestSeparator(start: Bytes, limit: Bytes) returns (r: Bytes)
    requires IsInternal(start) && IsInternal(limit)
    ensures IsInternal(r) && |r| <= |start|
    ensures r == start || (Less(ExtractUserKey(start), ExtractUserKey(r)) && Less(ExtractUserKey(r), ExtractUserKey(limit)))
    ensures r == start || InternalLess(start, r)
    ensures InternalLess(start, limit) ==> InternalLess(r, limit)
    ensures var user, userLimit := ExtractUserKey(start), ExtractUserKey(limit);
      && (forall d: nat :: HasRoomAt(user, userLimit, d) && d + 1 < |user| ==>
            r == InternalKey(RaisedAt(user, d), Entries.MAX_SEQUENCE_NUMBER, VALUE_TYPE_FOR_SEEK))
      && ((forall d: nat :: HasRoomAt(user, userLimit, d) ==> d + 1 >= |user|) ==> r == start)
  {
    var userStart, userLimit := ExtractUserKey(start), ExtractUserKey(limit);
    var tmp := Comparator.FindShortestSeparator(userStart, userLimit);
    r := start;
    if |tmp| < |userStart| && Less(userStart, tmp) {
      LessIsTotal(userStart, tmp);
      InternalKeyParts(tmp, Entries.MAX_SEQUENCE_NUMBER, VALUE_TYPE_FOR_SEEK);
      r := InternalKey(tmp, Entries.MAX_SEQUENCE_NUMBER, VALUE_TYPE_FOR_SEEK);
    }
  }

  method FindShortSuccessor(key: Bytes) returns (r: Bytes)
    requires IsInternal(key)
    ensures IsInternal(r) && |r| <= |key|
    ensures r == key || (InternalLess(key, r) && Less(ExtractUserKey(key), ExtractUserKey(r)))
    ensures var user := ExtractUserKey(key);
      && (forall i: nat :: FirstToRaise(user, i) && i + 1 < |user| ==>
            r == InternalKey(RaisedAt(user, i), Entries.MAX_SEQUENCE_NUMBER, VALUE_TYPE_FOR_SEEK))
      && ((forall i: nat :: FirstToRaise(user, i) ==> i + 1 >= |user|) ==> r == key)
  {
    var user := ExtractUserKey(key);
    var tmp := Comparator.FindShortSuccessor(user);
    r := key;
    if |tmp| < |user| && Less(user, tmp) {
      InternalKeyParts(tmp, Entries.MAX_SEQUENCE_NUMBER, VALUE_TYPE_FOR_SEEK);
      r := InternalKey(tmp, Entries.MAX_SEQUENCE_NUMBER, VALUE_TYPE_FOR_SEEK);
    }
  }
}
