/** Internal keys as bytes (db/dbformat.h, db/dbformat.cc) under the default comparator
    (util/comparator.cc), memtable entries (db/memtable.cc), and why user keys may be modelled by
    real numbers: the bytewise order embeds in them. */
module InternalKeys {
  import opened DbFormat
  import opened Coding

  // ---- Bytewise order ----

  /** Slice::compare as a relation: memcmp on the common length, then the shorter first. */
  predicate BytesLess(a: Bytes, b: Bytes) {
    b != [] && (a == [] || a[0] < b[0] || (a[0] == b[0] && BytesLess(a[1..], b[1..])))
  }

  function Rank(a: Bytes): (r: real)
    ensures 0.0 <= r < 1.0
  {
    if a == [] then 0.0 else ((a[0] as real) + 1.0 + Rank(a[1..])) / 257.0
  }

  /** The rank keeps and reflects the bytewise order. */
  lemma {:induction false} RankOrders(a: Bytes, b: Bytes)
    ensures BytesLess(a, b) <==> Rank(a) < Rank(b)
    ensures Rank(a) == Rank(b) <==> a == b
  {
    if a != [] && b != [] {
      RankOrders(a[1..], b[1..]);
      assert a[0] < b[0] ==> (a[0] as real) + 1.0 <= b[0] as real;
      assert b[0] < a[0] ==> (b[0] as real) + 1.0 <= a[0] as real;
      assert a == b <==> a[0] == b[0] && a[1..] == b[1..] by {
        assert a == [a[0]] + a[1..] && b == [b[0]] + b[1..];
      }
    }
  }

  // ---- Internal keys ----

  datatype ParsedInternalKey = ParsedInternalKey(user: Bytes, num: nat, code: nat)

  /** What the asserts of PackSequenceAndType demand. */
  predicate Packable(k: ParsedInternalKey) {
    k.num <= MAX_SEQUENCE && k.code <= 1
  }

  function AppendInternalKey(k: ParsedInternalKey): (b: Bytes)
    ensures |b| == |k.user| + 8
  {
    k.user + PutFixed64(PackSequenceAndType(k.num, k.code))
  }

  function ExtractUserKey(b: Bytes): Bytes
    requires |b| >= 8
  {
    b[..|b| - 8]
  }

  function TagOf(b: Bytes): nat
    requires |b| >= 8
  {
    FixedValue(b[|b| - 8..])
  }

  /** Fails on a short key and on an unknown type byte. */
  function ParseInternalKey(b: Bytes): Option<ParsedInternalKey> {
    if |b| < 8 || TagOf(b) % 256 > 1 then None
    else Some(ParsedInternalKey(ExtractUserKey(b), TagOf(b) / 256, TagOf(b) % 256))
  }

  lemma AppendedParts(k: ParsedInternalKey)
    requires Packable(k)
    ensures var b := AppendInternalKey(k); ExtractUserKey(b) == k.user && TagOf(b) == PackSequenceAndType(k.num, k.code)
  {
    var b := AppendInternalKey(k);
    FixedWidths();
    FixedRoundTrip(PackSequenceAndType(k.num, k.code), 8);
    assert b[|b| - 8..] == PutFixed64(PackSequenceAndType(k.num, k.code));
  }

  lemma ParseAppended(k: ParsedInternalKey)
    requires Packable(k)
    ensures ParseInternalKey(AppendInternalKey(k)) == Some(k)
  {
    AppendedParts(k);
    Unpack(k.num, k.code);
  }

  lemma Unpack(num: nat, code: nat)
    requires code < 256
    ensures PackSequenceAndType(num, code) / 256 == num && PackSequenceAndType(num, code) % 256 == code
  {
  }

  /** InternalKeyComparator::Compare, negative case. */
  predicate KeyLess(a: Bytes, b: Bytes)
    requires |a| >= 8 && |b| >= 8
  {
    var x, y := ExtractUserKey(a), ExtractUserKey(b);
    BytesLess(x, y) || (!BytesLess(y, x) && TagOf(a) > TagOf(b))
  }

  /** The order of encoded keys is the order of the model's keys with ranks for user keys. */
  lemma EncodedOrder(a: ParsedInternalKey, b: ParsedInternalKey)
    requires Packable(a) && Packable(b)
    ensures KeyLess(AppendInternalKey(a), AppendInternalKey(b)) <==>
            Less(InternalKey(Rank(a.user), PackSequenceAndType(a.num, a.code)),
                 InternalKey(Rank(b.user), PackSequenceAndType(b.num, b.code)))
    ensures AppendInternalKey(a) == AppendInternalKey(b) <==> a == b
  {
    AppendedParts(a);
    AppendedParts(b);
    RankOrders(a.user, b.user);
    RankOrders(b.user, a.user);
  }

  // ---- Shortened keys ----

  lemma {:induction false} DifferAt(a: Bytes, b: Bytes, i: nat)
    requires i < |a| && i < |b| && a[..i] == b[..i] && a[i] < b[i]
    ensures BytesLess(a, b)
  {
    if i > 0 {
      assert a[0] == a[..i][0] == b[..i][0] == b[0];
      assert a[1..][..i - 1] == a[..i][1..] == b[..i][1..] == b[1..][..i - 1];
      DifferAt(a[1..], b[1..], i - 1);
    }
  }

  /** Nothing as short as the common prefix lies strictly between two keys. */
  lemma {:induction false} NoShorterBetween(a: Bytes, s: Bytes, b: Bytes, i: nat)
    requires |s| <= i <= |a| && i <= |b| && a[..i] == b[..i]
    ensures !BytesLess(a, s) || !BytesLess(s, b)
  {
    if s != [] {
      assert a[0] == a[..i][0] == b[..i][0] == b[0];
      assert a[1..][..i - 1] == a[..i][1..] == b[..i][1..] == b[1..][..i - 1];
      NoShorterBetween(a[1..], s[1..], b[1..], i - 1);
    }
  }

  /** Nothing as short as its leading bytes 255 lies after a key. */
  lemma {:induction false} NoShorterAfter(a: Bytes, s: Bytes, i: nat)
    requires |s| <= i <= |a| && forall j :: 0 <= j < i ==> a[j] == 255
    ensures !BytesLess(a, s)
  {
    if s != [] {
      NoShorterAfter(a[1..], s[1..], i - 1);
    }
  }

  /** Byte i is the first in which the keys differ, and leaves room for one in between. */
  predicate RoomAt(start: Bytes, limit: Bytes, i: nat) {
    i < |start| && i < |limit| && start[..i] == limit[..i] && (start[i] as int) + 1 < limit[i] as int
  }

  lemma NoRoom(start: Bytes, limit: Bytes, i: nat)
    requires i <= |start| && i <= |limit| && start[..i] == limit[..i]
    requires i < |start| && i < |limit| ==> start[i] != limit[i] && (start[i] as int) + 1 >= limit[i] as int
    ensures forall j :: !RoomAt(start, limit, j)
  {
    forall j: nat
      ensures !RoomAt(start, limit, j)
    {
      if j < i {
        assert start[j] == start[..i][j] == limit[..i][j] == limit[j];
      }
    }
  }

  /** BytewiseComparator::FindShortestSeparator: where there is room, the shortest key strictly
      between the two; otherwise start itself. */
  method FindShortestSeparator(start: Bytes, limit: Bytes) returns (r: Bytes)
    ensures r == start || (BytesLess(start, r) && BytesLess(r, limit))
    ensures r != start <==> exists i :: RoomAt(start, limit, i)
    ensures |r| <= |start| && (r != start ==> forall s :: BytesLess(start, s) && BytesLess(s, limit) ==> |r| <= |s|)
  {
    var n := if |start| < |limit| then |start| else |limit|;
    var i := 0;
    while i < n && start[i] == limit[i]
      invariant 0 <= i <= n && start[..i] == limit[..i]
    {
      i := i + 1;
    }
    r := start;
    if i < n && start[i] < 255 && start[i] + 1 < limit[i] {
      r := start[..i] + [start[i] + 1];
      assert r[..i] == start[..i];
      DifferAt(start, r, i);
      DifferAt(r, limit, i);
      assert RoomAt(start, limit, i);
      forall s | BytesLess(start, s) && BytesLess(s, limit)
        ensures |r| <= |s|
      {
        if |s| <= i {
          NoShorterBetween(start, s, limit, i);
        }
      }
    } else {
      NoRoom(start, limit, i);
    }
  }

  /** BytewiseComparator::FindShortSuccessor: the shortest key after the given one, or, if that
      consists of bytes 255, itself. */
  method FindShortSuccessor(key: Bytes) returns (r: Bytes)
    ensures if forall j :: 0 <= j < |key| ==> key[j] == 255 then r == key else BytesLess(key, r)
    ensures |r| <= |key| && forall s :: BytesLess(key, s) ==> |r| <= |s|
  {
    var i := 0;
    while i < |key| && key[i] == 255
      invariant 0 <= i <= |key| && forall j :: 0 <= j < i ==> key[j] == 255
    {
      i := i + 1;
    }
    r := key;
    if i < |key| {
      r := key[..i] + [key[i] + 1];
      assert r[..i] == key[..i];
      DifferAt(key, r, i);
    }
    forall s | BytesLess(key, s)
      ensures |r| <= |s|
    {
      if |s| <= i {
        NoShorterAfter(key, s, i);
      }
    }
  }

  /** InternalKeyComparator::FindShortestSeparator: shortening the user key keeps the result
      between start and limit in the order of internal keys. */
  method FindShortestInternalSeparator(start: Bytes, limit: Bytes) returns (r: Bytes)
    requires |start| >= 8 && |limit| >= 8
    ensures |r| >= 8 && (r == start || (KeyLess(start, r) && KeyLess(r, limit)))
  {
    var user := ExtractUserKey(start);
    var tmp := FindShortestSeparator(user, ExtractUserKey(limit));
    r := start;
    if |tmp| < |user| && BytesLess(user, tmp) {
      var k := ParsedInternalKey(tmp, MAX_SEQUENCE, 1);
      AppendedParts(k);
      r := AppendInternalKey(k);
    }
  }

  // ---- Memtable entries ----

  /** MemTable::Add: length-prefixed internal key, length-prefixed value. */
  function MemtableEntry(k: ParsedInternalKey, value: Bytes): Bytes {
    LengthPrefixed(AppendInternalKey(k)) + LengthPrefixed(value)
  }

  /** What MemTable::Get takes out of an entry. */
  function ReadMemtableEntry(entry: Bytes): Option<(ParsedInternalKey, Bytes)> {
    var key := GetLengthPrefixed(entry);
    if key.None? || ParseInternalKey(key.value.0).None? then None
    else
      var value := GetLengthPrefixed(key.value.1);
      if value.None? then None else Some((ParseInternalKey(key.value.0).value, value.value.0))
  }

  lemma MemtableEntryRoundTrip(k: ParsedInternalKey, value: Bytes, behind: Bytes)
    requires Packable(k) && |k.user| + 8 < WORD32 && |value| < WORD32
    ensures ReadMemtableEntry(MemtableEntry(k, value) + behind) == Some((k, value))
  {
    var key := AppendInternalKey(k);
    assert MemtableEntry(k, value) + behind == LengthPrefixed(key) + (LengthPrefixed(value) + behind);
    LengthPrefixedRoundTrip(key, LengthPrefixed(value) + behind);
    LengthPrefixedRoundTrip(value, behind);
    ParseAppended(k);
  }
}
