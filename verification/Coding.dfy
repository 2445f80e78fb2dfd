/** Integers and strings as bytes (util/coding.h, util/coding.cc).  Parsers return the value and
    the rest of the input. */
module Coding {
  import opened DbFormat

  const WORD32: nat := 0x1_0000_0000
  const WORD64: nat := 0x1_0000_0000_0000_0000

  lemma Associative(a: Bytes, b: Bytes, c: Bytes)
    ensures a + (b + c) == (a + b) + c
  {
  }

  // ---- Fixed-width little-endian integers ----

  function Pow256(n: nat): (p: nat)
    ensures p >= 1
  {
    if n == 0 then 1 else 256 * Pow256(n - 1)
  }

  function Fixed(v: nat, n: nat): (b: Bytes)
    ensures |b| == n
  {
    if n == 0 then [] else [v % 256] + Fixed(v / 256, n - 1)
  }

  function FixedValue(b: Bytes): (v: nat)
    ensures v < Pow256(|b|)
  {
    if b == [] then 0 else b[0] + 256 * FixedValue(b[1..])
  }

  lemma {:induction false} FixedRoundTrip(v: nat, n: nat)
    requires v < Pow256(n)
    ensures FixedValue(Fixed(v, n)) == v
  {
    if n > 0 {
      FixedRoundTrip(v / 256, n - 1);
      assert Fixed(v, n)[1..] == Fixed(v / 256, n - 1);
    }
  }

  lemma FixedWidths()
    ensures Pow256(4) == WORD32 && Pow256(8) == WORD64
  {
    assert Pow256(2) == 0x1_0000;
    assert Pow256(4) == WORD32;
    assert Pow256(6) == 0x1_0000_0000_0000;
    assert Pow256(8) == WORD64;
  }

  function PutFixed32(v: nat): Bytes { Fixed(v, 4) }

  function PutFixed64(v: nat): Bytes { Fixed(v, 8) }

  // ---- Base-128 varints ----

  function Pow128(n: nat): (p: nat)
    ensures p >= 1
  {
    if n == 0 then 1 else 128 * Pow128(n - 1)
  }

  function Varint(v: nat): (b: Bytes)
    ensures |b| >= 1
  {
    if v < 128 then [v] else [128 + v % 128] + Varint(v / 128)
  }

  /** At most limit bytes are looked at. */
  function ReadVarint(input: Bytes, limit: nat): (r: Option<(nat, Bytes)>)
    ensures r.Some? ==> |r.value.1| < |input|
  {
    if limit == 0 || input == [] then None
    else if input[0] < 128 then Some((input[0], input[1..]))
    else
      var more := ReadVarint(input[1..], limit - 1);
      if more.None? then None else Some((input[0] - 128 + 128 * more.value.0, more.value.1))
  }

  lemma {:induction false} VarintRoundTrip(v: nat, limit: nat, rest: Bytes)
    requires |Varint(v)| <= limit
    ensures ReadVarint(Varint(v) + rest, limit) == Some((v, rest))
  {
    var input := Varint(v) + rest;
    if v < 128 {
      assert input[1..] == rest;
    } else {
      VarintRoundTrip(v / 128, limit - 1, rest);
      assert input[1..] == Varint(v / 128) + rest;
    }
  }

  /** A varint of n bytes holds every value below 128^n. */
  lemma {:induction false} VarintLengthBound(v: nat, n: nat)
    requires v < Pow128(n) && n >= 1
    ensures |Varint(v)| <= n
  {
    if v >= 128 {
      assert n >= 2 by {
        assert Pow128(1) == 128;
      }
      VarintLengthBound(v / 128, n - 1);
    }
  }

  lemma VarintWidths()
    ensures Pow128(5) > WORD32 && Pow128(10) > WORD64
  {
    assert Pow128(2) == 0x4000;
    assert Pow128(4) == 0x1000_0000;
    assert Pow128(5) == 0x8_0000_0000;
    assert Pow128(7) == 0x2_0000_0000_0000;
    assert Pow128(9) == 0x8000_0000_0000_0000;
    assert Pow128(10) == 0x40_0000_0000_0000_0000;
  }

  /** GetVarint32 / GetVarint64: bits beyond the word are cut off. */
  function GetVarint32(input: Bytes): (r: Option<(nat, Bytes)>)
    ensures r.Some? ==> r.value.0 < WORD32 && |r.value.1| < |input|
  {
    var r := ReadVarint(input, 5);
    if r.None? then None else Some((r.value.0 % WORD32, r.value.1))
  }

  function GetVarint64(input: Bytes): (r: Option<(nat, Bytes)>)
    ensures r.Some? ==> r.value.0 < WORD64 && |r.value.1| < |input|
  {
    var r := ReadVarint(input, 10);
    if r.None? then None else Some((r.value.0 % WORD64, r.value.1))
  }

  lemma Varint32RoundTrip(v: nat, rest: Bytes)
    requires v < WORD32
    ensures GetVarint32(Varint(v) + rest) == Some((v, rest))
  {
    VarintWidths();
    VarintLengthBound(v, 5);
    VarintRoundTrip(v, 5, rest);
  }

  lemma Varint64RoundTrip(v: nat, rest: Bytes)
    requires v < WORD64
    ensures GetVarint64(Varint(v) + rest) == Some((v, rest))
  {
    VarintWidths();
    VarintLengthBound(v, 10);
    VarintRoundTrip(v, 10, rest);
  }

  // ---- Length-prefixed strings ----

  function LengthPrefixed(s: Bytes): (b: Bytes)
    ensures |b| > |s|
  {
    Varint(|s|) + s
  }

  function GetLengthPrefixed(input: Bytes): (r: Option<(Bytes, Bytes)>)
    ensures r.Some? ==> |r.value.1| < |input|
  {
    var len := GetVarint32(input);
    if len.None? || len.value.0 > |len.value.1| then None
    else Some((len.value.1[..len.value.0], len.value.1[len.value.0..]))
  }

  lemma LengthPrefixedRoundTrip(s: Bytes, rest: Bytes)
    requires |s| < WORD32
    ensures GetLengthPrefixed(LengthPrefixed(s) + rest) == Some((s, rest))
  {
    Varint32RoundTrip(|s|, s + rest);
    assert LengthPrefixed(s) + rest == Varint(|s|) + (s + rest);
    assert (s + rest)[..|s|] == s && (s + rest)[|s|..] == rest;
  }
}
