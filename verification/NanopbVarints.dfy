/** What the 32-bit varint decoder of nanopb makes of any bytes (pb_decode.c).  The decoder checks for
    overflow byte by byte; here the number that the bytes stand for says what it lets through. */
module NanopbVarints {
  import opened DbFormat
  import opened Coding
  import opened Nanopb

  // ---- Varints and the numbers they stand for ----

  /** Bytes that continue, and a last one that does not. */
  predicate IsVarint(bs: Bytes) {
    bs != [] && bs[|bs| - 1] < 128 && forall k :: 0 <= k < |bs| - 1 ==> bs[k] >= 128
  }

  /** The sum of digit k times 128^k. */
  function Number(bs: Bytes): nat {
    if bs == [] then 0 else bs[0] % 128 + 128 * Number(bs[1..])
  }

  /** The varint at the start of the input, if it ends. */
  function LeadingVarint(input: Bytes): (r: Option<Bytes>)
    ensures r.Some? ==> IsVarint(r.value) && r.value <= input
    ensures r.None? <==> forall k :: 0 <= k < |input| ==> input[k] >= 128
  {
    if input == [] then None
    else if input[0] < 128 then Some([input[0]])
    else
      var more := LeadingVarint(input[1..]);
      if more.None? then (assert forall k :: 1 <= k < |input| ==> input[k] == input[1..][k - 1]; None)
      else
        assert input[1..][|more.value| - 1] < 128;
        Some([input[0]] + more.value)
  }

  lemma {:induction false} LeadingIs(bs: Bytes, rest: Bytes)
    requires IsVarint(bs)
    ensures LeadingVarint(bs + rest) == Some(bs)
  {
    var input := bs + rest;
    if |bs| > 1 {
      assert input[1..] == bs[1..] + rest;
      LeadingIs(bs[1..], rest);
      assert bs == [bs[0]] + bs[1..];
    } else {
      assert bs == [input[0]];
    }
  }

  lemma {:induction false} NumberSplit(a: Bytes, b: Bytes)
    ensures Number(a + b) == Number(a) + Pow128(|a|) * Number(b)
  {
    if a == [] {
      assert a + b == b;
    } else {
      assert (a + b)[1..] == a[1..] + b;
      NumberSplit(a[1..], b);
      assert 128 * (Pow128(|a| - 1) * Number(b)) == (128 * Pow128(|a| - 1)) * Number(b);
    }
  }

  lemma {:induction false} NumberBelow(bs: Bytes)
    ensures Number(bs) < Pow128(|bs|)
  {
    if bs != [] {
      NumberBelow(bs[1..]);
    }
  }

  lemma {:induction false} NumberIsZero(bs: Bytes)
    ensures Number(bs) == 0 <==> forall k :: 0 <= k < |bs| ==> bs[k] % 128 == 0
  {
    if bs != [] {
      NumberIsZero(bs[1..]);
      assert forall k :: 1 <= k < |bs| ==> bs[k] == bs[1..][k - 1];
      assert forall k :: 0 <= k < |bs| - 1 ==> bs[1..][k] == bs[k + 1];
    }
  }

  lemma {:induction false} VarintStandsFor(v: nat)
    ensures IsVarint(Varint(v)) && Number(Varint(v)) == v
  {
    if v < 128 {
      assert Number([v]) == v % 128 + 128 * Number([v][1..]);
    } else {
      VarintStandsFor(v / 128);
      OneMoreByte(v % 128, Varint(v / 128));
      assert v == v % 128 + 128 * (v / 128);
    }
  }

  lemma OneMoreByte(low: nat, more: Bytes)
    requires low < 128 && IsVarint(more)
    ensures IsVarint([128 + low] + more) && Number([128 + low] + more) == low + 128 * Number(more)
  {
    var bs := [128 + low] + more;
    assert bs[1..] == more && bs[0] % 128 == low;
  }

  // ---- What the decoder reads ----

  /** The bit position of byte k; it is kept in a byte and wraps around. */
  function Position(k: nat): (p: nat)
    ensures k < 37 ==> p == 7 * k
  {
    7 * k % 256
  }

  /** The lower 32 bits collected from the first k bytes. */
  function Low(bs: Bytes, k: nat): (r: nat)
    requires k <= |bs|
    ensures r < WORD32
  {
    if k == 0 then 0
    else if Position(k - 1) >= 32 then Low(bs, k - 1)
    else OrShifted(Low(bs, k - 1), bs[k - 1] % 128, Position(k - 1))
  }

  /** Byte k is no overflow to the decoder: beyond the word it must be empty or extend the sign of what was
      collected, and at position 28 the last byte has four bits. */
  predicate Tolerated(bs: Bytes, k: nat)
    requires k < |bs|
  {
    if Position(k) >= 32 then
      bs[k] % 128 == 0 || (Low(bs, k) >= 0x8000_0000 && bs[k] == if Position(k) < 63 then 255 else 1)
    else !(Position(k) == 28 && 16 <= bs[k] < 128)
  }

  predicate AllTolerated(bs: Bytes, from: nat)
    requires from <= |bs|
  {
    forall k :: from <= k < |bs| ==> Tolerated(bs, k)
  }

  lemma WrapsAround(bit: nat)
    ensures (bit % 256 + 7) % 256 == (bit + 7) % 256
  {
  }

  lemma NextPosition(k: nat)
    ensures (Position(k) + 7) % 256 == Position(k + 1)
  {
    WrapsAround(7 * k);
  }

  lemma ToleratedByte(bs: Bytes, k: nat)
    requires k < |bs|
    ensures VarintByte(bs[k], Position(k), Low(bs, k)) == if Tolerated(bs, k) then Some(Low(bs, k + 1)) else None
  {
  }

  /** The decoder from byte k on. */
  lemma {:induction false} ContinueReads(bs: Bytes, k: nat, input: Bytes, rest: Bytes)
    requires IsVarint(bs) && k < |bs| && input == bs[k..] + rest
    ensures ContinueVarint32(input, Position(k), Low(bs, k)) ==
            if AllTolerated(bs, k) then Some((Low(bs, |bs|), rest)) else None
    decreases |bs| - k
  {
    ToleratedByte(bs, k);
    NextPosition(k);
    assert input[0] == bs[k];
    if k + 1 < |bs| {
      assert input[1..] == bs[k + 1..] + rest;
      ContinueReads(bs, k + 1, input[1..], rest);
    } else {
      assert input[1..] == rest;
    }
  }

  /** Bytes that never end a varint are refused. */
  lemma {:induction false} Unterminated(input: Bytes, bitpos: nat, result: nat)
    requires result < WORD32 && forall k :: 0 <= k < |input| ==> input[k] >= 128
    ensures ContinueVarint32(input, bitpos, result) == None
    decreases |input|
  {
    if input != [] {
      var next := VarintByte(input[0], bitpos, result);
      if next.Some? {
        Unterminated(input[1..], (bitpos + 7) % 256, next.value);
      }
    }
  }

  lemma FirstByte(bs: Bytes)
    requires bs != []
    ensures Tolerated(bs, 0) && Low(bs, 1) == bs[0] % 128
  {
    assert Low(bs, 0) == 0 && Pow2(0) == 1;
    assert OrShifted(0, bs[0] % 128, 0) == bs[0] % 128;
  }

  /** pb_decode_varint32 on any input: the bits collected, if no byte counts as an overflow. */
  lemma DecodeReads(input: Bytes)
    ensures DecodeVarint32(input) ==
            match LeadingVarint(input)
            case None => None
            case Some(bs) => if AllTolerated(bs, 0) then Some((Low(bs, |bs|), input[|bs|..])) else None
  {
    var bs := LeadingVarint(input);
    if bs.Some? {
      VarintReads(bs.value, input[|bs.value|..], input);
    } else if input != [] {
      Unterminated(input[1..], 7, input[0] - 128);
    }
  }

  lemma VarintReads(bs: Bytes, rest: Bytes, input: Bytes)
    requires IsVarint(bs) && input == bs + rest
    ensures DecodeVarint32(input) == if AllTolerated(bs, 0) then Some((Low(bs, |bs|), rest)) else None
  {
    FirstByte(bs);
    if |bs| == 1 {
      OneByte(bs[0], rest, input);
    } else {
      assert input[1..] == bs[1..] + rest && input[0] == bs[0];
      FirstOfMany(bs, input);
      ContinueReads(bs, 1, input[1..], rest);
    }
  }

  lemma OneByte(b: Byte, rest: Bytes, input: Bytes)
    requires b < 128 && input == [b] + rest
    ensures DecodeVarint32(input) == Some((b, rest))
  {
    assert input[0] == b && input[1..] == rest;
  }

  lemma FirstOfMany(bs: Bytes, input: Bytes)
    requires |bs| > 1 && input != [] && input[0] == bs[0] >= 128
    ensures DecodeVarint32(input) == ContinueVarint32(input[1..], Position(1), Low(bs, 1))
    ensures AllTolerated(bs, 0) <==> AllTolerated(bs, 1)
  {
    FirstByte(bs);
    FirstContinues(input, bs[0] % 128);
  }

  lemma FirstContinues(input: Bytes, first: nat)
    requires input != [] && input[0] >= 128 && first == input[0] % 128
    ensures DecodeVarint32(input) == ContinueVarint32(input[1..], Position(1), first)
  {
  }

  // ---- Numbers that fit ----

  lemma PowersOf128()
    ensures Pow128(1) == 0x80 && Pow128(2) == 0x4000 && Pow128(3) == 0x20_0000 && Pow128(4) == 0x1000_0000
    ensures Pow128(5) == 0x8_0000_0000
  {
    assert Pow128(1) == 0x80;
    assert Pow128(2) == 0x4000;
    assert Pow128(3) == 0x20_0000;
    assert Pow128(4) == 0x1000_0000;
  }

  lemma PowersAgree(k: nat)
    requires k <= 4
    ensures Pow2(7 * k) == Pow128(k)
  {
    PowersOf128();
    assert Pow2(7) == 0x80 by { assert Pow2(4) == 16; }
    assert Pow2(14) == 0x4000 by { assert Pow2(11) == 0x800; }
    assert Pow2(21) == 0x20_0000 by { assert Pow2(18) == 0x4_0000; }
    assert Pow2(28) == 0x1000_0000 by { assert Pow2(25) == 0x200_0000; }
  }

  lemma HalfShift(b: nat, n: nat)
    requires n > 0
    ensures b * Pow2(n) == 2 * (b * Pow2(n - 1)) && b * Pow2(n) / 2 == b * Pow2(n - 1) && b * Pow2(n) % 2 == 0
  {
    assert b * (2 * Pow2(n - 1)) == 2 * (b * Pow2(n - 1));
  }

  /** Bits above those of a are simply added. */
  lemma {:induction false} BitOrDisjoint(a: nat, b: nat, n: nat)
    requires a < Pow2(n)
    ensures BitOr(a, b * Pow2(n)) == a + b * Pow2(n)
  {
    if a != 0 && b * Pow2(n) != 0 {
      HalfShift(b, n);
      BitOrDisjoint(a / 2, b, n - 1);
    }
  }

  /** What is left of a digit shifted to the place of digit k. */
  function Kept(low: nat, k: nat): nat {
    if k == 4 then low % 16 else low
  }

  lemma ShiftedDigit(low: nat, p: nat, k: nat)
    requires low < 128 && k <= 4 && p == Pow128(k)
    ensures low * p % WORD32 == Kept(low, k) * p
  {
    PowersOf128();
    if k == 4 {
      assert low == 16 * (low / 16) + low % 16;
      assert low * 0x1000_0000 == (low / 16) * WORD32 + (low % 16) * 0x1000_0000;
    } else {
      assert k == 0 || k == 1 || k == 2 || k == 3;
    }
  }

  lemma OrIsSum(result: nat, low: nat, k: nat)
    requires k <= 4 && result < Pow128(k) && result < WORD32 && low < 128
    ensures OrShifted(result, low, 7 * k) == result + Kept(low, k) * Pow128(k)
  {
    PowersAgree(k);
    ShiftedDigit(low, Pow128(k), k);
    BitOrDisjoint(result, Kept(low, k), 7 * k);
  }

  /** No digit at a position that has wrapped around. */
  predicate NothingWrapped(bs: Bytes) {
    forall k :: 5 <= k < |bs| && Position(k) < 32 ==> bs[k] % 128 == 0
  }

  lemma NumberGrows(bs: Bytes, k: nat)
    requires k < |bs|
    ensures Number(bs[..k + 1]) == Number(bs[..k]) + Pow128(k) * (bs[k] % 128)
  {
    assert bs[..k + 1] == bs[..k] + [bs[k]];
    NumberSplit(bs[..k], [bs[k]]);
    assert [bs[k]][1..] == [];
    assert Number([bs[k]]) == bs[k] % 128 + 128 * Number([]);
  }

  lemma {:induction false} HighPower(k: nat)
    requires k >= 5
    ensures Pow128(k) % WORD32 == 0
  {
    PowersOf128();
    if k > 5 {
      HighPower(k - 1);
      assert Pow128(k) == 128 * Pow128(k - 1);
    }
  }

  lemma MultipleOfWord(n: nat, p: nat, d: nat)
    requires p % WORD32 == 0
    ensures (n + p * d) % WORD32 == n % WORD32
  {
    var q := p / WORD32;
    assert p == WORD32 * q;
    assert p * d == WORD32 * (q * d);
  }

  lemma FewerThanFive(bs: Bytes, k: nat)
    requires k <= |bs| && k <= 4
    ensures Number(bs[..k]) < Pow128(k) <= 0x1000_0000
  {
    NumberBelow(bs[..k]);
    PowersOf128();
  }

  lemma KeptIsRemainder(n: nat, low: nat, k: nat, p: nat)
    requires k <= 4 && p == Pow128(k) && n < p && low < 128
    ensures (n + p * low) % WORD32 == n + Kept(low, k) * p
  {
    PowersOf128();
    if k == 4 {
      assert low == 16 * (low / 16) + low % 16;
      assert n + p * low == (low / 16) * WORD32 + (n + (low % 16) * p);
    } else {
      assert k == 0 || k == 1 || k == 2 || k == 3;
    }
  }

  lemma LowDigit(bs: Bytes, k: nat)
    requires k < |bs| && k <= 4 && Low(bs, k) == Number(bs[..k])
    ensures Low(bs, k + 1) == Number(bs[..k + 1]) % WORD32
  {
    FewerThanFive(bs, k);
    OrIsSum(Low(bs, k), bs[k] % 128, k);
    NumberGrows(bs, k);
    KeptIsRemainder(Number(bs[..k]), bs[k] % 128, k, Pow128(k));
  }

  lemma EmptyDigit(result: nat, bitpos: nat)
    requires result < WORD32
    ensures OrShifted(result, 0, bitpos) == result
  {
  }

  lemma HighDigit(bs: Bytes, k: nat)
    requires 5 <= k < |bs| && NothingWrapped(bs)
    ensures Low(bs, k + 1) == Low(bs, k)
    ensures Number(bs[..k + 1]) % WORD32 == Number(bs[..k]) % WORD32
  {
    HighPower(k);
    NumberGrows(bs, k);
    MultipleOfWord(Number(bs[..k]), Pow128(k), bs[k] % 128);
    EmptyDigit(Low(bs, k), Position(k));
  }

  lemma LowStep(bs: Bytes, k: nat)
    requires k < |bs| && NothingWrapped(bs) && Low(bs, k) == Number(bs[..k]) % WORD32
    ensures Low(bs, k + 1) == Number(bs[..k + 1]) % WORD32
  {
    if k <= 4 {
      FewerThanFive(bs, k);
      SmallRemainder(Low(bs, k), Number(bs[..k]));
      LowDigit(bs, k);
    } else {
      HighDigit(bs, k);
    }
  }

  lemma SmallRemainder(r: nat, n: nat)
    requires r == n % WORD32 && n < WORD32
    ensures r == n
  {
  }

  /** Without wrapped digits the result is the number modulo the word. */
  lemma {:induction false} LowIsRemainder(bs: Bytes, k: nat)
    requires k <= |bs| && NothingWrapped(bs)
    ensures Low(bs, k) == Number(bs[..k]) % WORD32
    decreases k
  {
    if k == 0 {
      assert Low(bs, 0) == 0 && Number(bs[..0]) == 0;
    } else {
      LowIsRemainder(bs, k - 1);
      LowStep(bs, k - 1);
    }
  }

  /** A number below 2^32: the fifth digit has four bits and the ones behind it are empty. */
  predicate FitsWord(bs: Bytes) {
    (|bs| > 4 ==> bs[4] % 128 < 16) && forall k :: 5 <= k < |bs| ==> bs[k] % 128 == 0
  }

  lemma FitsIsSmall(bs: Bytes)
    ensures FitsWord(bs) <==> Number(bs) < WORD32
  {
    PowersOf128();
    if |bs| <= 4 {
      assert bs[..|bs|] == bs;
      FewerThanFive(bs, |bs|);
    } else {
      var low, fifth, top := FifthDigit(bs);
      assert FitsWord(bs) <==> fifth < 16 && top == 0;
    }
  }

  /** The number as four digits, the fifth, and what is above. */
  lemma FifthDigit(bs: Bytes) returns (low: nat, fifth: nat, top: nat)
    requires |bs| > 4
    ensures low == Number(bs[..4]) < 0x1000_0000 && fifth == bs[4] % 128 && top == Number(bs[5..])
    ensures Number(bs) == low + 0x1000_0000 * fifth + 0x8_0000_0000 * top
    ensures top == 0 <==> forall k :: 5 <= k < |bs| ==> bs[k] % 128 == 0
  {
    PowersOf128();
    assert bs == bs[..4] + bs[4..] && bs[4..][1..] == bs[5..];
    NumberSplit(bs[..4], bs[4..]);
    FewerThanFive(bs, 4);
    low, fifth, top := Number(bs[..4]), bs[4] % 128, Number(bs[5..]);
    NumberIsZero(bs[5..]);
    assert forall k :: 5 <= k < |bs| ==> bs[k] == bs[5..][k - 5];
    assert forall k :: 0 <= k < |bs| - 5 ==> bs[5..][k] == bs[k + 5];
  }

  lemma EmptyIsTolerated(bs: Bytes, k: nat)
    requires IsVarint(bs) && FitsWord(bs) && k < |bs|
    ensures Tolerated(bs, k)
  {
    assert k <= 4 ==> Position(k) == 7 * k;
  }

  lemma FittingTolerated(bs: Bytes)
    requires IsVarint(bs) && FitsWord(bs)
    ensures AllTolerated(bs, 0)
  {
    forall k | 0 <= k < |bs|
      ensures Tolerated(bs, k)
    {
      EmptyIsTolerated(bs, k);
    }
  }

  /** What is read without wrapped digits. */
  lemma RemainderReads(bs: Bytes, rest: Bytes)
    requires IsVarint(bs) && NothingWrapped(bs)
    ensures DecodeVarint32(bs + rest) == if AllTolerated(bs, 0) then Some((Number(bs) % WORD32, rest)) else None
    ensures Low(bs, |bs|) == Number(bs) % WORD32
  {
    LowIsRemainder(bs, |bs|);
    assert bs[..|bs|] == bs;
    VarintReads(bs, rest, bs + rest);
  }

  /** A varint of any length that stands for a number below 2^32 reads as that number. */
  lemma FittingReads(bs: Bytes, rest: Bytes)
    requires IsVarint(bs) && Number(bs) < WORD32
    ensures DecodeVarint32(bs + rest) == Some((Number(bs), rest))
    ensures AllTolerated(bs, 0) && Low(bs, |bs|) == Number(bs)
  {
    FitsIsSmall(bs);
    FittingTolerated(bs);
    RemainderReads(bs, rest);
    SmallRemainder(Low(bs, |bs|), Number(bs));
  }

  // ---- Numbers that do not fit ----

  /** The 64-bit sign extension of a negative 32-bit number. */
  predicate ExtendsSign(number: nat, r: nat) {
    0x8000_0000 <= r < WORD32 && number == WORD64 - WORD32 + r
  }

  /** Its bytes: ten, with the upper 33 bits set. */
  predicate SignBytes(bs: Bytes) {
    && |bs| == 10 && bs[4] >= 248
    && bs[5] == 255 && bs[6] == 255 && bs[7] == 255 && bs[8] == 255 && bs[9] == 1
  }

  lemma TopOfSignBytes(bs: Bytes)
    requires SignBytes(bs)
    ensures Number(bs[5..]) == 0x1FFF_FFFF && NothingWrapped(bs)
  {
    var t := bs[5..];
    assert Number(t[5..]) == 0;
    assert t[4] == 1 && t[3] == t[2] == t[1] == t[0] == 255;
    assert t[4..][1..] == t[5..] && Number(t[4..]) == 1;
    assert t[3..][1..] == t[4..] && Number(t[3..]) == 255;
    assert t[2..][1..] == t[3..] && Number(t[2..]) == 0x7FFF;
    assert t[1..][1..] == t[2..] && Number(t[1..]) == 0x3F_FFFF;
  }

  lemma SignBytesExtend(bs: Bytes)
    requires SignBytes(bs)
    ensures ExtendsSign(Number(bs), Low(bs, |bs|))
  {
    TopOfSignBytes(bs);
    var low, fifth, top := FifthDigit(bs);
    LowIsRemainder(bs, |bs|);
    assert bs[..|bs|] == bs;
    SumOfSign(Number(bs), low, fifth, Low(bs, |bs|));
  }

  lemma SumOfSign(n: nat, low: nat, fifth: nat, r: nat)
    requires n == low + 0x1000_0000 * fifth + 0x8_0000_0000 * 0x1FFF_FFFF && low < 0x1000_0000 && 120 <= fifth < 128
    requires r == n % WORD32
    ensures ExtendsSign(n, r)
  {
    assert n == (0xFFFF_FFFF) * WORD32 + (low + 0x1000_0000 * (fifth - 112));
  }

  /** One digit of 127 after the other, and then a 1. */
  lemma DigitOf(t: Bytes, m: nat)
    requires Number(t) == 127 + 128 * m
    ensures t != [] && t[0] % 128 == 127 && Number(t[1..]) == m
  {
  }

  lemma DigitsOfTop(bs: Bytes)
    requires |bs| > 4 && Number(bs[5..]) == 0x1FFF_FFFF
    ensures |bs| > 9 && bs[5] % 128 == 127 && bs[6] % 128 == 127 && bs[7] % 128 == 127 && bs[8] % 128 == 127 && bs[9] % 128 == 1
  {
    DigitOf(bs[5..], 0x3F_FFFF);
    assert bs[5..][1..] == bs[6..];
    DigitOf(bs[6..], 0x7FFF);
    assert bs[6..][1..] == bs[7..];
    DigitOf(bs[7..], 0xFF);
    assert bs[7..][1..] == bs[8..];
    DigitOf(bs[8..], 1);
    assert bs[8..][1..] == bs[9..];
    assert Number(bs[9..]) == bs[9..][0] % 128 + 128 * Number(bs[9..][1..]);
  }

  lemma ExtendsBySignBytes(bs: Bytes, r: nat)
    requires IsVarint(bs) && AllTolerated(bs, 0) && ExtendsSign(Number(bs), r)
    ensures SignBytes(bs)
  {
    TopOfExtension(bs, r);
    DigitsOfTop(bs);
    assert Tolerated(bs, 5) && Tolerated(bs, 6) && Tolerated(bs, 7) && Tolerated(bs, 8) && Tolerated(bs, 9);
  }

  lemma TopOfExtension(bs: Bytes, r: nat)
    requires ExtendsSign(Number(bs), r)
    ensures |bs| > 4 && Number(bs[5..]) == 0x1FFF_FFFF && bs[4] % 128 >= 120
  {
    FitsIsSmall(bs);
    if |bs| > 4 {
      var low, fifth, top := FifthDigit(bs);
      UpperDigits(low, fifth, top, r);
    }
  }

  lemma UpperDigits(low: nat, fifth: nat, top: nat, r: nat)
    requires low < 0x1000_0000 && fifth < 128
    requires ExtendsSign(low + 0x1000_0000 * fifth + 0x8_0000_0000 * top, r)
    ensures top == 0x1FFF_FFFF && fifth >= 120
  {
  }

  /** Of the varints accepted, the sign extension of the result is written in exactly one way. */
  lemma ExtendsExactlyIf(bs: Bytes)
    requires IsVarint(bs) && AllTolerated(bs, 0)
    ensures ExtendsSign(Number(bs), Low(bs, |bs|)) <==> SignBytes(bs)
  {
    if SignBytes(bs) {
      SignBytesExtend(bs);
    } else if ExtendsSign(Number(bs), Low(bs, |bs|)) {
      ExtendsBySignBytes(bs, Low(bs, |bs|));
    }
  }

  /** The fifth byte goes on and has bits above the low four: only the last byte is checked for them. */
  predicate FifthOverflows(bs: Bytes) {
    |bs| > 5 && bs[4] % 128 >= 16
  }

  /** A digit lies where the position has wrapped around. */
  predicate WrapsAt(bs: Bytes, k: nat) {
    5 <= k < |bs| && Position(k) < 32 && bs[k] % 128 != 0
  }

  /** A digit beyond the word, which passes as a part of the sign. */
  predicate SignAt(bs: Bytes, k: nat) {
    5 <= k < |bs| && Position(k) >= 32 && bs[k] % 128 != 0
  }

  /** What is read is neither the number itself nor extended by it. */
  predicate Misread(input: Bytes) {
    var bs, r := LeadingVarint(input), DecodeVarint32(input);
    bs.Some? && r.Some? && Number(bs.value) != r.value.0 && !ExtendsSign(Number(bs.value), r.value.0)
  }

  /** The decoder misreads a varint exactly if no byte counts as an overflow to it and yet the fifth byte
      overflows, a digit wraps around, or a sign is not extended to the tenth byte. */
  lemma MisreadExactlyIf(input: Bytes)
    ensures Misread(input) <==>
            var bs := LeadingVarint(input);
            && bs.Some? && AllTolerated(bs.value, 0) && !SignBytes(bs.value)
            && (FifthOverflows(bs.value) || exists k :: WrapsAt(bs.value, k) || SignAt(bs.value, k))
  {
    DecodeReads(input);
    var leading := LeadingVarint(input);
    if leading.Some? && AllTolerated(leading.value, 0) {
      var bs := leading.value;
      OverflowsExactlyIf(bs);
      ExtendsExactlyIf(bs);
      if Number(bs) < WORD32 {
        FittingReads(bs, []);
      }
    }
  }

  /** What passes as no overflow and is one. */
  lemma OverflowsExactlyIf(bs: Bytes)
    requires IsVarint(bs) && AllTolerated(bs, 0)
    ensures Number(bs) >= WORD32 <==> FifthOverflows(bs) || exists k :: WrapsAt(bs, k) || SignAt(bs, k)
  {
    FitsIsSmall(bs);
    if FitsWord(bs) {
    } else if |bs| > 4 && bs[4] % 128 >= 16 {
      assert Tolerated(bs, 4);
    } else {
      var k :| 5 <= k < |bs| && bs[k] % 128 != 0;
      assert WrapsAt(bs, k) || SignAt(bs, k);
    }
  }

  /** A varint of at most five bytes is read exactly if its number fits. */
  lemma ShortVarints(bs: Bytes, rest: Bytes)
    requires IsVarint(bs) && |bs| <= 5
    ensures DecodeVarint32(bs + rest) == if Number(bs) < WORD32 then Some((Number(bs), rest)) else None
  {
    if Number(bs) < WORD32 {
      FittingReads(bs, rest);
    } else {
      FitsIsSmall(bs);
      FifthIsLast(bs);
      VarintReads(bs, rest, bs + rest);
    }
  }

  lemma FifthIsLast(bs: Bytes)
    requires IsVarint(bs) && |bs| == 5 && bs[4] >= 16
    ensures !AllTolerated(bs, 0)
  {
    assert Position(4) == 28;
    assert !Tolerated(bs, 4);
  }

  lemma Varint32Reads(v: nat, rest: Bytes)
    requires v < WORD32
    ensures DecodeVarint32(Varint(v) + rest) == Some((v, rest))
  {
    VarintStandsFor(v);
    FittingReads(Varint(v), rest);
  }

  // ---- One input for each case ----

  /** The fifth byte goes on: the three bits above its low four are lost. */
  lemma SixBytes()
    ensures var input: Bytes := [128, 128, 128, 128, 255, 0];
            && IsVarint(input) && Number(input) == 0x7_F000_0000 && FifthOverflows(input)
            && DecodeVarint32(input) == Some((0xF000_0000, [])) && Misread(input)
  {
    var bs: Bytes := [128, 128, 128, 128, 255, 0];
    SixBytesNumber(bs);
    FirstFiveTolerated(bs);
    LastIsEmpty(bs);
    RemainderReads(bs, []);
    Alone(bs);
  }

  lemma Alone(bs: Bytes)
    requires IsVarint(bs)
    ensures bs + [] == bs && LeadingVarint(bs) == Some(bs)
  {
    LeadingIs(bs, []);
    assert bs + [] == bs;
  }

  lemma LastIsEmpty(bs: Bytes)
    requires |bs| == 6 && bs[5] == 0 && forall k :: 0 <= k < 5 ==> Tolerated(bs, k)
    ensures AllTolerated(bs, 0)
  {
    assert Tolerated(bs, 5);
  }

  lemma SixBytesNumber(bs: Bytes)
    requires bs == [128, 128, 128, 128, 255, 0]
    ensures IsVarint(bs) && Number(bs) == 0x7_F000_0000 && NothingWrapped(bs)
  {
    assert bs[5..] == [0] && Number(bs[5..]) == 0;
    assert bs[4..][1..] == bs[5..] && Number(bs[4..]) == 127;
    assert bs[3..][1..] == bs[4..] && Number(bs[3..]) == 127 * 0x80;
    assert bs[2..][1..] == bs[3..] && Number(bs[2..]) == 127 * 0x4000;
    assert bs[1..][1..] == bs[2..] && Number(bs[1..]) == 127 * 0x20_0000;
  }

  lemma FirstFiveTolerated(bs: Bytes)
    requires |bs| > 5 && IsVarint(bs)
    ensures forall k :: 0 <= k < 5 ==> Tolerated(bs, k)
  {
  }

  /** The sign is extended by one byte only: what is left of the number is lost. */
  lemma SevenBytes()
    ensures var input: Bytes := [128, 128, 128, 128, 136, 255, 0];
            && IsVarint(input) && Number(input) == 0x3F8_8000_0000 && SignAt(input, 5)
            && DecodeVarint32(input) == Some((0x8000_0000, [])) && Misread(input)
  {
    var bs: Bytes := [128, 128, 128, 128, 136, 255, 0];
    SevenBytesNumber(bs);
    FirstFiveTolerated(bs);
    SevenBytesLow(bs);
    SignTolerated(bs);
    RemainderReads(bs, []);
    Alone(bs);
  }

  lemma SevenBytesNumber(bs: Bytes)
    requires bs == [128, 128, 128, 128, 136, 255, 0]
    ensures IsVarint(bs) && Number(bs) == 0x3F8_8000_0000 && NothingWrapped(bs) && Number(bs[..5]) == 0x8000_0000
  {
    assert bs[6..] == [0] && Number(bs[6..]) == 0;
    assert bs[5..][1..] == bs[6..] && Number(bs[5..]) == 127;
    assert bs[4..][1..] == bs[5..] && Number(bs[4..]) == 127 * 0x80 + 8;
    assert bs[3..][1..] == bs[4..] && Number(bs[3..]) == 127 * 0x4000 + 8 * 0x80;
    assert bs[2..][1..] == bs[3..] && Number(bs[2..]) == 127 * 0x20_0000 + 8 * 0x4000;
    assert bs[1..][1..] == bs[2..] && Number(bs[1..]) == 127 * 0x1000_0000 + 8 * 0x20_0000;
    PowersOf128();
    assert bs == bs[..5] + bs[5..];
    NumberSplit(bs[..5], bs[5..]);
  }

  lemma SevenBytesLow(bs: Bytes)
    requires |bs| == 7 && NothingWrapped(bs) && Number(bs[..5]) == 0x8000_0000
    ensures Low(bs, 5) == 0x8000_0000
  {
    LowIsRemainder(bs, 5);
  }

  lemma SignTolerated(bs: Bytes)
    requires |bs| == 7 && bs[5] == 255 && bs[6] == 0 && Low(bs, 5) == 0x8000_0000
    requires forall k :: 0 <= k < 5 ==> Tolerated(bs, k)
    ensures AllTolerated(bs, 0)
  {
    assert Tolerated(bs, 5) && Tolerated(bs, 6);
  }

  function EmptyDigits(n: nat): (b: Bytes)
    ensures |b| == n && forall k :: 0 <= k < n ==> b[k] == 128
  {
    if n == 0 then [] else EmptyDigits(n - 1) + [128]
  }

  lemma {:induction false} NothingCollected(bs: Bytes, k: nat)
    requires k <= |bs| && forall j :: 0 <= j < k ==> bs[j] == 128
    ensures Low(bs, k) == 0
  {
    if k > 0 {
      NothingCollected(bs, k - 1);
      EmptyDigit(0, Position(k - 1));
    }
  }

  lemma EmptyTolerated(bs: Bytes, k: nat)
    requires k < |bs| && bs[k] == 128
    ensures Tolerated(bs, k)
  {
  }

  lemma LastTolerated(bs: Bytes, n: nat, last: Byte)
    requires n < |bs| && bs[n] == last < 128 && Low(bs, n) == 0
    ensures Tolerated(bs, n) <==> (if Position(n) >= 32 then last == 0 else Position(n) != 28 || last < 16)
  {
  }

  lemma LastCollected(bs: Bytes, n: nat, last: Byte, p: nat)
    requires n < |bs| && bs[n] == last < 128 && Low(bs, n) == 0 && p == Position(n)
    ensures Low(bs, n + 1) == if p >= 32 then 0 else last * Pow2(p) % WORD32
  {
    if p < 32 {
      OrNothing(last, p);
    }
  }

  lemma OrNothing(low: nat, bitpos: nat)
    ensures OrShifted(0, low, bitpos) == low * Pow2(bitpos) % WORD32
  {
  }

  lemma PaddedLast(bs: Bytes, n: nat, last: Byte)
    requires last < 128 && bs == EmptyDigits(n) + [last]
    ensures IsVarint(bs)
    ensures AllTolerated(bs, 0) <==> Tolerated(bs, n)
    ensures Low(bs, n) == 0
  {
    NothingCollected(bs, n);
    forall k | 0 <= k < n
      ensures Tolerated(bs, k)
    {
      EmptyTolerated(bs, k);
    }
  }

  /** n empty digits and a last one, which counts at the position reached, for any n.  Where that is below 32
      for n of 37 and more, the position has wrapped around. */
  lemma PaddedVarint(n: nat, last: Byte, rest: Bytes)
    requires last < 128
    ensures DecodeVarint32(EmptyDigits(n) + [last] + rest) ==
            if (if Position(n) >= 32 then last == 0 else Position(n) != 28 || last < 16)
            then Some((if Position(n) >= 32 then 0 else last * Pow2(Position(n)) % WORD32, rest)) else None
    ensures Number(EmptyDigits(n) + [last]) == last * Pow128(n)
  {
    var bs := EmptyDigits(n) + [last];
    PaddedLast(bs, n, last);
    LastTolerated(bs, n, last);
    LastCollected(bs, n, last, Position(n));
    VarintReads(bs, rest, bs + rest);
    PaddedNumber(n, last);
  }

  lemma PaddedNumber(n: nat, last: Byte)
    requires last < 128
    ensures Number(EmptyDigits(n) + [last]) == last * Pow128(n)
  {
    NumberSplit(EmptyDigits(n), [last]);
    NumberIsZero(EmptyDigits(n));
    assert Number([last]) == last % 128 + 128 * Number([last][1..]);
  }

  /** Such a digit makes a number of what is an overflow: from 38 bytes on. */
  lemma PaddedMisread(n: nat, last: Byte)
    requires n >= 5 && 0 < last < 128 && Position(n) < 32 && (Position(n) == 28 ==> last < 16)
    ensures n >= 37 && Misread(EmptyDigits(n) + [last])
  {
    var bs := EmptyDigits(n) + [last];
    PaddedLast(bs, n, last);
    LastTolerated(bs, n, last);
    Alone(bs);
    assert WrapsAt(bs, n) && bs[4] == 128;
    MisreadExactlyIf(bs);
  }

  // ---- Lengths that do not fit ----

  lemma {:induction false} LastDigit(v: nat)
    requires v > 0
    ensures 0 < Varint(v)[|Varint(v)| - 1] < 128
  {
    if v >= 128 {
      LastDigit(v / 128);
    }
  }

  lemma LastNotTolerated(bs: Bytes)
    requires IsVarint(bs) && 5 <= |bs| <= 9 && 0 < bs[|bs| - 1] && !FitsWord(bs)
    ensures !AllTolerated(bs, 0)
  {
    if |bs| == 5 {
      FifthIsLast(bs);
    } else {
      assert Position(|bs| - 1) == 7 * (|bs| - 1);
      assert !Tolerated(bs, |bs| - 1);
    }
  }

  lemma NinePower()
    ensures Pow128(9) == 0x8000_0000_0000_0000
  {
    PowersOf128();
    assert Pow128(7) == 0x2_0000_0000_0000 by { assert Pow128(6) == 0x400_0000_0000; }
  }

  /** What the encoder writes for 2^32 and more is refused, up to 2^63. */
  lemma LongVarintRefused(v: nat, rest: Bytes)
    requires WORD32 <= v < 0x8000_0000_0000_0000
    ensures DecodeVarint32(Varint(v) + rest) == None
  {
    NinePower();
    VarintLengthBound(v, 9);
    VarintStandsFor(v);
    FitsIsSmall(Varint(v));
    LastDigit(v);
    LastNotTolerated(Varint(v));
    VarintReads(Varint(v), rest, Varint(v) + rest);
  }
}
