/** Prefix-compressed blocks (table/block_builder.cc, and the decoding helpers of table/block.cc). */
module Blocks {
  import opened DbFormat
  import opened Coding

  datatype Pair = Pair(key: Bytes, value: Bytes)

  // ---- Format ----

  /** The first index from i on where the two strings differ or one ends. */
  function CommonFrom(a: Bytes, b: Bytes, i: nat): (r: nat)
    requires i <= |a| && i <= |b| && a[..i] == b[..i]
    ensures i <= r <= |a| && r <= |b| && a[..r] == b[..r]
    ensures r < |a| && r < |b| ==> a[r] != b[r]
    decreases |a| - i
  {
    if i < |a| && i < |b| && a[i] == b[i] then
      assert a[..i + 1] == a[..i] + [a[i]] && b[..i + 1] == b[..i] + [b[i]];
      CommonFrom(a, b, i + 1)
    else i
  }

  /** counter_ of the builder after n entries, with restart interval k. */
  function Counter(k: nat, n: nat): (c: nat)
    requires k >= 1
    ensures c <= k && (n > 0 ==> c > 0)
  {
    if n == 0 then 0 else if Counter(k, n - 1) == k then 1 else Counter(k, n - 1) + 1
  }

  function PreviousKey(es: seq<Pair>, i: nat): Bytes
    requires i <= |es|
  {
    if i == 0 then [] else es[i - 1].key
  }

  /** How much of the previous key entry i shares: nothing at a restart point. */
  function Shared(es: seq<Pair>, k: nat, i: nat): (s: nat)
    requires k >= 1 && i < |es|
    ensures s <= |es[i].key| && s <= |PreviousKey(es, i)| && es[i].key[..s] == PreviousKey(es, i)[..s]
  {
    if Counter(k, i) == k then 0 else CommonFrom(PreviousKey(es, i), es[i].key, 0)
  }

  function EntryBytes(shared: nat, key: Bytes, value: Bytes): (b: Bytes)
    requires shared <= |key|
    ensures |b| >= 3
  {
    Varint(shared) + (Varint(|key| - shared) + (Varint(|value|) + (key[shared..] + value)))
  }

  function Body(es: seq<Pair>, k: nat, n: nat): Bytes
    requires k >= 1 && n <= |es|
  {
    if n == 0 then [] else Body(es, k, n - 1) + EntryBytes(Shared(es, k, n - 1), es[n - 1].key, es[n - 1].value)
  }

  function Offset(es: seq<Pair>, k: nat, i: nat): nat
    requires k >= 1 && i <= |es|
  {
    |Body(es, k, i)|
  }

  /** The restart points among the first n entries, as entry numbers: the first entry, and every
      entry that finds the counter full. */
  function Points(k: nat, n: nat): (p: seq<nat>)
    requires k >= 1
    ensures |p| >= 1 && p[0] == 0
    ensures forall j {:trigger p[j]} :: 0 <= j < |p| ==> p[j] == 0 || (p[j] < n && Counter(k, p[j]) == k)
  {
    if n == 0 then [0] else if Counter(k, n - 1) == k then Points(k, n - 1) + [n - 1] else Points(k, n - 1)
  }

  function RestartOffsets(es: seq<Pair>, k: nat, n: nat): (r: seq<nat>)
    requires k >= 1 && n <= |es|
    ensures |r| == |Points(k, n)|
  {
    if n == 0 then [0]
    else if Counter(k, n - 1) == k then RestartOffsets(es, k, n - 1) + [Offset(es, k, n - 1)]
    else RestartOffsets(es, k, n - 1)
  }

  function FixedList(rs: seq<nat>): (b: Bytes)
    ensures |b| == 4 * |rs|
  {
    if rs == [] then [] else FixedList(rs[..|rs| - 1]) + PutFixed32(rs[|rs| - 1])
  }

  /** The finished block. */
  function Block(es: seq<Pair>, k: nat): Bytes
    requires k >= 1
  {
    Body(es, k, |es|) + FixedList(RestartOffsets(es, k, |es|)) + PutFixed32(|RestartOffsets(es, k, |es|)|)
  }

  // ---- Reading an entry ----

  /** Lengths read, and the input behind them. */
  datatype Lengths = Lengths(shared: nat, unshared: nat, size: nat, rest: Bytes)

  function ThreeVarints(p: Bytes): (r: Option<Lengths>)
    ensures r.Some? ==> |r.value.rest| < |p|
  {
    var a := GetVarint32(p);
    if a.None? then None
    else
      var b := GetVarint32(a.value.1);
      if b.None? then None
      else
        var c := GetVarint32(b.value.1);
        if c.None? then None else Some(Lengths(a.value.0, b.value.0, c.value.0, c.value.1))
  }

  /** DecodeEntry: three one-byte lengths are taken directly. */
  function DecodeEntry(p: Bytes): (r: Option<Lengths>)
    ensures r.Some? ==> |r.value.rest| < |p| && r.value.unshared + r.value.size <= |r.value.rest|
  {
    if |p| < 3 then None
    else
      var r := if p[0] < 128 && p[1] < 128 && p[2] < 128 then Some(Lengths(p[0], p[1], p[2], p[3..])) else ThreeVarints(p);
      if r.None? || |r.value.rest| < r.value.unshared + r.value.size then None else r
  }

  /** The fast path agrees with varint decoding, on every input. */
  lemma FastPathAgrees(p: Bytes)
    ensures DecodeEntry(p) ==
            var r := ThreeVarints(p);
            if r.None? || |r.value.rest| < r.value.unshared + r.value.size then None else r
  {
    if |p| >= 3 && p[0] < 128 && p[1] < 128 && p[2] < 128 {
      var q := p[1..];
      assert q[0] == p[1] && q[1..][0] == p[2] && q[1..][1..] == p[3..];
    }
  }

  /** The check of the source, which adds the two lengths in 32 bits. */
  predicate PassesCheck(p: Bytes) {
    var r := ThreeVarints(p);
    r.Some? && |r.value.rest| % WORD32 >= (r.value.unshared + r.value.size) % WORD32
  }

  /** The lengths add up to 2^32 or more, and to no more than what is left when that is taken off. */
  predicate LengthsWrap(p: Bytes) {
    var r := ThreeVarints(p);
    r.Some? && WORD32 <= r.value.unshared + r.value.size <= |r.value.rest| + WORD32
  }

  /** What the check of the source lets through: the entries that lie within the bytes, and those whose
      lengths wrap around, which do not. */
  lemma CheckWrongExactlyIf(p: Bytes)
    requires |p| < WORD32
    ensures PassesCheck(p) <==> DecodeEntry(p).Some? || LengthsWrap(p)
    ensures !(DecodeEntry(p).Some? && LengthsWrap(p))
  {
    FastPathAgrees(p);
    var r := ThreeVarints(p);
    if r.Some? {
      LengthsHaveWords(p);
      WrappedSum(r.value.unshared, r.value.size, |r.value.rest|);
    }
  }

  lemma LengthsHaveWords(p: Bytes)
    requires ThreeVarints(p).Some?
    ensures ThreeVarints(p).value.unshared < WORD32 && ThreeVarints(p).value.size < WORD32
  {
  }

  lemma WrappedSum(a: nat, b: nat, left: nat)
    requires a < WORD32 && b < WORD32 && left < WORD32
    ensures left % WORD32 >= (a + b) % WORD32 <==> a + b <= left || WORD32 <= a + b <= left + WORD32
  {
  }

  /** Seven bytes: nothing shared, 2^32 - 1 bytes of key, one of value, and none of them there. */
  lemma WrappedLengths()
    ensures var p: Bytes := [0, 255, 255, 255, 255, 15, 1]; PassesCheck(p) && DecodeEntry(p) == None
  {
    var p: Bytes := [0, 255, 255, 255, 255, 15, 1];
    var q: Bytes := [255, 255, 255, 255, 15, 1];
    assert p[1..] == q && GetVarint32(p) == Some((0, q));
    LargestVarint(q);
    assert GetVarint32([1]) == Some((1, [])) by {
      assert [1][1..] == [];
    }
    CheckWrongExactlyIf(p);
  }

  lemma LargestVarint(q: Bytes)
    requires q == [255, 255, 255, 255, 15, 1]
    ensures GetVarint32(q) == Some((WORD32 - 1, [1]))
  {
    assert q[4..][1..] == [1];
    assert ReadVarint(q[4..], 1) == Some((15, [1]));
    assert q[3..][1..] == q[4..] && ReadVarint(q[3..], 2) == Some((127 + 128 * 15, [1]));
    assert q[2..][1..] == q[3..] && ReadVarint(q[2..], 3) == Some((127 + 128 * (127 + 128 * 15), [1]));
    assert q[1..][1..] == q[2..] && ReadVarint(q[1..], 4) == Some((127 + 128 * (127 + 128 * (127 + 128 * 15)), [1]));
  }

  lemma EntryRoundTrip(shared: nat, key: Bytes, value: Bytes, input: Bytes, rest: Bytes)
    requires shared <= |key| < WORD32 && |value| < WORD32
    requires input == EntryBytes(shared, key, value) + rest
    ensures DecodeEntry(input) == Some(Lengths(shared, |key| - shared, |value|, key[shared..] + value + rest))
  {
    var tail := key[shared..] + value + rest;
    assert input == Varint(shared) + (Varint(|key| - shared) + (Varint(|value|) + tail));
    Varint32RoundTrip(shared, Varint(|key| - shared) + (Varint(|value|) + tail));
    Varint32RoundTrip(|key| - shared, Varint(|value|) + tail);
    Varint32RoundTrip(|value|, tail);
    FastPathAgrees(input);
  }

  // ---- Layout ----

  lemma PrefixTrans(a: Bytes, b: Bytes, e: Bytes)
    requires a <= b
    ensures a <= b + e
  {
  }

  lemma {:induction false} BodyPrefix(es: seq<Pair>, k: nat, i: nat, n: nat)
    requires k >= 1 && i <= n <= |es|
    ensures Body(es, k, i) <= Body(es, k, n)
    decreases n
  {
    if i < n {
      BodyPrefix(es, k, i, n - 1);
      PrefixTrans(Body(es, k, i), Body(es, k, n - 1), EntryBytes(Shared(es, k, n - 1), es[n - 1].key, es[n - 1].value));
    }
  }

  lemma OffsetsGrow(es: seq<Pair>, k: nat, i: nat, n: nat)
    requires k >= 1 && i < n <= |es|
    ensures Offset(es, k, i) + 3 <= Offset(es, k, n)
  {
    BodyPrefix(es, k, i + 1, n);
    assert Offset(es, k, i + 1) == Offset(es, k, i) + |EntryBytes(Shared(es, k, i), es[i].key, es[i].value)|;
  }

  lemma SplitBehind(body: Bytes, a: Bytes, e: Bytes)
    requires a + e <= body
    ensures body[|a|..] == e + body[|a| + |e|..]
  {
  }

  /** What lies at the offset of entry i: the entry, then what lies at the next offset. */
  lemma EntryAtOffset(es: seq<Pair>, k: nat, i: nat)
    requires k >= 1 && i < |es|
    ensures Offset(es, k, i) <= Offset(es, k, i + 1) <= |Body(es, k, |es|)|
    ensures Body(es, k, |es|)[Offset(es, k, i)..] ==
            EntryBytes(Shared(es, k, i), es[i].key, es[i].value) + Body(es, k, |es|)[Offset(es, k, i + 1)..]
  {
    BodyPrefix(es, k, i + 1, |es|);
    SplitBehind(Body(es, k, |es|), Body(es, k, i), EntryBytes(Shared(es, k, i), es[i].key, es[i].value));
  }

  lemma {:induction false} RestartAtPoint(es: seq<Pair>, k: nat, n: nat, j: nat)
    requires k >= 1 && n <= |es| && j < |Points(k, n)|
    ensures Points(k, n)[j] <= |es| && RestartOffsets(es, k, n)[j] == Offset(es, k, Points(k, n)[j])
    decreases n
  {
    if n > 0 && j < |Points(k, n - 1)| {
      RestartAtPoint(es, k, n - 1, j);
    }
  }

  lemma {:induction false} LastPoint(k: nat, n: nat)
    requires k >= 1
    ensures n == Points(k, n)[|Points(k, n)| - 1] + Counter(k, n)
  {
    if n > 0 {
      LastPoint(k, n - 1);
    }
  }

  /** Restart points are k entries apart. */
  lemma {:induction false} PointsSpaced(k: nat, n: nat, j: nat)
    requires k >= 1 && 0 < j < |Points(k, n)|
    ensures Points(k, n)[j] == Points(k, n)[j - 1] + k
    decreases n
  {
    LastPoint(k, n - 1);
    if j < |Points(k, n - 1)| {
      PointsSpaced(k, n - 1, j);
    }
  }

  lemma {:induction false} PointsIncrease(k: nat, n: nat, i: nat, j: nat)
    requires k >= 1 && i < j < |Points(k, n)|
    ensures Points(k, n)[i] < Points(k, n)[j]
    decreases j
  {
    PointsSpaced(k, n, j);
    if i < j - 1 {
      PointsIncrease(k, n, i, j - 1);
    }
  }

  lemma {:induction false} FixedAt(rs: seq<nat>, j: nat)
    requires j < |rs|
    ensures FixedList(rs)[4 * j..4 * j + 4] == PutFixed32(rs[j])
    decreases |rs|
  {
    var init, last := FixedList(rs[..|rs| - 1]), PutFixed32(rs[|rs| - 1]);
    if j < |rs| - 1 {
      FixedAt(rs[..|rs| - 1], j);
      InFirstPart(init, last, 4 * j, 4 * j + 4);
    } else {
      AllOfSecondPart(init, last);
    }
  }

  lemma InFirstPart(a: Bytes, b: Bytes, i: nat, j: nat)
    requires i <= j <= |a|
    ensures (a + b)[i..j] == a[i..j]
  {
  }

  lemma AllOfSecondPart(a: Bytes, b: Bytes)
    ensures (a + b)[|a|..|a| + |b|] == b
  {
  }

  // ---- Opening a block ----

  /** The constructor of Block and NewIterator: a corruption, no restart point at all, or where the
      restart array starts and how long it is. */
  datatype Opening = BadContents | NoRestarts | Opened(restarts: nat, num: nat)

  function NumRestarts(data: Bytes): nat
    requires |data| >= 4
  {
    FixedValue(data[|data| - 4..])
  }

  function Open(data: Bytes): (r: Opening)
    ensures r.Opened? ==> r.num > 0 && r.restarts + 4 * r.num + 4 == |data|
  {
    if |data| < 4 || NumRestarts(data) > (|data| - 4) / 4 then BadContents
    else if NumRestarts(data) == 0 then NoRestarts
    else Opened(|data| - (1 + NumRestarts(data)) * 4, NumRestarts(data))
  }

  function RestartPoint(data: Bytes, restarts: nat, j: nat): nat
    requires restarts + 4 * j + 4 <= |data|
  {
    FixedValue(data[restarts + 4 * j..restarts + 4 * j + 4])
  }

  lemma ThreeParts(a: Bytes, b: Bytes, c: Bytes)
    ensures var d := a + b + c; d[..|a|] == a && d[|d| - |c|..] == c && |d| == |a| + |b| + |c|
  {
  }

  lemma InSecondPart(a: Bytes, b: Bytes, c: Bytes, i: nat, j: nat)
    requires i <= j <= |b|
    ensures (a + b + c)[|a| + i..|a| + j] == b[i..j]
  {
  }

  lemma OpenBlock(es: seq<Pair>, k: nat)
    requires k >= 1 && |Block(es, k)| < WORD32
    ensures Open(Block(es, k)) == Opened(Offset(es, k, |es|), |Points(k, |es|)|)
    ensures Block(es, k)[..Offset(es, k, |es|)] == Body(es, k, |es|)
  {
    var rs := RestartOffsets(es, k, |es|);
    ThreeParts(Body(es, k, |es|), FixedList(rs), PutFixed32(|rs|));
    FixedWidths();
    FixedRoundTrip(|rs|, 4);
  }

  lemma RestartBytes(es: seq<Pair>, k: nat, j: nat)
    requires k >= 1 && j < |RestartOffsets(es, k, |es|)|
    ensures Offset(es, k, |es|) + 4 * j + 4 <= |Block(es, k)|
    ensures RestartPoint(Block(es, k), Offset(es, k, |es|), j) == FixedValue(PutFixed32(RestartOffsets(es, k, |es|)[j]))
  {
    var rs := RestartOffsets(es, k, |es|);
    InSecondPart(Body(es, k, |es|), FixedList(rs), PutFixed32(|rs|), 4 * j, 4 * j + 4);
    FixedAt(rs, j);
  }

  lemma BodyWithinBlock(es: seq<Pair>, k: nat)
    requires k >= 1
    ensures Offset(es, k, |es|) <= |Block(es, k)|
  {
  }

  lemma RestartPointOfBlock(es: seq<Pair>, k: nat, j: nat)
    requires k >= 1 && |Block(es, k)| < WORD32 && j < |Points(k, |es|)|
    ensures Points(k, |es|)[j] <= |es| && Offset(es, k, |es|) + 4 * j + 4 <= |Block(es, k)|
    ensures RestartPoint(Block(es, k), Offset(es, k, |es|), j) == Offset(es, k, Points(k, |es|)[j])
  {
    var o := RestartOffsets(es, k, |es|)[j];
    RestartBytes(es, k, j);
    RestartAtPoint(es, k, |es|, j);
    BodyPrefix(es, k, Points(k, |es|)[j], |es|);
    BodyWithinBlock(es, k);
    assert o < Pow256(4) by {
      FixedWidths();
    }
    FixedRoundTrip(o, 4);
  }

  // ---- The builder ----

  /** less says which keys the comparator orders strictly. */
  ghost predicate Increasing(es: seq<Pair>, less: (Bytes, Bytes) -> bool) {
    forall i {:trigger es[i]} :: 0 < i < |es| ==> less(PreviousKey(es, i), es[i].key)
  }

  lemma {:induction false} PrefixKeeps(es: seq<Pair>, e: Pair, k: nat, n: nat)
    requires k >= 1 && n <= |es|
    ensures Body(es + [e], k, n) == Body(es, k, n) && RestartOffsets(es + [e], k, n) == RestartOffsets(es, k, n)
  {
    if n > 0 {
      PrefixKeeps(es, e, k, n - 1);
      assert (es + [e])[n - 1] == es[n - 1];
      assert PreviousKey(es + [e], n - 1) == PreviousKey(es, n - 1);
    }
  }

  lemma KeyRebuilt(last: Bytes, key: Bytes, shared: nat)
    requires shared <= |last| && shared <= |key| && last[..shared] == key[..shared]
    ensures last[..shared] + key[shared..] == key
  {
  }

  class BlockBuilder {
    const interval: nat
    const less: (Bytes, Bytes) -> bool
    var buffer: Bytes
    var restarts: seq<nat>
    var counter: nat
    var finished: bool
    var lastKey: Bytes
    ghost var added: seq<Pair>

    ghost predicate Valid()
      reads this
    {
      && interval >= 1 && Increasing(added, less)
      && restarts == RestartOffsets(added, interval, |added|)
      && counter == Counter(interval, |added|) && lastKey == PreviousKey(added, |added|)
      && (if finished then buffer == Block(added, interval) else buffer == Body(added, interval, |added|))
    }

    constructor (interval: nat, less: (Bytes, Bytes) -> bool)
      requires interval >= 1
      ensures Valid() && this.interval == interval && this.less == less && !finished && added == []
    {
      this.interval, this.less := interval, less;
      buffer, restarts, counter, finished, lastKey, added := [], [0], 0, false, [], [];
    }

    method Reset()
      requires Valid()
      modifies this
      ensures Valid() && !finished && added == []
    {
      buffer, restarts, counter, finished, lastKey, added := [], [0], 0, false, [], [];
    }

    /** The size of the block if it were finished now. */
    function CurrentSizeEstimate(): (n: nat)
      requires Valid() && !finished
      reads this
      ensures n == |Block(added, interval)|
    {
      |buffer| + |restarts| * 4 + 4
    }

    /** The loop that measures the shared prefix. */
    method SharedPrefix(key: Bytes) returns (shared: nat)
      ensures shared == CommonFrom(lastKey, key, 0)
    {
      var minLength := if |lastKey| < |key| then |lastKey| else |key|;
      shared := 0;
      while shared < minLength && lastKey[shared] == key[shared]
        invariant shared <= minLength && lastKey[..shared] == key[..shared]
        invariant CommonFrom(lastKey, key, shared) == CommonFrom(lastKey, key, 0)
      {
        assert lastKey[..shared + 1] == lastKey[..shared] + [lastKey[shared]];
        assert key[..shared + 1] == key[..shared] + [key[shared]];
        shared := shared + 1;
      }
    }

    method Add(key: Bytes, value: Bytes)
      requires Valid() && !finished
      requires buffer == [] || less(lastKey, key)
      modifies this
      ensures Valid() && !finished && added == old(added) + [Pair(key, value)]
    {
      var shared := 0;
      BuilderNext(key, value);
      if counter < interval {
        shared := SharedPrefix(key);
      } else {
        restarts := restarts + [|buffer|];
        counter := 0;
      }
      AppendEntry(shared, key, value);
      KeyRebuilt(lastKey, key, shared);
      lastKey := lastKey[..shared] + key[shared..];
      counter := counter + 1;
      added := added + [Pair(key, value)];
    }

    /** What the fields must become when an entry is added. */
    lemma BuilderNext(key: Bytes, value: Bytes)
      requires Valid() && !finished && (buffer == [] || less(lastKey, key))
      ensures var es := added + [Pair(key, value)];
        var shared := if counter == interval then 0 else CommonFrom(lastKey, key, 0);
        && Increasing(es, less)
        && RestartOffsets(es, interval, |es|) == restarts + (if counter == interval then [|buffer|] else [])
        && Counter(interval, |es|) == (if counter == interval then 0 else counter) + 1
        && PreviousKey(es, |es|) == key
        && Body(es, interval, |es|) == buffer + EntryBytes(shared, key, value)
    {
      var n, es := |added|, added + [Pair(key, value)];
      PrefixKeeps(added, Pair(key, value), interval, n);
      assert PreviousKey(es, n) == lastKey;
      assert es[n] == Pair(key, value);
      if added != [] {
        OffsetsGrow(added, interval, 0, n);
      }
      IncreasingNext(key, value);
    }

    /** Increasing so far, and the caller's promise about the new key. */
    lemma IncreasingNext(key: Bytes, value: Bytes)
      requires Increasing(added, less) && (added == [] || less(PreviousKey(added, |added|), key))
      ensures Increasing(added + [Pair(key, value)], less)
    {
      var es := added + [Pair(key, value)];
      forall i {:trigger es[i]} | 0 < i < |es|
        ensures less(PreviousKey(es, i), es[i].key)
      {
        if i < |added| {
          assert es[i] == added[i] && PreviousKey(es, i) == PreviousKey(added, i);
        }
      }
    }

    method AppendEntry(shared: nat, key: Bytes, value: Bytes)
      requires shared <= |key|
      modifies this`buffer
      ensures buffer == old(buffer) + EntryBytes(shared, key, value)
    {
      var a, b, c, d := Varint(shared), Varint(|key| - shared), Varint(|value|), key[shared..];
      buffer := buffer + a;
      buffer := buffer + b;
      buffer := buffer + c;
      buffer := buffer + d;
      buffer := buffer + value;
      assert buffer == old(buffer) + (a + (b + (c + (d + value))));
    }

    method Finish() returns (block: Bytes)
      requires Valid() && !finished
      modifies this`buffer, this`finished
      ensures Valid() && finished && block == Block(added, interval)
    {
      ghost var body := buffer;
      for i := 0 to |restarts|
        invariant buffer == body + FixedList(restarts[..i])
      {
        assert restarts[..i + 1][..i] == restarts[..i];
        Associative(body, FixedList(restarts[..i]), PutFixed32(restarts[i]));
        buffer := buffer + PutFixed32(restarts[i]);
      }
      assert restarts[..|restarts|] == restarts;
      buffer := buffer + PutFixed32(|restarts|);
      finished := true;
      block := buffer;
    }
  }
}
