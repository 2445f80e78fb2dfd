/** Write batches as bytes (db/write_batch.cc, db/write_batch_internal.h). */
module WriteBatches {
  import opened DbFormat
  import opened Coding

  const HEADER: nat := 12

  type KeyOp = (Bytes, Op)

  // ---- Encoding ----

  function OpBytes(o: KeyOp): (b: Bytes)
    ensures |b| > 0
  {
    match o.1
    case Put(value) => [1] + (LengthPrefixed(o.0) + LengthPrefixed(value))
    case Del => [0] + LengthPrefixed(o.0)
  }

  function OpsBytes(ops: seq<KeyOp>): Bytes {
    if ops == [] then [] else OpsBytes(ops[..|ops| - 1]) + OpBytes(ops[|ops| - 1])
  }

  function Header(first: nat, count: nat): (b: Bytes)
    ensures |b| == HEADER
  {
    PutFixed64(first) + PutFixed32(count)
  }

  function Encode(first: nat, ops: seq<KeyOp>): (b: Bytes)
    ensures |b| >= HEADER
  {
    Header(first, |ops|) + OpsBytes(ops)
  }

  lemma {:induction false} OpsBytesAppend(a: seq<KeyOp>, b: seq<KeyOp>)
    ensures OpsBytes(a + b) == OpsBytes(a) + OpsBytes(b)
    decreases |b|
  {
    if b == [] {
      assert a + b == a;
    } else {
      var c, o := b[..|b| - 1], b[|b| - 1];
      OpsBytesAppend(a, c);
      assert (a + b)[..|a + b| - 1] == a + c;
      Associative(OpsBytes(a), OpsBytes(c), OpBytes(o));
    }
  }

  // ---- Iterating ----

  datatype Status = Ok | TooSmall | BadPut | BadDelete | UnknownTag | WrongCount

  /** The operations handed out, and how the parse ends. */
  datatype Iteration = Iteration(ops: seq<KeyOp>, status: Status)

  datatype NextOp = NextOp(op: KeyOp, rest: Bytes) | Bad(status: Status)

  /** One record of the batch. */
  function ParseOp(input: Bytes): (r: NextOp)
    requires input != []
    ensures r.NextOp? ==> |r.rest| < |input|
  {
    if input[0] == 1 then
      var key := GetLengthPrefixed(input[1..]);
      if key.None? then Bad(BadPut)
      else
        var value := GetLengthPrefixed(key.value.1);
        if value.None? then Bad(BadPut) else NextOp((key.value.0, Put(value.value.0)), value.value.1)
    else if input[0] == 0 then
      var key := GetLengthPrefixed(input[1..]);
      if key.None? then Bad(BadDelete) else NextOp((key.value.0, Del), key.value.1)
    else Bad(UnknownTag)
  }

  function ParseOps(input: Bytes): Iteration
    decreases |input|
  {
    if input == [] then Iteration([], Ok)
    else
      var r := ParseOp(input);
      if r.Bad? then Iteration([], r.status)
      else
        var more := ParseOps(r.rest);
        Iteration([r.op] + more.ops, more.status)
  }

  function CountOf(rep: Bytes): nat
    requires |rep| >= HEADER
  {
    FixedValue(rep[8..12])
  }

  function SequenceOf(rep: Bytes): nat
    requires |rep| >= HEADER
  {
    FixedValue(rep[..8])
  }

  function IterationOf(rep: Bytes): Iteration {
    if |rep| < HEADER then Iteration([], TooSmall)
    else
      var r := ParseOps(rep[HEADER..]);
      if r.status == Ok && |r.ops| != CountOf(rep) then r.(status := WrongCount) else r
  }

  /** Keys and values short enough for a 32-bit length. */
  predicate Fits(o: KeyOp) {
    |o.0| < WORD32 && (o.1.Put? ==> |o.1.value| < WORD32)
  }

  predicate AllFit(ops: seq<KeyOp>) {
    ops == [] || (AllFit(ops[..|ops| - 1]) && Fits(ops[|ops| - 1]))
  }

  lemma {:induction false} AllFitSum(a: seq<KeyOp>, b: seq<KeyOp>)
    requires AllFit(a) && AllFit(b)
    ensures AllFit(a + b)
    decreases |b|
  {
    if b == [] {
      assert a + b == a;
    } else {
      AllFitSum(a, b[..|b| - 1]);
      assert (a + b)[..|a + b| - 1] == a + b[..|b| - 1];
    }
  }

  lemma OpRoundTrip(o: KeyOp, rest: Bytes)
    requires Fits(o)
    ensures ParseOp(OpBytes(o) + rest) == NextOp(o, rest)
  {
    var input := OpBytes(o) + rest;
    match o.1 {
      case Put(value) =>
        assert input[1..] == LengthPrefixed(o.0) + (LengthPrefixed(value) + rest);
        LengthPrefixedRoundTrip(o.0, LengthPrefixed(value) + rest);
        LengthPrefixedRoundTrip(value, rest);
      case Del =>
        assert input[1..] == LengthPrefixed(o.0) + rest;
        LengthPrefixedRoundTrip(o.0, rest);
    }
  }

  lemma OneParsed(o: KeyOp, input: Bytes, rest: Bytes)
    requires Fits(o) && input == OpBytes(o) + rest
    ensures ParseOps(input) == Prepend([o], ParseOps(rest))
  {
    OpRoundTrip(o, rest);
  }

  /** The last operation parses once the others have been. */
  lemma LastOp(ops: seq<KeyOp>, input: Bytes, rest: Bytes) returns (behind: Bytes)
    requires ops != [] && Fits(ops[|ops| - 1]) && input == OpsBytes(ops) + rest
    ensures input == OpsBytes(ops[..|ops| - 1]) + behind
    ensures ParseOps(behind) == Prepend([ops[|ops| - 1]], ParseOps(rest))
  {
    var o := ops[|ops| - 1];
    behind := OpBytes(o) + rest;
    Associative(OpsBytes(ops[..|ops| - 1]), OpBytes(o), rest);
    OneParsed(o, behind, rest);
  }

  /** Parsing the bytes of some operations hands out those, then goes on behind them. */
  lemma {:induction false} OpsRoundTrip(ops: seq<KeyOp>, input: Bytes, rest: Bytes)
    requires AllFit(ops) && input == OpsBytes(ops) + rest
    ensures ParseOps(input) == Prepend(ops, ParseOps(rest))
    decreases |ops|
  {
    if ops == [] {
      assert input == rest;
    } else {
      var behind := LastOp(ops, input, rest);
      OpsRoundTrip(ops[..|ops| - 1], input, behind);
      PrependLast(ops, ParseOps(rest));
    }
  }

  lemma PrependLast(ops: seq<KeyOp>, r: Iteration)
    requires ops != []
    ensures Prepend(ops[..|ops| - 1], Prepend([ops[|ops| - 1]], r)) == Prepend(ops, r)
  {
    assert ops[..|ops| - 1] + ([ops[|ops| - 1]] + r.ops) == ops + r.ops;
  }

  function Prepend(found: seq<KeyOp>, r: Iteration): (s: Iteration)
    ensures found == [] ==> s == r
    ensures r.ops == [] ==> s.ops == found
  {
    r.(ops := found + r.ops)
  }

  lemma HeaderParts(first: nat, count: nat, body: Bytes)
    requires first < WORD64 && count < WORD32
    ensures var rep := Header(first, count) + body;
      && SequenceOf(rep) == first && CountOf(rep) == count
      && rep[..8] == PutFixed64(first) && rep[HEADER..] == body
  {
    var rep := Header(first, count) + body;
    FixedWidths();
    FixedRoundTrip(first, 8);
    FixedRoundTrip(count, 4);
    assert rep[..8] == PutFixed64(first) && rep[8..12] == PutFixed32(count);
  }

  /** Iterating over an encoded batch hands out its operations, in order. */
  lemma EncodeRoundTrip(first: nat, ops: seq<KeyOp>)
    requires first < WORD64 && |ops| < WORD32 && AllFit(ops)
    ensures IterationOf(Encode(first, ops)) == Iteration(ops, Ok) && SequenceOf(Encode(first, ops)) == first
  {
    HeaderParts(first, |ops|, OpsBytes(ops));
    OpsRoundTrip(ops, OpsBytes(ops), []);
    assert OpsBytes(ops) + [] == OpsBytes(ops);
  }

  // ---- The batch object ----

  /** One more operation, and all operations of another batch, on the bytes. */
  lemma EncodeAppend(first: nat, ops: seq<KeyOp>, more: seq<KeyOp>)
    ensures Encode(first, ops + more) == Header(first, |ops| + |more|) + (OpsBytes(ops) + OpsBytes(more))
    ensures |more| == 1 ==> OpsBytes(more) == OpBytes(more[0])
  {
    OpsBytesAppend(ops, more);
    if |more| == 1 {
      assert more[..0] == [] && OpsBytes(more) == [] + OpBytes(more[0]);
    }
  }

  lemma CountReplaced(first: nat, count: nat, n: nat, body: Bytes)
    ensures var rep := Header(first, count) + body;
      rep[..8] + PutFixed32(n) + rep[HEADER..] == Header(first, n) + body
  {
    var rep := Header(first, count) + body;
    assert rep[..8] == PutFixed64(first) && rep[HEADER..] == body;
  }

  lemma SequenceReplaced(first: nat, count: nat, n: nat, body: Bytes)
    ensures PutFixed64(n) + (Header(first, count) + body)[8..] == Header(n, count) + body
  {
    assert (Header(first, count) + body)[8..] == PutFixed32(count) + body;
  }

  /** rep_ is a header and a body; EncodeAppend says what growing the body means for the
      operations encoded. */
  class WriteBatch {
    var rep: Bytes
    ghost var first: nat
    ghost var count: nat
    ghost var body: Bytes

    ghost predicate Valid()
      reads this
    {
      first < WORD64 && count < WORD32 && rep == Header(first, count) + body
    }

    constructor ()
      ensures Valid() && first == 0 && count == 0 && body == []
      ensures rep == Encode(0, [])
    {
      rep, first, count, body := Header(0, 0), 0, 0, [];
    }

    function Count(): (n: nat)
      requires Valid()
      reads this
      ensures n == count
    {
      HeaderParts(first, count, body);
      CountOf(rep)
    }

    /** Overwrites the count in the header. */
    method SetCount(n: nat)
      requires Valid() && n < WORD32
      modifies this`rep, this`count
      ensures Valid() && count == n
    {
      CountReplaced(first, count, n, body);
      rep := rep[..8] + PutFixed32(n) + rep[HEADER..];
      count := n;
    }

    method SetSequence(seqNum: nat)
      requires Valid() && seqNum < WORD64
      modifies this`rep, this`first
      ensures Valid() && first == seqNum
    {
      SequenceReplaced(first, count, seqNum, body);
      rep := PutFixed64(seqNum) + rep[8..];
      first := seqNum;
    }

    method AppendBytes(b: Bytes)
      requires Valid()
      modifies this`rep, this`body
      ensures Valid() && body == old(body) + b
    {
      Associative(Header(first, count), body, b);
      rep := rep + b;
      body := body + b;
    }

    method Put(key: Bytes, value: Bytes)
      requires Valid() && count + 1 < WORD32
      modifies this
      ensures Valid() && first == old(first) && count == old(count) + 1
      ensures body == old(body) + OpBytes((key, Op.Put(value)))
    {
      PutTail(body, key, value);
      SetCount(Count() + 1);
      AppendBytes([1]);
      AppendBytes(LengthPrefixed(key));
      AppendBytes(LengthPrefixed(value));
    }

    method Delete(key: Bytes)
      requires Valid() && count + 1 < WORD32
      modifies this
      ensures Valid() && first == old(first) && count == old(count) + 1
      ensures body == old(body) + OpBytes((key, Del))
    {
      DeleteTail(body, key);
      SetCount(Count() + 1);
      AppendBytes([0]);
      AppendBytes(LengthPrefixed(key));
    }

    /** Appends the operations of another batch; the sequence number stays. */
    method Append(source: WriteBatch)
      requires Valid() && source.Valid() && source != this && count + source.count < WORD32
      modifies this
      ensures Valid() && first == old(first) && count == old(count) + source.count
      ensures body == old(body) + source.body
    {
      HeaderParts(source.first, source.count, source.body);
      SetCount(Count() + source.Count());
      AppendBytes(source.rep[HEADER..]);
    }

    /** Hands the operations to a handler; the handler's calls are returned as a list. */
    method Iterate() returns (r: Iteration)
      ensures r == IterationOf(rep)
    {
      if |rep| < HEADER {
        return Iteration([], TooSmall);
      }
      var input, found := rep[HEADER..], [];
      while input != []
        invariant Prepend(found, ParseOps(input)) == ParseOps(rep[HEADER..])
        decreases |input|
      {
        var next := ParseOp(input);
        if next.Bad? {
          return Iteration(found, next.status);
        }
        found, input := found + [next.op], next.rest;
      }
      return Iteration(found, if |found| != CountOf(rep) then WrongCount else Ok);
    }
  }

  lemma PutTail(body: Bytes, key: Bytes, value: Bytes)
    ensures body + [1] + LengthPrefixed(key) + LengthPrefixed(value) == body + OpBytes((key, Put(value)))
  {
    Associative(body, [1], LengthPrefixed(key) + LengthPrefixed(value));
    Associative(body + [1], LengthPrefixed(key), LengthPrefixed(value));
  }

  lemma DeleteTail(body: Bytes, key: Bytes)
    ensures body + [0] + LengthPrefixed(key) == body + OpBytes((key, Del))
  {
    Associative(body, [0], LengthPrefixed(key));
  }
}
