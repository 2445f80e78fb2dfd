/** Decoding what was encoded gives back the message. */
module NanopbRoundTrip {
  import opened DbFormat
  import opened Coding
  import opened Nanopb
  import opened NanopbVarints

  // ---- Scalars ----

  lemma SignedRoundTrip(i: int, width: nat)
    requires ValidWidth(width) && IsSigned(i, width)
    ensures ToSigned(ToUnsigned64(i), if width == 8 then 8 else 4) == i
  {
  }

  lemma ZigZagRoundTrip(i: int, width: nat)
    requires ValidWidth(width) && IsSigned(i, width)
    ensures UnZigZag(ZigZag(i)) == i && ZigZag(i) < WORD64
  {
  }

  /** Objects in memory are smaller; a length from here on could pass for the sign extension of a shorter one. */
  const MAX_SIZE: nat := 0x8000_0000_0000_0000

  lemma LengthPrefixedReads(b: Bytes, rest: Bytes)
    requires |b| < MAX_SIZE
    ensures DecodeVarint32(LengthPrefixed(b) + rest) == if |b| < WORD32 then Some((|b|, b + rest)) else None
    ensures Take(b + rest, |b|) == Some((b, rest))
    ensures Substream(LengthPrefixed(b) + rest) == if |b| < WORD32 then Some((b, rest)) else None
  {
    Associative(Varint(|b|), b, rest);
    if |b| < WORD32 {
      Varint32Reads(|b|, b + rest);
    } else {
      LongVarintRefused(|b|, b + rest);
    }
    assert (b + rest)[..|b|] == b && (b + rest)[|b|..] == rest;
  }

  lemma IntegerRoundTrip(t: LType, v: Value, rest: Bytes)
    requires ValidType(t) && (t.TInt? || t.TUInt? || t.TSInt?) && InRange(t, v)
    ensures DecodeScalar(t, ValueBytes(t, v) + rest) == Some((v, rest))
  {
    match t {
      case TInt(w) =>
        SignedRoundTrip(v.i, w);
        Varint64RoundTrip(ToUnsigned64(v.i), rest);
      case TUInt(w) => Varint64RoundTrip(v.i, rest);
      case TSInt(w) =>
        ZigZagRoundTrip(v.i, w);
        Varint64RoundTrip(ZigZag(v.i), rest);
    }
  }

  lemma TakePrefix(b: Bytes, rest: Bytes)
    ensures Take(b + rest, |b|) == Some((b, rest))
  {
    assert (b + rest)[..|b|] == b && (b + rest)[|b|..] == rest;
  }

  lemma FixedReads(t: LType, v: Value, rest: Bytes)
    requires (t.TFixed32? || t.TFixed64?) && InRange(t, v)
    ensures DecodeScalar(t, ValueBytes(t, v) + rest) == Some((v, rest))
  {
    FixedWidths();
    FixedRoundTrip(v.i, if t.TFixed32? then 4 else 8);
    TakePrefix(ValueBytes(t, v), rest);
  }

  lemma StringReads(t: LType, v: Value, rest: Bytes)
    requires (t.TBytes? || t.TString? || t.TFixedBytes?) && InRange(t, v) && |v.bytes| < MAX_SIZE
    ensures DecodeScalar(t, ValueBytes(t, v) + rest) == if Readable(t, v) then Some((v, rest)) else None
  {
    LengthPrefixedReads(v.bytes, rest);
  }

  lemma ScalarRoundTrip(t: LType, v: Value, rest: Bytes)
    requires ValidType(t) && !t.TMessage? && InRange(t, v) && |ValueBytes(t, v)| < MAX_SIZE
    ensures DecodeScalar(t, ValueBytes(t, v) + rest) == if Readable(t, v) then Some((v, rest)) else None
  {
    if t.TBool? {
      Varint32Reads(if v.b then 1 else 0, rest);
    } else if t.TInt? || t.TUInt? || t.TSInt? {
      IntegerRoundTrip(t, v, rest);
    } else if t.TFixed32? || t.TFixed64? {
      FixedReads(t, v, rest);
    } else {
      StringReads(t, v, rest);
    }
  }

  // ---- Packed arrays ----

  ghost predicate AllInRange(t: LType, slot: seq<Value>)
    requires ValidType(t)
  {
    forall k :: 0 <= k < |slot| ==> InRange(t, slot[k])
  }

  lemma {:induction false} PackedGrows(t: LType, slot: seq<Value>, n: nat)
    requires ValidType(t) && AllInRange(t, slot) && n < |slot|
    ensures |PackedBytes(t, slot, n)| <= |PackedBytes(t, slot, n + 1)| <= |PackedBytes(t, slot, |slot|)|
    ensures |ValueBytes(t, slot[n])| <= |PackedBytes(t, slot, |slot|)|
    decreases |slot| - n
  {
    if n + 1 < |slot| {
      PackedGrows(t, slot, n + 1);
    }
  }

  /** Item n of a packed array. */
  lemma PackedItem(t: LType, max: nat, slot: seq<Value>, n: nat, content: Bytes, rest: Bytes)
    requires ValidType(t) && Packable(t) && AllInRange(t, slot) && n < |slot| <= max
    requires |ValueBytes(t, slot[n])| < MAX_SIZE && content == ValueBytes(t, slot[n]) + rest
    ensures DecodePacked(t, max, slot[..n], content) == DecodePacked(t, max, slot[..n + 1], rest)
  {
    ScalarRoundTrip(t, slot[n], rest);
    ScalarNotEmpty(t, slot[n]);
    assert slot[..n] + [slot[n]] == slot[..n + 1];
  }

  /** The items of a packed array from n on. */
  lemma {:induction false} PackedReads(t: LType, max: nat, slot: seq<Value>, n: nat, content: Bytes)
    requires ValidType(t) && Packable(t) && AllInRange(t, slot) && n <= |slot| <= max
    requires |PackedBytes(t, slot, |slot|)| < MAX_SIZE
    requires PackedBytes(t, slot, |slot|) == PackedBytes(t, slot, n) + content
    ensures DecodePacked(t, max, slot[..n], content) == Some(slot)
    decreases |slot| - n
  {
    if n == |slot| {
      assert content == [] && slot[..n] == slot;
    } else {
      PackedGrows(t, slot, n);
      var rest := PackedTail(t, slot, n, content);
      PackedItem(t, max, slot, n, content, rest);
      PackedReads(t, max, slot, n + 1, rest);
    }
  }

  lemma ScalarNotEmpty(t: LType, v: Value)
    requires ValidType(t) && Packable(t) && InRange(t, v)
    ensures ValueBytes(t, v) != []
  {
  }

  lemma {:induction false} PackedPrefix(t: LType, slot: seq<Value>, n: nat, m: nat)
    requires ValidType(t) && AllInRange(t, slot) && n <= m <= |slot|
    ensures PackedBytes(t, slot, n) <= PackedBytes(t, slot, m)
    decreases m - n
  {
    if n < m {
      PackedPrefix(t, slot, n, m - 1);
    }
  }

  /** What follows item n of a packed array. */
  lemma PackedTail(t: LType, slot: seq<Value>, n: nat, content: Bytes) returns (rest: Bytes)
    requires ValidType(t) && AllInRange(t, slot) && n < |slot|
    requires PackedBytes(t, slot, |slot|) == PackedBytes(t, slot, n) + content
    ensures content == ValueBytes(t, slot[n]) + rest
    ensures PackedBytes(t, slot, |slot|) == PackedBytes(t, slot, n + 1) + rest
  {
    var all, before, v := PackedBytes(t, slot, |slot|), PackedBytes(t, slot, n), ValueBytes(t, slot[n]);
    PackedPrefix(t, slot, n + 1, |slot|);
    rest := all[|before| + |v|..];
    Cut(all, before, v, content);
  }

  lemma Cut(all: Bytes, a: Bytes, b: Bytes, content: Bytes)
    requires a + b <= all && all == a + content
    ensures content == b + all[|a| + |b|..] && all == (a + b) + all[|a| + |b|..]
  {
    assert all[..|a + b|] == a + b;
    assert content == all[|a|..] && content[..|b|] == all[..|a + b|][|a|..] == b;
  }

  // ---- One field of a message ----

  lemma TagReads(wire: nat, tag: nat, rest: Bytes)
    requires wire < 8 && 0 < tag < MAX_FIELD_TAG
    ensures DecodeTag(TagBytes(wire, tag) + rest) == Tag(tag, wire, rest)
  {
    Varint32Reads(tag * 8 + wire, rest);
    assert (tag * 8 + wire) / 8 == tag && (tag * 8 + wire) % 8 == wire;
  }

  lemma FindsField(fields: seq<Field>, i: nat, n: nat)
    requires ValidFields(fields) && i < n <= |fields|
    ensures FindTag(fields, fields[i].tag, n) == Some(i)
  {
  }

  lemma FieldFound(fields: seq<Field>, i: nat, tag: nat, wire: nat, input: Bytes, behind: Bytes, msg: Message, seen: set<nat>)
    requires ValidFields(fields) && i < |fields| == |msg| && ValidField(fields[i])
    requires input != [] && DecodeTag(input) == Tag(tag, wire, behind) && FindTag(fields, tag, |fields|) == Some(i)
    ensures var slot := DecodeField(fields[i], wire, msg[i], behind);
            DecodeMessage(fields, input, msg, seen) ==
            if slot.None? then None else DecodeMessage(fields, slot.value.1, Select(fields, msg, i, slot.value.0), seen + {i})
  {
  }

  /** A tag and a field that decodes: the loop goes on behind it. */
  lemma TagStep(fields: seq<Field>, i: nat, wire: nat, input: Bytes, behind: Bytes, msg: Message, seen: set<nat>,
                slot: seq<Value>, rest: Bytes)
    requires ValidFields(fields) && i < |fields| == |msg| && wire < 8 && ValidField(fields[i])
    requires input == TagBytes(wire, fields[i].tag) + behind
    requires DecodeField(fields[i], wire, msg[i], behind) == Some((slot, rest))
    ensures |rest| <= |input|
    ensures DecodeMessage(fields, input, msg, seen) == DecodeMessage(fields, rest, Select(fields, msg, i, slot), seen + {i})
  {
    TagReads(wire, fields[i].tag, behind);
    FindsField(fields, i, |fields|);
    FieldFound(fields, i, fields[i].tag, wire, input, behind, msg, seen);
  }

  /** A tag and a field that does not decode: neither does the message. */
  lemma TagStops(fields: seq<Field>, i: nat, wire: nat, input: Bytes, behind: Bytes, msg: Message, seen: set<nat>)
    requires ValidFields(fields) && i < |fields| == |msg| && wire < 8 && ValidField(fields[i])
    requires input == TagBytes(wire, fields[i].tag) + behind && DecodeField(fields[i], wire, msg[i], behind) == None
    ensures DecodeMessage(fields, input, msg, seen) == None
  {
    TagReads(wire, fields[i].tag, behind);
    FindsField(fields, i, |fields|);
    FieldFound(fields, i, fields[i].tag, wire, input, behind, msg, seen);
  }

  // ---- Whole messages ----

  /** The message with only its first n fields. */
  function FirstFields(msg: Message, n: nat): (m: Message)
    requires n <= |msg|
    ensures |m| == |msg|
    ensures forall i :: 0 <= i < |msg| ==> m[i] == if i < n then msg[i] else []
  {
    msg[..n] + EmptyMessage(|msg| - n)
  }

  /** The fields among the first n that are present. */
  function Present(msg: Message, n: nat): set<nat>
    requires n <= |msg|
  {
    if n == 0 then {} else Present(msg, n - 1) + if msg[n - 1] == [] then {} else {n - 1}
  }

  /** Decoding a field of a union finds the other members of the union unselected. */
  lemma SelectNext(fields: seq<Field>, msg: Message, i: nat, slot: seq<Value>)
    requires ValidFields(fields) && MessageInRange(fields, msg) && i < |fields| && msg[i] != []
    ensures Select(fields, FirstFields(msg, i), i, slot) == FirstFields(msg, i)[i := slot]
  {
    var m, h := FirstFields(msg, i), fields[i].htype;
    forall j | 0 <= j < |msg| && j != i
      ensures Selected(fields, m, h, |m|)[j] == m[j]
    {
    }
  }

  lemma FirstFieldsStep(msg: Message, i: nat)
    requires i < |msg|
    ensures FirstFields(msg, i)[i := msg[i]] == FirstFields(msg, i + 1)
    ensures msg[i] == [] ==> FirstFields(msg, i) == FirstFields(msg, i + 1)
  {
    if msg[i] == [] {
      assert FirstFields(msg, i) == FirstFields(msg, i + 1);
    }
  }

  /** A submessage or scalar, decoded into an untouched member. */
  lemma {:induction false} ValueReads(t: LType, v: Value, input: Bytes, rest: Bytes)
    requires ValidType(t) && InRange(t, v) && |ValueBytes(t, v)| < MAX_SIZE
    requires input == ValueBytes(t, v) + rest
    ensures DecodeValue(t, [], input) == if Readable(t, v) then Some((v, rest)) else None
    decreases t, 0
  {
    if t.TMessage? {
      var content := MessageBytes(t.fields, v.slots, |t.fields|);
      LengthPrefixedReads(content, rest);
      MessageRoundTrip(t.fields, v.slots);
    } else {
      ScalarRoundTrip(t, v, rest);
    }
  }

  /** decode_static_field on the next value of a field that is not packed. */
  lemma {:induction false} NextValue(f: Field, slot: seq<Value>, k: nat, input: Bytes, rest: Bytes)
    requires ValidField(f) && SlotInRange(f, slot) && k < |slot| && !(f.htype.Repeated? && Packable(f.ltype))
    requires |ValueBytes(f.ltype, slot[k])| < MAX_SIZE && input == ValueBytes(f.ltype, slot[k]) + rest
    ensures DecodeField(f, WireType(f.ltype), slot[..k], input) ==
            if Readable(f.ltype, slot[k]) then Some((slot[..k + 1], rest)) else None
    decreases f, 0
  {
    ValueReads(f.ltype, slot[k], input, rest);
    assert slot[..k + 1] == slot[..k] + [slot[k]];
    if !f.htype.Repeated? {
      assert slot[..k] == [] && slot[..k + 1] == [slot[k]];
    }
  }

  /** decode_static_field on a packed array. */
  lemma PackedField(f: Field, slot: seq<Value>, input: Bytes, rest: Bytes)
    requires ValidField(f) && SlotInRange(f, slot) && f.htype.Repeated? && Packable(f.ltype)
    requires |PackedBytes(f.ltype, slot, |slot|)| < MAX_SIZE && input == LengthPrefixed(PackedBytes(f.ltype, slot, |slot|)) + rest
    ensures DecodeField(f, WT_STRING, [], input) == if SlotReadable(f, slot) then Some((slot, rest)) else None
  {
    var content := PackedBytes(f.ltype, slot, |slot|);
    LengthPrefixedReads(content, rest);
    if SlotReadable(f, slot) {
      assert [] + content == content && slot[..0] == [];
      PackedReads(f.ltype, f.htype.max, slot, 0, content);
    }
  }

  /** The first k values can be read back. */
  predicate FirstReadable(f: Field, slot: seq<Value>, k: nat)
    requires ValidField(f) && SlotInRange(f, slot) && k <= |slot|
  {
    k == 0 || (FirstReadable(f, slot, k - 1) && Readable(f.ltype, slot[k - 1]))
  }

  lemma {:induction false} AllReadable(f: Field, slot: seq<Value>, k: nat)
    requires ValidField(f) && SlotInRange(f, slot) && k <= |slot|
    ensures FirstReadable(f, slot, k) <==> forall j :: 0 <= j < k ==> Readable(f.ltype, slot[j])
  {
    if k > 0 {
      AllReadable(f, slot, k - 1);
    }
  }

  /** DecodeMessage on the first k tagged values of field i, with the fields before it done. */
  lemma {:induction false} TaggedReads(fields: seq<Field>, msg: Message, i: nat, k: nat, input: Bytes, rest: Bytes, seen: set<nat>)
    requires ValidFields(fields) && MessageInRange(fields, msg) && i < |fields| && k <= |msg[i]|
    requires !(fields[i].htype.Repeated? && Packable(fields[i].ltype))
    requires ValidField(fields[i]) && SlotInRange(fields[i], msg[i])
    requires |TaggedBytes(fields[i], msg[i], k)| < MAX_SIZE && input == TaggedBytes(fields[i], msg[i], k) + rest
    ensures DecodeMessage(fields, input, FirstFields(msg, i), seen) ==
            if FirstReadable(fields[i], msg[i], k) then
              DecodeMessage(fields, rest, FirstFields(msg, i)[i := msg[i][..k]], if k == 0 then seen else seen + {i})
            else None
    decreases fields[i], k + 1
  {
    var f, slot := fields[i], msg[i];
    if k == 0 {
      assert input == rest && FirstFields(msg, i)[i := slot[..0]] == FirstFields(msg, i);
    } else {
      var v, tag := ValueBytes(f.ltype, slot[k - 1]), TagBytes(WireType(f.ltype), f.tag);
      var next := tag + (v + rest);
      Regroup(TaggedBytes(f, slot, k - 1), tag, v, rest);
      TaggedReads(fields, msg, i, k - 1, input, next, seen);
      NextValue(f, slot, k - 1, v + rest, rest);
      var m := FirstFields(msg, i)[i := slot[..k - 1]];
      if Readable(f.ltype, slot[k - 1]) {
        TagStep(fields, i, WireType(f.ltype), next, v + rest, m, if k == 1 then seen else seen + {i}, slot[..k], rest);
        SelectAgain(fields, msg, i, slot[..k - 1], slot[..k]);
      } else {
        TagStops(fields, i, WireType(f.ltype), next, v + rest, m, if k == 1 then seen else seen + {i});
      }
    }
  }

  lemma SelectAgain(fields: seq<Field>, msg: Message, i: nat, slot: seq<Value>, slot': seq<Value>)
    requires ValidFields(fields) && MessageInRange(fields, msg) && i < |fields| && msg[i] != []
    ensures Select(fields, FirstFields(msg, i)[i := slot], i, slot') == FirstFields(msg, i)[i := slot']
  {
    var m, h := FirstFields(msg, i)[i := slot], fields[i].htype;
    forall j | 0 <= j < |msg| && j != i
      ensures Selected(fields, m, h, |m|)[j] == m[j]
    {
    }
  }

  lemma Regroup(a: Bytes, b: Bytes, c: Bytes, d: Bytes)
    ensures a + (b + c) + d == a + (b + (c + d))
  {
  }

  /** DecodeMessage on field i, with the fields before it done. */
  lemma {:induction false} FieldReads(fields: seq<Field>, msg: Message, i: nat, input: Bytes, rest: Bytes)
    requires ValidFields(fields) && MessageInRange(fields, msg) && i < |fields|
    requires ValidField(fields[i]) && SlotInRange(fields[i], msg[i])
    requires |FieldBytes(fields[i], msg[i])| < MAX_SIZE && input == FieldBytes(fields[i], msg[i]) + rest
    ensures DecodeMessage(fields, input, FirstFields(msg, i), Present(msg, i)) ==
            if SlotReadable(fields[i], msg[i]) then DecodeMessage(fields, rest, FirstFields(msg, i + 1), Present(msg, i + 1)) else None
    decreases fields[i], |msg[i]| + 2
  {
    FirstFieldsStep(msg, i);
    PresentStep(msg, i);
    if msg[i] == [] {
      NothingWritten(fields[i], msg[i]);
      assert input == rest;
    } else if fields[i].htype.Repeated? && Packable(fields[i].ltype) {
      PackedFieldReads(fields, msg, i, input, rest);
    } else {
      AllReadable(fields[i], msg[i], |msg[i]|);
      TaggedReads(fields, msg, i, |msg[i]|, input, rest, Present(msg, i));
      assert msg[i][..|msg[i]|] == msg[i];
    }
  }

  lemma NothingWritten(f: Field, slot: seq<Value>)
    requires ValidField(f) && SlotInRange(f, slot) && slot == []
    ensures FieldBytes(f, slot) == [] && SlotReadable(f, slot)
  {
  }

  lemma PresentStep(msg: Message, i: nat)
    requires i < |msg|
    ensures Present(msg, i + 1) == if msg[i] == [] then Present(msg, i) else Present(msg, i) + {i}
  {
  }

  lemma PackedFieldReads(fields: seq<Field>, msg: Message, i: nat, input: Bytes, rest: Bytes)
    requires ValidFields(fields) && MessageInRange(fields, msg) && i < |fields| && msg[i] != []
    requires ValidField(fields[i]) && SlotInRange(fields[i], msg[i]) && fields[i].htype.Repeated? && Packable(fields[i].ltype)
    requires |FieldBytes(fields[i], msg[i])| < MAX_SIZE && input == FieldBytes(fields[i], msg[i]) + rest
    ensures DecodeMessage(fields, input, FirstFields(msg, i), Present(msg, i)) ==
            if SlotReadable(fields[i], msg[i]) then DecodeMessage(fields, rest, FirstFields(msg, i)[i := msg[i]], Present(msg, i) + {i})
            else None
  {
    var f, slot := fields[i], msg[i];
    var content := LengthPrefixed(PackedBytes(f.ltype, slot, |slot|));
    Associative(TagBytes(WT_STRING, f.tag), content, rest);
    PackedField(f, slot, content + rest, rest);
    if SlotReadable(f, slot) {
      TagStep(fields, i, WT_STRING, input, content + rest, FirstFields(msg, i), Present(msg, i), slot, rest);
      SelectNext(fields, msg, i, slot);
    } else {
      TagStops(fields, i, WT_STRING, input, content + rest, FirstFields(msg, i), Present(msg, i));
    }
  }

  lemma {:induction false} MessageGrows(fields: seq<Field>, msg: Message, n: nat)
    requires ValidFields(fields) && MessageInRange(fields, msg) && n < |fields|
    ensures |MessageBytes(fields, msg, n)| <= |MessageBytes(fields, msg, n + 1)|
    ensures |FieldBytes(fields[n], msg[n])| <= |MessageBytes(fields, msg, n + 1)|
  {
  }

  lemma FieldOfMessage(fields: seq<Field>, msg: Message, i: nat)
    requires ValidFields(fields) && MessageInRange(fields, msg) && i < |fields|
    ensures ValidField(fields[i]) && SlotInRange(fields[i], msg[i])
  {
  }

  lemma NoFields(msg: Message)
    ensures FirstFields(msg, 0) == EmptyMessage(|msg|)
  {
    assert msg[..0] == [];
  }

  lemma LastField(fields: seq<Field>, msg: Message, n: nat, input: Bytes, rest: Bytes) returns (behind: Bytes)
    requires ValidFields(fields) && MessageInRange(fields, msg) && 0 < n <= |fields|
    requires input == MessageBytes(fields, msg, n) + rest
    ensures ValidField(fields[n - 1]) && SlotInRange(fields[n - 1], msg[n - 1])
    ensures input == MessageBytes(fields, msg, n - 1) + behind
    ensures behind == FieldBytes(fields[n - 1], msg[n - 1]) + rest
  {
    FieldOfMessage(fields, msg, n - 1);
    behind := FieldBytes(fields[n - 1], msg[n - 1]) + rest;
    Associative(MessageBytes(fields, msg, n - 1), FieldBytes(fields[n - 1], msg[n - 1]), rest);
  }

  predicate FieldsReadable(fields: seq<Field>, msg: Message, n: nat)
    requires ValidFields(fields) && MessageInRange(fields, msg) && n <= |fields|
  {
    n == 0 || (FieldsReadable(fields, msg, n - 1) && SlotReadable(fields[n - 1], msg[n - 1]))
  }

  lemma {:induction false} AllFieldsReadable(fields: seq<Field>, msg: Message, n: nat)
    requires ValidFields(fields) && MessageInRange(fields, msg) && n <= |fields|
    ensures FieldsReadable(fields, msg, n) <==> forall i :: 0 <= i < n ==> SlotReadable(fields[i], msg[i])
  {
    if n > 0 {
      AllFieldsReadable(fields, msg, n - 1);
    }
  }

  /** DecodeMessage on the first n fields of a message. */
  lemma {:induction false} FieldsRead(fields: seq<Field>, msg: Message, n: nat, input: Bytes, rest: Bytes)
    requires ValidFields(fields) && MessageInRange(fields, msg) && n <= |fields|
    requires |MessageBytes(fields, msg, n)| < MAX_SIZE && input == MessageBytes(fields, msg, n) + rest
    ensures DecodeMessage(fields, input, EmptyMessage(|fields|), {}) ==
            if FieldsReadable(fields, msg, n) then DecodeMessage(fields, rest, FirstFields(msg, n), Present(msg, n)) else None
    decreases fields, n
  {
    if n == 0 {
      NoFields(msg);
      assert input == rest;
    } else {
      var behind := LastField(fields, msg, n, input, rest);
      MessageGrows(fields, msg, n - 1);
      FieldsRead(fields, msg, n - 1, input, behind);
      FieldReads(fields, msg, n - 1, behind, rest);
    }
  }

  lemma {:induction false} PresentIs(msg: Message, n: nat)
    requires n <= |msg|
    ensures forall i :: 0 <= i < n && msg[i] != [] ==> i in Present(msg, n)
  {
    if n > 0 {
      PresentIs(msg, n - 1);
    }
  }

  /** pb_decode of what pb_encode wrote: every field of the message is back and nothing is left, if and
      only if at any depth every string leaves room for its terminator and every length fits 32 bits.  The
      encoder writes strings that fill their array and lengths of 64 bits; the decoder of the same schema
      refuses both. */
  lemma {:induction false} MessageRoundTrip(fields: seq<Field>, msg: Message)
    requires ValidFields(fields) && MessageInRange(fields, msg) && |MessageBytes(fields, msg, |fields|)| < MAX_SIZE
    ensures DecodeMessage(fields, MessageBytes(fields, msg, |fields|), EmptyMessage(|fields|), {}) ==
            if MessageReadable(fields, msg) then Some((msg, [])) else None
    decreases fields, |fields| + 1
  {
    var bytes := MessageBytes(fields, msg, |fields|);
    assert bytes + [] == bytes;
    FieldsRead(fields, msg, |fields|, bytes, []);
    AllFieldsReadable(fields, msg, |fields|);
    assert FirstFields(msg, |fields|) == msg;
    PresentIs(msg, |fields|);
    forall i | 0 <= i < |fields| && fields[i].htype.Required?
      ensures msg[i] != []
    {
      assert SlotInRange(fields[i], msg[i]);
    }
  }
}
