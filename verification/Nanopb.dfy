/** The wire format of nanopb messages with static fields: schemas, values, what the encoder
    writes and what the decoder makes of any bytes (pb.h, pb_encode.c, pb_decode.c). */
module Nanopb {
  import opened DbFormat
  import opened Coding

  // ---- Schemas and messages ----

  /** Field data types; widths and sizes are data_size in bytes. */
  datatype LType =
    | TBool | TInt(width: nat) | TUInt(width: nat) | TSInt(width: nat) | TFixed32 | TFixed64
    | TBytes(max: nat) | TString(size: nat) | TFixedBytes(size: nat) | TMessage(fields: seq<Field>)

  /** Repetition rules.  Fields of one union share a group. */
  datatype HType = Required | Optional | Repeated(max: nat) | OneOf(group: nat)

  datatype Field = Field(tag: nat, ltype: LType, htype: HType)

  datatype Value = VBool(b: bool) | VInt(i: int) | VBytes(bytes: Bytes) | VMessage(slots: Message)

  /** The data present in a message struct, field by field: one value for a required field, at
      most one for an optional or selected oneof field, any number for a repeated one. */
  type Message = seq<seq<Value>>

  const MAX_FIELD_TAG: nat := 0x2000_0000
  const MAX_REQUIRED_FIELDS := 64

  const WT_VARINT := 0
  const WT_64BIT := 1
  const WT_STRING := 2
  const WT_32BIT := 5

  function WireType(t: LType): nat {
    match t
    case TBool | TInt(_) | TUInt(_) | TSInt(_) => WT_VARINT
    case TFixed32 => WT_32BIT
    case TFixed64 => WT_64BIT
    case TBytes(_) | TString(_) | TFixedBytes(_) | TMessage(_) => WT_STRING
  }

  predicate Packable(t: LType) {
    t.TBool? || t.TInt? || t.TUInt? || t.TSInt? || t.TFixed32? || t.TFixed64?
  }

  predicate ValidWidth(w: nat) {
    w == 1 || w == 2 || w == 4 || w == 8
  }

  predicate ValidType(t: LType)
    decreases t
  {
    match t
    case TInt(w) => ValidWidth(w)
    case TUInt(w) => ValidWidth(w)
    case TSInt(w) => ValidWidth(w)
    case TMessage(fields) => ValidFields(fields)
    case _ => true
  }

  /** Distinct non-zero tags, and the same inside submessages. */
  predicate ValidFields(fields: seq<Field>)
    decreases fields
  {
    && (forall i :: 0 <= i < |fields| ==> ValidField(fields[i]))
    && (forall i, j :: 0 <= i < j < |fields| ==> fields[i].tag != fields[j].tag)
  }

  predicate ValidField(f: Field)
    decreases f
  {
    0 < f.tag < MAX_FIELD_TAG && ValidType(f.ltype)
  }

  function Half(width: nat): (h: nat)
    requires ValidWidth(width)
  {
    if width == 1 then 0x80 else if width == 2 then 0x8000 else if width == 4 then 0x8000_0000 else 0x8000_0000_0000_0000
  }

  predicate IsSigned(i: int, width: nat)
    requires ValidWidth(width)
  {
    var h: int := Half(width); -h <= i < h
  }

  predicate IsUnsigned(i: int, width: nat)
    requires ValidWidth(width)
  {
    0 <= i < 2 * Half(width)
  }

  /** A value a struct member of this type can hold; what is too long for the member is given by its
      length alone. */
  predicate Holds(t: LType, v: Value)
    requires ValidType(t)
    decreases t
  {
    match t
    case TBool => v.VBool?
    case TInt(w) => v.VInt? && IsSigned(v.i, w)
    case TUInt(w) => v.VInt? && IsUnsigned(v.i, w)
    case TSInt(w) => v.VInt? && IsSigned(v.i, w)
    case TFixed32 => v.VInt? && 0 <= v.i < WORD32
    case TFixed64 => v.VInt? && 0 <= v.i < WORD64
    case TBytes(_) => v.VBytes?
    case TString(size) => v.VBytes? && |v.bytes| <= size && forall k :: 0 <= k < |v.bytes| ==> v.bytes[k] != 0
    case TFixedBytes(size) => v.VBytes? && |v.bytes| == size
    case TMessage(fields) => v.VMessage? && MessageHolds(fields, v.slots)
  }

  predicate SlotHolds(f: Field, slot: seq<Value>)
    requires ValidField(f)
    decreases f
  {
    (f.htype.Repeated? || CountInRange(f.htype, |slot|)) && forall k :: 0 <= k < |slot| ==> Holds(f.ltype, slot[k])
  }

  /** Of each union at most one member is present. */
  predicate MessageHolds(fields: seq<Field>, msg: Message)
    requires ValidFields(fields)
    decreases fields
  {
    && |msg| == |fields|
    && (forall i :: 0 <= i < |fields| ==> SlotHolds(fields[i], msg[i]))
    && (forall i, j :: 0 <= i < j < |fields| && fields[i].htype.OneOf? && fields[i].htype == fields[j].htype ==> msg[i] == [] || msg[j] == [])
  }

  /** A value the encoder accepts: arrays and bytes no longer than their members allow.  A string may fill its
      array and leave no room for a terminator. */
  predicate InRange(t: LType, v: Value)
    requires ValidType(t)
    decreases t
  {
    match t
    case TBool => v.VBool?
    case TInt(w) => v.VInt? && IsSigned(v.i, w)
    case TUInt(w) => v.VInt? && IsUnsigned(v.i, w)
    case TSInt(w) => v.VInt? && IsSigned(v.i, w)
    case TFixed32 => v.VInt? && 0 <= v.i < WORD32
    case TFixed64 => v.VInt? && 0 <= v.i < WORD64
    case TBytes(max) => v.VBytes? && |v.bytes| <= max
    case TString(size) => v.VBytes? && |v.bytes| <= size && forall k :: 0 <= k < |v.bytes| ==> v.bytes[k] != 0
    case TFixedBytes(size) => v.VBytes? && |v.bytes| == size
    case TMessage(fields) => v.VMessage? && MessageInRange(fields, v.slots)
  }

  predicate CountInRange(h: HType, count: nat) {
    match h
    case Required => count == 1
    case Optional => count <= 1
    case Repeated(max) => count <= max
    case OneOf(_) => count <= 1
  }

  predicate SlotInRange(f: Field, slot: seq<Value>)
    requires ValidField(f)
    decreases f
  {
    CountInRange(f.htype, |slot|) && forall k :: 0 <= k < |slot| ==> InRange(f.ltype, slot[k])
  }

  /** Every member in range; of each union at most one member present. */
  predicate MessageInRange(fields: seq<Field>, msg: Message)
    requires ValidFields(fields)
    decreases fields
  {
    && |msg| == |fields|
    && (forall i :: 0 <= i < |fields| ==> SlotInRange(fields[i], msg[i]))
    && (forall i, j :: 0 <= i < j < |fields| && fields[i].htype.OneOf? && fields[i].htype == fields[j].htype ==> msg[i] == [] || msg[j] == [])
  }

  // ---- Encoding ----

  /** Cast of a signed integer to uint64_t. */
  function ToUnsigned64(i: int): nat
    requires -0x8000_0000_0000_0000 <= i < WORD64
  {
    if i < 0 then i + WORD64 else i
  }

  function ZigZag(i: int): nat {
    if i < 0 then -2 * i - 1 else 2 * i
  }

  function TagBytes(wire: nat, tag: nat): Bytes {
    Varint(tag * 8 + wire)
  }

  function ValueBytes(t: LType, v: Value): Bytes
    requires ValidType(t) && InRange(t, v)
    decreases t, 0
  {
    match t
    case TBool => Varint(if v.b then 1 else 0)
    case TInt(w) => Varint(ToUnsigned64(v.i))
    case TUInt(w) => Varint(v.i)
    case TSInt(w) => Varint(ZigZag(v.i))
    case TFixed32 => Fixed(v.i, 4)
    case TFixed64 => Fixed(v.i, 8)
    case TBytes(_) => LengthPrefixed(v.bytes)
    case TString(_) => LengthPrefixed(v.bytes)
    case TFixedBytes(_) => LengthPrefixed(v.bytes)
    case TMessage(fields) => LengthPrefixed(MessageBytes(fields, v.slots, |fields|))
  }

  /** The values of a packed array, one after the other. */
  function PackedBytes(t: LType, slot: seq<Value>, n: nat): Bytes
    requires ValidType(t) && n <= |slot| && forall k :: 0 <= k < |slot| ==> InRange(t, slot[k])
    decreases t, n + 1
  {
    if n == 0 then [] else PackedBytes(t, slot, n - 1) + ValueBytes(t, slot[n - 1])
  }

  /** The first n values of a field, each with its tag. */
  function TaggedBytes(f: Field, slot: seq<Value>, n: nat): Bytes
    requires ValidField(f) && n <= |slot| && forall k :: 0 <= k < |slot| ==> InRange(f.ltype, slot[k])
    decreases f, n
  {
    if n == 0 then []
    else TaggedBytes(f, slot, n - 1) + (TagBytes(WireType(f.ltype), f.tag) + ValueBytes(f.ltype, slot[n - 1]))
  }

  /** encode_basic_field; repeated fields of packable types are always packed. */
  function FieldBytes(f: Field, slot: seq<Value>): Bytes
    requires ValidField(f) && SlotInRange(f, slot)
    decreases f, |slot| + 1
  {
    if f.htype.Repeated? && Packable(f.ltype) then
      if slot == [] then [] else TagBytes(WT_STRING, f.tag) + LengthPrefixed(PackedBytes(f.ltype, slot, |slot|))
    else TaggedBytes(f, slot, |slot|)
  }

  /** The first n fields of a message. */
  function MessageBytes(fields: seq<Field>, msg: Message, n: nat): Bytes
    requires ValidFields(fields) && MessageInRange(fields, msg) && n <= |fields|
    decreases fields, n
  {
    if n == 0 then [] else MessageBytes(fields, msg, n - 1) + FieldBytes(fields[n - 1], msg[n - 1])
  }

  // ---- What the decoder cannot take back ----

  /** A string leaves room for its terminator, and a length before a value has 32 bits. */
  predicate Readable(t: LType, v: Value)
    requires ValidType(t) && InRange(t, v)
    decreases t
  {
    match t
    case TBytes(_) => |v.bytes| < WORD32
    case TString(size) => |v.bytes| < size && |v.bytes| < WORD32
    case TFixedBytes(_) => |v.bytes| < WORD32
    case TMessage(fields) => |MessageBytes(fields, v.slots, |fields|)| < WORD32 && MessageReadable(fields, v.slots)
    case _ => true
  }

  predicate SlotReadable(f: Field, slot: seq<Value>)
    requires ValidField(f) && SlotInRange(f, slot)
    decreases f
  {
    if f.htype.Repeated? && Packable(f.ltype) then |PackedBytes(f.ltype, slot, |slot|)| < WORD32
    else forall k :: 0 <= k < |slot| ==> Readable(f.ltype, slot[k])
  }

  predicate MessageReadable(fields: seq<Field>, msg: Message)
    requires ValidFields(fields) && MessageInRange(fields, msg)
    decreases fields
  {
    forall i :: 0 <= i < |fields| ==> SlotReadable(fields[i], msg[i])
  }

  // ---- Decoding ----

  function Pow2(n: nat): (p: nat)
    ensures p >= 1
  {
    if n == 0 then 1 else 2 * Pow2(n - 1)
  }

  /** The bitwise or of two numbers. */
  function BitOr(a: nat, b: nat): nat
    decreases a + b
  {
    if a == 0 || b == 0 then a + b
    else 2 * BitOr(a / 2, b / 2) + if a % 2 == 1 || b % 2 == 1 then 1 else 0
  }

  lemma {:induction false} BitOrBelow(a: nat, b: nat, n: nat)
    requires a < Pow2(n) && b < Pow2(n)
    ensures BitOr(a, b) < Pow2(n)
  {
    if a != 0 && b != 0 {
      BitOrBelow(a / 2, b / 2, n - 1);
    }
  }

  lemma BitOrBelow32(a: nat, b: nat)
    requires a < WORD32 && b < WORD32
    ensures BitOr(a, b) < WORD32
  {
    assert Pow2(8) == 0x100 by { assert Pow2(4) == 16; }
    assert Pow2(16) == 0x1_0000 by { assert Pow2(12) == 0x1000; }
    assert Pow2(24) == 0x100_0000 by { assert Pow2(20) == 0x10_0000; }
    assert Pow2(32) == WORD32 by { assert Pow2(28) == 0x1000_0000; }
    BitOrBelow(a, b, 32);
  }

  /** result |= low << bitpos on 32 bits. */
  function OrShifted(result: nat, low: nat, bitpos: nat): (r: nat)
    requires result < WORD32
    ensures r < WORD32
  {
    BitOrBelow32(result, low * Pow2(bitpos) % WORD32);
    BitOr(result, low * Pow2(bitpos) % WORD32)
  }

  /** One byte of a varint of up to 32 bits, with the lower bitpos bits in result.  Bytes beyond the
      word must be zero or the sign extension of a negative number. */
  function VarintByte(b: Byte, bitpos: nat, result: nat): (r: Option<nat>)
    requires result < WORD32
    ensures r.Some? ==> r.value < WORD32
  {
    if bitpos >= 32 then
      if b % 128 != 0 && (result < 0x8000_0000 || b != (if bitpos < 63 then 255 else 1)) then None else Some(result)
    else if bitpos == 28 && 16 <= b < 128 then None
    else Some(OrShifted(result, b % 128, bitpos))
  }

  /** The rest of such a varint.  The position is kept in a byte and wraps around in very long ones. */
  function ContinueVarint32(input: Bytes, bitpos: nat, result: nat): (r: Option<(nat, Bytes)>)
    requires result < WORD32
    ensures r.Some? ==> r.value.0 < WORD32 && |r.value.1| < |input|
    decreases |input|
  {
    if input == [] then None
    else
      var next := VarintByte(input[0], bitpos, result);
      if next.None? then None
      else if input[0] >= 128 then ContinueVarint32(input[1..], (bitpos + 7) % 256, next.value)
      else Some((next.value, input[1..]))
  }

  /** pb_decode_varint32. */
  function DecodeVarint32(input: Bytes): (r: Option<(nat, Bytes)>)
    ensures r.Some? ==> r.value.0 < WORD32 && |r.value.1| < |input|
  {
    if input == [] then None
    else if input[0] < 128 then Some((input[0], input[1..]))
    else ContinueVarint32(input[1..], 7, input[0] - 128)
  }

  /** A tag, the end of the message (a zero tag), or an error. */
  datatype TagRead = Tag(tag: nat, wire: nat, rest: Bytes) | End(rest: Bytes) | BadTag

  function DecodeTag(input: Bytes): (r: TagRead)
    ensures !r.BadTag? ==> |r.rest| < |input|
  {
    var t := DecodeVarint32(input);
    if t.None? then BadTag
    else if t.value.0 == 0 then End(t.value.1)
    else Tag(t.value.0 / 8, t.value.0 % 8, t.value.1)
  }

  /** pb_read: count bytes, if there are as many. */
  function Take(input: Bytes, count: nat): (r: Option<(Bytes, Bytes)>)
    ensures r.Some? ==> |r.value.0| == count && |r.value.0| + |r.value.1| == |input|
  {
    if |input| < count then None else Some((input[..count], input[count..]))
  }

  /** pb_make_string_substream: the substream and what the parent keeps. */
  function Substream(input: Bytes): (r: Option<(Bytes, Bytes)>)
    ensures r.Some? ==> |r.value.0| + |r.value.1| < |input|
  {
    var size := DecodeVarint32(input);
    if size.None? then None else Take(size.value.1, size.value.0)
  }

  function SkipVarint(input: Bytes): (r: Option<Bytes>)
    ensures r.Some? ==> |r.value| < |input|
  {
    if input == [] then None else if input[0] >= 128 then SkipVarint(input[1..]) else Some(input[1..])
  }

  function SkipField(wire: nat, input: Bytes): (r: Option<Bytes>)
    ensures r.Some? ==> |r.value| <= |input|
  {
    if wire == WT_VARINT then SkipVarint(input)
    else
      var r := if wire == WT_64BIT then Take(input, 8)
               else if wire == WT_STRING then Substream(input)
               else if wire == WT_32BIT then Take(input, 4)
               else None;
      if r.None? then None else Some(r.value.1)
  }

  /** Cast of an unsigned number below 2^(8 * width) to a signed one of that width. */
  function ToSigned(v: nat, width: nat): int
    requires ValidWidth(width)
  {
    if v % (2 * Half(width)) < Half(width) then v % (2 * Half(width)) else v % (2 * Half(width)) - 2 * Half(width)
  }

  function UnZigZag(v: nat): int {
    if v % 2 == 1 then -(v / 2) - 1 else v / 2
  }

  /** Field decoders for scalar types. */
  function DecodeScalar(t: LType, input: Bytes): (r: Option<(Value, Bytes)>)
    requires ValidType(t) && !t.TMessage?
    ensures r.Some? ==> |r.value.1| <= |input| && (Packable(t) ==> |r.value.1| < |input|)
  {
    match t
    case TBool =>
      var v := DecodeVarint32(input);
      if v.None? then None else Some((VBool(v.value.0 != 0), v.value.1))
    case TInt(w) =>
      var v := GetVarint64(input);
      if v.None? then None
      else
        var i := ToSigned(v.value.0, if w == 8 then 8 else 4);
        if IsSigned(i, w) then Some((VInt(i), v.value.1)) else None
    case TUInt(w) =>
      var v := GetVarint64(input);
      if v.None? || !IsUnsigned(v.value.0, w) then None else Some((VInt(v.value.0), v.value.1))
    case TSInt(w) =>
      var v := GetVarint64(input);
      if v.None? || !IsSigned(UnZigZag(v.value.0), w) then None else Some((VInt(UnZigZag(v.value.0)), v.value.1))
    case TFixed32 =>
      var b := Take(input, 4);
      if b.None? then None else Some((VInt(FixedValue(b.value.0)), b.value.1))
    case TFixed64 =>
      var b := Take(input, 8);
      if b.None? then None else Some((VInt(FixedValue(b.value.0)), b.value.1))
    case TBytes(max) =>
      var size := DecodeVarint32(input);
      if size.None? || size.value.0 > max then None else AsBytes(Take(size.value.1, size.value.0))
    case TString(n) =>
      var size := DecodeVarint32(input);
      if size.None? || size.value.0 + 1 > n then None else AsBytes(Take(size.value.1, size.value.0))
    case TFixedBytes(n) =>
      var size := DecodeVarint32(input);
      if size.None? then None
      else if size.value.0 == 0 then Some((VBytes(Zeros(n)), size.value.1))
      else if size.value.0 != n then None
      else AsBytes(Take(size.value.1, n))
  }

  function AsBytes(r: Option<(Bytes, Bytes)>): Option<(Value, Bytes)> {
    if r.None? then None else Some((VBytes(r.value.0), r.value.1))
  }

  function Zeros(n: nat): (b: Bytes)
    ensures |b| == n
  {
    if n == 0 then [] else [0] + Zeros(n - 1)
  }

  function EmptyMessage(n: nat): (m: Message)
    ensures |m| == n && forall i :: 0 <= i < n ==> m[i] == []
  {
    if n == 0 then [] else EmptyMessage(n - 1) + [[]]
  }

  /** pb_field_iter_find. */
  function FindTag(fields: seq<Field>, tag: nat, n: nat): (r: Option<nat>)
    requires n <= |fields|
    ensures r.Some? ==> r.value < n && fields[r.value].tag == tag
    ensures r.None? ==> forall i :: 0 <= i < n ==> fields[i].tag != tag
  {
    if n == 0 then None
    else
      var r := FindTag(fields, tag, n - 1);
      if r.Some? then r else if fields[n - 1].tag == tag then Some(n - 1) else None
  }

  /** required_field_index at field n: the number of required fields before it. */
  function RequiredBefore(fields: seq<Field>, n: nat): (r: nat)
    requires n <= |fields|
    ensures r <= n
  {
    if n == 0 then 0 else RequiredBefore(fields, n - 1) + if fields[n - 1].htype.Required? then 1 else 0
  }

  /** Selecting field i of a union deselects the others. */
  function Select(fields: seq<Field>, msg: Message, i: nat, slot: seq<Value>): (m: Message)
    requires |msg| == |fields| && i < |fields|
    ensures |m| == |msg|
  {
    Selected(fields, msg, fields[i].htype, |msg|)[i := slot]
  }

  function Selected(fields: seq<Field>, msg: Message, h: HType, n: nat): (m: Message)
    requires |msg| == |fields| && n <= |msg|
    ensures |m| == n && forall k :: 0 <= k < n ==> m[k] == if h.OneOf? && fields[k].htype == h then [] else msg[k]
  {
    if n == 0 then []
    else Selected(fields, msg, h, n - 1) + [if h.OneOf? && fields[n - 1].htype == h then [] else msg[n - 1]]
  }

  /** Every one of the first 64 required fields was seen. */
  predicate AllRequiredSeen(fields: seq<Field>, seen: set<nat>) {
    forall i :: 0 <= i < |fields| && fields[i].htype.Required? && RequiredBefore(fields, i) < MAX_REQUIRED_FIELDS ==> i in seen
  }

  function Finish(fields: seq<Field>, msg: Message, seen: set<nat>, rest: Bytes): Option<(Message, Bytes)> {
    if AllRequiredSeen(fields, seen) then Some((msg, rest)) else None
  }

  /** A field decoder; a submessage is decoded into what the struct already holds. */
  function DecodeValue(t: LType, into: seq<Value>, input: Bytes): (r: Option<(Value, Bytes)>)
    requires ValidType(t)
    ensures r.Some? ==> |r.value.1| <= |input|
    decreases |input|, 1
  {
    match t
    case TMessage(fields) =>
      var sub := Substream(input);
      if sub.None? then None
      else
        var base := if into != [] && into[0].VMessage? && |into[0].slots| == |fields| then into[0].slots else EmptyMessage(|fields|);
        var m := DecodeMessage(fields, sub.value.0, base, {});
        if m.None? then None else Some((VMessage(m.value.0), sub.value.1))
    case _ => DecodeScalar(t, input)
  }

  /** The items of a packed array. */
  function DecodePacked(t: LType, max: nat, slot: seq<Value>, content: Bytes): Option<seq<Value>>
    requires ValidType(t) && Packable(t)
    decreases |content|, 0
  {
    if content == [] then Some(slot)
    else if |slot| >= max then None
    else
      var v := DecodeScalar(t, content);
      if v.None? then None else DecodePacked(t, max, slot + [v.value.0], v.value.1)
  }

  /** decode_static_field: the new content of the field. */
  function DecodeField(f: Field, wire: nat, slot: seq<Value>, input: Bytes): (r: Option<(seq<Value>, Bytes)>)
    requires ValidField(f)
    ensures r.Some? ==> |r.value.1| <= |input|
    decreases |input|, 2
  {
    if f.htype.Repeated? then
      if wire == WT_STRING && Packable(f.ltype) then
        var sub := Substream(input);
        if sub.None? then None
        else
          var items := DecodePacked(f.ltype, f.htype.max, slot, sub.value.0);
          if items.None? then None else Some((items.value, sub.value.1))
      else if |slot| >= f.htype.max then None
      else
        var v := DecodeValue(f.ltype, [], input);
        if v.None? then None else Some((slot + [v.value.0], v.value.1))
    else
      var v := DecodeValue(f.ltype, slot, input);
      if v.None? then None else Some(([v.value.0], v.value.1))
  }

  /** The loop of pb_decode_noinit: fields until the input ends or a zero tag, then the check for
      missing required fields.  Returns the message and what is left of the input.  The table of an empty message
      is its terminator, which has tag 0 and passes for a required bool outside the message. */
  function DecodeMessage(fields: seq<Field>, input: Bytes, msg: Message, seen: set<nat>): (r: Option<(Message, Bytes)>)
    requires ValidFields(fields) && |msg| == |fields|
    ensures r.Some? ==> |r.value.0| == |fields| && |r.value.1| <= |input|
    decreases |input|, 0
  {
    if input == [] then Finish(fields, msg, seen, [])
    else
      match DecodeTag(input)
      case BadTag => None
      case End(rest) => Finish(fields, msg, seen, rest)
      case Tag(tag, wire, rest) =>
        var i := FindTag(fields, tag, |fields|);
        if fields == [] && tag == 0 then
          var terminator := DecodeVarint32(rest);
          if terminator.None? then None else DecodeMessage(fields, terminator.value.1, msg, seen)
        else if i.None? then
          var skipped := SkipField(wire, rest);
          if skipped.None? then None else DecodeMessage(fields, skipped.value, msg, seen)
        else
          assert ValidField(fields[i.value]);
          var slot := DecodeField(fields[i.value], wire, msg[i.value], rest);
          if slot.None? then None
          else DecodeMessage(fields, slot.value.1, Select(fields, msg, i.value, slot.value.0), seen + {i.value})
  }
}
