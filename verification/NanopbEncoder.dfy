/** The table-driven encoder with its sizing streams (pb_encode.c). */
module NanopbEncoder {
  import opened DbFormat
  import opened Coding
  import opened Nanopb
  import R = NanopbRoundTrip

  // ---- Varints ----

  /** The bytes of the loop in pb_encode_varint, all with the continuation bit. */
  function Continued(v: nat): Bytes {
    if v == 0 then [] else [128 + v % 128] + Continued(v / 128)
  }

  /** Clearing the top bit of the last one gives the varint. */
  lemma {:induction false} ContinuedIsVarint(v: nat)
    requires v > 0
    ensures var c := Continued(v); c != [] && c[|c| - 1] >= 128 && Varint(v) == c[..|c| - 1] + [c[|c| - 1] - 128]
  {
    var c := Continued(v);
    if v < 128 {
      assert Continued(0) == [];
    } else {
      ContinuedIsVarint(v / 128);
      var d := Continued(v / 128);
      assert c[..|c| - 1] == [c[0]] + d[..|d| - 1];
    }
  }

  lemma {:induction false} ContinuedLength(v: nat, n: nat)
    requires v < Pow128(n)
    ensures |Continued(v)| <= n
  {
    if v > 0 {
      ContinuedLength(v / 128, n - 1);
    }
  }

  /** One more byte in the buffer, one fewer to come. */
  lemma OneContinued(before: Bytes, v: nat)
    requires v > 0
    ensures before + Continued(v) == before + [128 + v % 128] + Continued(v / 128)
    ensures |Continued(v)| == 1 + |Continued(v / 128)|
  {
    Associative(before, [128 + v % 128], Continued(v / 128));
  }

  lemma NoneContinued(b: Bytes)
    ensures b + Continued(0) == b
  {
  }

  /** The loop of pb_encode_varint: seven bits at a time into a buffer of ten bytes. */
  method FillContinued(buffer: array<Byte>, value: nat) returns (i: nat)
    requires 0 < value && |Continued(value)| <= buffer.Length
    modifies buffer
    ensures 0 < i <= buffer.Length && buffer[..i] == Continued(value)
  {
    var v := value;
    i := 0;
    while v > 0
      invariant 0 <= i <= buffer.Length && i + |Continued(v)| == |Continued(value)|
      invariant buffer[..i] + Continued(v) == Continued(value)
      decreases v
    {
      ghost var before := buffer[..i];
      OneContinued(before, v);
      buffer[i] := 128 + v % 128;
      assert buffer[..i + 1] == before + [128 + v % 128];
      v, i := v / 128, i + 1;
    }
    NoneContinued(buffer[..i]);
  }

  method FillVarint(value: nat) returns (b: Bytes)
    requires 0 < value < WORD64
    ensures b == Varint(value)
  {
    var buffer := new Byte[10](_ => 0);
    VarintWidths();
    ContinuedLength(value, 10);
    ContinuedIsVarint(value);
    var i := FillContinued(buffer, value);
    ghost var c := Continued(value);
    assert buffer[i - 1] == c[i - 1];
    buffer[i - 1] := buffer[i - 1] - 128;
    assert buffer[..i] == c[..i - 1] + [c[i - 1] - 128];
    b := buffer[..i];
  }

  // ---- Streams ----

  /** An output stream.  A sizing stream has no callback and only counts. */
  class OStream {
    const sizing: bool
    const maxSize: nat
    var state: Bytes
    var written: nat

    ghost predicate Valid()
      reads this
    {
      !sizing ==> written <= maxSize
    }

    constructor (sizing: bool, maxSize: nat, state: Bytes)
      ensures Valid() && this.sizing == sizing && this.maxSize == maxSize && this.state == state && written == 0
    {
      this.sizing, this.maxSize, this.state, written := sizing, maxSize, state, 0;
    }

    /** The effect of writing b: a sizing stream counts it, another stream takes it if it has room. */
    twostate predicate Puts(b: Bytes, ok: bool)
      reads this
    {
      && Valid()
      && (sizing ==> ok && state == old(state))
      && (!sizing ==> ok == (old(written) + |b| <= maxSize) && (ok ==> state == old(state) + b))
      && (ok ==> written == old(written) + |b|)
    }

    /** pb_write. */
    method Write(b: Bytes) returns (ok: bool)
      requires Valid()
      modifies this
      ensures Puts(b, ok)
    {
      if |b| > 0 && !sizing {
        if written + |b| > maxSize {
          return false;
        }
        state := state + b;
      }
      written := written + |b|;
      ok := true;
    }

    /** pb_write of a null buffer on a sizing stream. */
    method Count(n: nat)
      requires Valid() && sizing
      modifies this`written
      ensures Valid() && written == old(written) + n
    {
      written := written + n;
    }

    /** pb_encode_varint. */
    method EncodeVarint(value: nat) returns (ok: bool)
      requires Valid() && value < WORD64
      modifies this
      ensures Puts(Varint(value), ok)
    {
      if value <= 127 {
        ok := Write([value]);
        return;
      }
      var bytes := FillVarint(value);
      ok := Write(bytes);
    }

    /** pb_encode_string. */
    method EncodeString(b: Bytes) returns (ok: bool)
      requires Valid() && |b| < WORD64
      modifies this
      ensures Puts(LengthPrefixed(b), ok)
    {
      ok := EncodeVarint(|b|);
      if ok {
        ok := Write(b);
        Associative(old(state), Varint(|b|), b);
      }
    }

    /** pb_encode_tag. */
    method EncodeTag(wire: nat, tag: nat) returns (ok: bool)
      requires Valid() && wire < 8 && tag < MAX_FIELD_TAG
      modifies this
      ensures Puts(TagBytes(wire, tag), ok)
    {
      ok := EncodeVarint(tag * 8 + wire);
    }

    /** The field encoders of scalar types; bytes that are too long are refused. */
    method EncodeScalar(t: LType, v: Value) returns (ok: bool)
      requires Valid() && ValidType(t) && !t.TMessage? && Holds(t, v) && Sized(t, v)
      modifies this
      ensures if InRange(t, v) then Puts(ValueBytes(t, v), ok) else Valid() && !ok
    {
      match t {
        case TBool => ok := EncodeVarint(if v.b then 1 else 0);
        case TInt(w) => ok := EncodeVarint(ToUnsigned64(v.i));
        case TUInt(w) => ok := EncodeVarint(v.i);
        case TSInt(w) =>
          R.ZigZagRoundTrip(v.i, w);
          ok := EncodeVarint(ZigZag(v.i));
        case TFixed32 => ok := Write(Fixed(v.i, 4));
        case TFixed64 => ok := Write(Fixed(v.i, 8));
        case TBytes(max) =>
          if |v.bytes| > max {
            return false;
          }
          ok := EncodeString(v.bytes);
        case TString(_) => ok := EncodeString(v.bytes);
        case TFixedBytes(_) => ok := EncodeString(v.bytes);
      }
    }

    /** pb_encode_submessage: a sizing pass, the length, then the message itself.  The second pass
        always writes what the first one counted; a message that is refused fails in the first. */
    method EncodeSubmessage(fields: seq<Field>, msg: Message) returns (ok: bool)
      requires Valid() && ValidFields(fields) && MessageHolds(fields, msg) && MessageSized(fields, msg)
      modifies this
      ensures if MessageInRange(fields, msg) then Puts(LengthPrefixed(MessageBytes(fields, msg, |fields|)), ok) else Valid() && !ok
      decreases fields, |fields| + 2
    {
      var counter := new OStream(true, 0, []);
      ok := counter.EncodeMessage(fields, msg);
      if !ok {
        return;
      }
      ghost var bytes := MessageBytes(fields, msg, |fields|);
      var size := counter.written;
      ok := EncodeVarint(size);
      if !ok {
        return;
      }
      Associative(old(state), Varint(size), bytes);
      if sizing {
        Count(size);
        return;
      }
      if written + size > maxSize {
        return false;
      }
      var sub := new OStream(false, size, state);
      ok := sub.EncodeMessage(fields, msg);
      written := written + sub.written;
      state := sub.state;
      ok := ok && sub.written == size;
    }

    /** A field encoder. */
    method EncodeValue(t: LType, v: Value) returns (ok: bool)
      requires Valid() && ValidType(t) && Holds(t, v) && Sized(t, v)
      modifies this
      ensures if InRange(t, v) then Puts(ValueBytes(t, v), ok) else Valid() && !ok
      decreases t, 1
    {
      if t.TMessage? {
        ok := EncodeSubmessage(t.fields, v.slots);
      } else {
        ok := EncodeScalar(t, v);
      }
    }

    /** The items of a packed array. */
    method EncodeItems(t: LType, slot: seq<Value>) returns (ok: bool)
      requires Valid() && ValidType(t) && Packable(t) && R.AllInRange(t, slot) && |PackedBytes(t, slot, |slot|)| < WORD64
      modifies this
      ensures Puts(PackedBytes(t, slot, |slot|), ok)
    {
      ok := true;
      for i := 0 to |slot|
        invariant ok && Puts(PackedBytes(t, slot, i), ok)
      {
        R.PackedGrows(t, slot, i);
        ScalarHolds(t, slot[i]);
        ok := EncodeScalar(t, slot[i]);
        if !ok {
          return;
        }
        Associative(old(state), PackedBytes(t, slot, i), ValueBytes(t, slot[i]));
      }
    }

    /** The size of a packed array: by multiplication for fixed-width items, else by a sizing pass. */
    method PackedSize(t: LType, slot: seq<Value>) returns (size: nat)
      requires ValidType(t) && Packable(t) && R.AllInRange(t, slot) && |PackedBytes(t, slot, |slot|)| < WORD64
      ensures size == |PackedBytes(t, slot, |slot|)|
    {
      if t.TFixed32? || t.TFixed64? {
        FixedPackedSize(t, slot, |slot|);
        size := (if t.TFixed32? then 4 else 8) * |slot|;
      } else {
        var counter := new OStream(true, 0, []);
        var ok := counter.EncodeItems(t, slot);
        size := counter.written;
      }
    }

    /** encode_array for packable types. */
    method EncodePacked(f: Field, slot: seq<Value>) returns (ok: bool)
      requires Valid() && ValidField(f) && SlotInRange(f, slot) && slot != [] && f.htype.Repeated? && Packable(f.ltype)
      requires |FieldBytes(f, slot)| < WORD64
      modifies this
      ensures Puts(FieldBytes(f, slot), ok)
    {
      ghost var tag, items := TagBytes(WT_STRING, f.tag), PackedBytes(f.ltype, slot, |slot|);
      Associative(state, tag, LengthPrefixed(items));
      Associative(state + tag, Varint(|items|), items);
      ok := EncodeTag(WT_STRING, f.tag);
      if !ok {
        return;
      }
      var size := PackedSize(f.ltype, slot);
      ok := EncodeVarint(size);
      if !ok {
        return;
      }
      if sizing {
        Count(size);
        return;
      }
      ok := EncodeItems(f.ltype, slot);
    }

    /** The other fields: each value present, with its tag, up to one that is refused. */
    method EncodeTagged(f: Field, slot: seq<Value>) returns (ok: bool)
      requires Valid() && ValidField(f) && SlotHolds(f, slot) && CountInRange(f.htype, |slot|) && AllSized(f, slot)
      requires SlotInRange(f, slot) ==> |TaggedBytes(f, slot, |slot|)| < WORD64
      modifies this
      ensures if SlotInRange(f, slot) then Puts(TaggedBytes(f, slot, |slot|), ok) else Valid() && !ok
      decreases f, 0
    {
      ok := true;
      for i := 0 to |slot|
        invariant ok && Valid() && forall j :: 0 <= j < i ==> InRange(f.ltype, slot[j])
        invariant SlotInRange(f, slot) ==> Puts(TaggedBytes(f, slot, i), ok)
      {
        if SlotInRange(f, slot) {
          OneMoreTagged(old(state), f, slot, i);
        }
        ok := EncodeOne(f, slot[i]);
        if !ok {
          return;
        }
      }
    }

    /** A value with its tag. */
    method EncodeOne(f: Field, v: Value) returns (ok: bool)
      requires Valid() && ValidField(f) && Holds(f.ltype, v) && Sized(f.ltype, v)
      modifies this
      ensures if InRange(f.ltype, v) then Puts(OneTagged(f, v), ok) else Valid() && !ok
      decreases f.ltype, 2
    {
      ok := EncodeTag(WireType(f.ltype), f.tag);
      if !ok {
        return;
      }
      ok := EncodeValue(f.ltype, v);
      if InRange(f.ltype, v) {
        Associative(old(state), TagBytes(WireType(f.ltype), f.tag), ValueBytes(f.ltype, v));
      }
    }

    /** encode_basic_field and encode_array: an array that is too long is refused. */
    method EncodeField(f: Field, slot: seq<Value>) returns (ok: bool)
      requires Valid() && ValidField(f) && SlotHolds(f, slot) && SlotSized(f, slot)
      modifies this
      ensures if SlotInRange(f, slot) then Puts(FieldBytes(f, slot), ok) else Valid() && !ok
      decreases f, 1
    {
      if f.htype.Repeated? {
        if slot == [] {
          return true;
        }
        if |slot| > f.htype.max {
          return false;
        }
        if Packable(f.ltype) {
          PackableInRange(f, slot);
          ok := EncodePacked(f, slot);
          return;
        }
      }
      ok := EncodeTagged(f, slot);
    }

    /** pb_encode.  With a sizing stream: pb_get_encoded_size.  A message with an array or bytes longer
        than their members allow, at any depth, is refused. */
    method EncodeMessage(fields: seq<Field>, msg: Message) returns (ok: bool)
      requires Valid() && ValidFields(fields) && MessageHolds(fields, msg) && MessageSized(fields, msg)
      modifies this
      ensures if MessageInRange(fields, msg) then Puts(MessageBytes(fields, msg, |fields|), ok) else Valid() && !ok
      decreases fields, |fields| + 1
    {
      ok := true;
      for i := 0 to |fields|
        invariant ok && Valid() && FieldsInRange(fields, msg, i)
        invariant MessageInRange(fields, msg) ==> Puts(MessageBytes(fields, msg, i), ok)
      {
        HeldField(fields, msg, i);
        if MessageInRange(fields, msg) {
          R.FieldOfMessage(fields, msg, i);
          MessagePart(fields, msg, i);
          Associative(old(state), MessageBytes(fields, msg, i), FieldBytes(fields[i], msg[i]));
        }
        ok := EncodeField(fields[i], msg[i]);
        if !ok {
          return;
        }
      }
    }
  }

  // ---- What the encoder is asked to write ----

  function OneTagged(f: Field, v: Value): Bytes
    requires ValidField(f) && InRange(f.ltype, v)
  {
    TagBytes(WireType(f.ltype), f.tag) + ValueBytes(f.ltype, v)
  }

  /** Whatever is accepted takes fewer than 2^64 bytes; the same of all values inside. */
  ghost predicate Sized(t: LType, v: Value)
    requires ValidType(t) && Holds(t, v)
    decreases t
  {
    && (InRange(t, v) ==> |ValueBytes(t, v)| < WORD64)
    && (t.TMessage? ==> MessageSized(t.fields, v.slots))
  }

  ghost predicate AllSized(f: Field, slot: seq<Value>)
    requires ValidField(f) && SlotHolds(f, slot)
    decreases f, 0
  {
    forall k :: 0 <= k < |slot| ==> Sized(f.ltype, slot[k])
  }

  ghost predicate SlotSized(f: Field, slot: seq<Value>)
    requires ValidField(f) && SlotHolds(f, slot)
    decreases f, 1
  {
    (SlotInRange(f, slot) ==> |FieldBytes(f, slot)| < WORD64) && AllSized(f, slot)
  }

  ghost predicate MessageSized(fields: seq<Field>, msg: Message)
    requires ValidFields(fields) && MessageHolds(fields, msg)
    decreases fields
  {
    && (MessageInRange(fields, msg) ==> |MessageBytes(fields, msg, |fields|)| < WORD64)
    && forall i :: 0 <= i < |fields| ==> SlotSized(fields[i], msg[i])
  }

  ghost predicate FieldsInRange(fields: seq<Field>, msg: Message, n: nat)
    requires ValidFields(fields) && |msg| == |fields|
  {
    n <= |fields| && forall i :: 0 <= i < n ==> SlotInRange(fields[i], msg[i])
  }

  lemma HeldField(fields: seq<Field>, msg: Message, i: nat)
    requires ValidFields(fields) && MessageHolds(fields, msg) && MessageSized(fields, msg) && i < |fields|
    ensures ValidField(fields[i]) && SlotHolds(fields[i], msg[i]) && SlotSized(fields[i], msg[i])
  {
  }

  lemma PackableInRange(f: Field, slot: seq<Value>)
    requires ValidField(f) && SlotHolds(f, slot) && f.htype.Repeated? && Packable(f.ltype) && |slot| <= f.htype.max
    ensures SlotInRange(f, slot)
  {
  }

  lemma ScalarHolds(t: LType, v: Value)
    requires ValidType(t) && Packable(t) && InRange(t, v) && |ValueBytes(t, v)| < WORD64
    ensures Holds(t, v) && Sized(t, v)
  {
  }

  /** What is accepted can be held, and the size of the whole bounds the sizes of its parts. */
  lemma {:induction false} AcceptedValue(t: LType, v: Value)
    requires ValidType(t) && InRange(t, v) && |ValueBytes(t, v)| < WORD64
    ensures Holds(t, v) && Sized(t, v)
    decreases t
  {
    if t.TMessage? {
      AcceptedMessage(t.fields, v.slots);
    }
  }

  lemma {:induction false} AcceptedSlot(f: Field, slot: seq<Value>)
    requires ValidField(f) && SlotInRange(f, slot) && |FieldBytes(f, slot)| < WORD64
    ensures SlotHolds(f, slot) && SlotSized(f, slot)
    decreases f
  {
    forall k | 0 <= k < |slot|
      ensures Holds(f.ltype, slot[k]) && Sized(f.ltype, slot[k])
    {
      PartOfField(f, slot, k);
      AcceptedValue(f.ltype, slot[k]);
    }
  }

  lemma PartOfField(f: Field, slot: seq<Value>, k: nat)
    requires ValidField(f) && SlotInRange(f, slot) && k < |slot|
    ensures |ValueBytes(f.ltype, slot[k])| <= |FieldBytes(f, slot)|
  {
    if f.htype.Repeated? && Packable(f.ltype) {
      R.PackedGrows(f.ltype, slot, k);
    } else {
      TaggedGrows(f, slot, k);
    }
  }

  lemma {:induction false} AcceptedMessage(fields: seq<Field>, msg: Message)
    requires ValidFields(fields) && MessageInRange(fields, msg) && |MessageBytes(fields, msg, |fields|)| < WORD64
    ensures MessageHolds(fields, msg) && MessageSized(fields, msg)
    decreases fields
  {
    forall i | 0 <= i < |fields|
      ensures SlotHolds(fields[i], msg[i]) && SlotSized(fields[i], msg[i])
    {
      R.FieldOfMessage(fields, msg, i);
      MessagePart(fields, msg, i);
      AcceptedSlot(fields[i], msg[i]);
    }
  }

  lemma {:induction false} FixedPackedSize(t: LType, slot: seq<Value>, n: nat)
    requires ValidType(t) && (t.TFixed32? || t.TFixed64?) && R.AllInRange(t, slot) && n <= |slot|
    ensures |PackedBytes(t, slot, n)| == (if t.TFixed32? then 4 else 8) * n
    decreases n
  {
    if n > 0 {
      FixedPackedSize(t, slot, n - 1);
    }
  }

  lemma {:induction false} TaggedGrows(f: Field, slot: seq<Value>, i: nat)
    requires ValidField(f) && SlotInRange(f, slot) && i < |slot|
    ensures |TaggedBytes(f, slot, i + 1)| <= |TaggedBytes(f, slot, |slot|)|
    ensures |ValueBytes(f.ltype, slot[i])| <= |TaggedBytes(f, slot, |slot|)|
    decreases |slot| - i
  {
    if i + 1 < |slot| {
      TaggedGrows(f, slot, i + 1);
    }
  }

  lemma OneMoreTagged(before: Bytes, f: Field, slot: seq<Value>, i: nat)
    requires ValidField(f) && SlotInRange(f, slot) && i < |slot|
    ensures before + TaggedBytes(f, slot, i + 1) == before + TaggedBytes(f, slot, i) + OneTagged(f, slot[i])
    ensures |TaggedBytes(f, slot, i + 1)| == |TaggedBytes(f, slot, i)| + |OneTagged(f, slot[i])| <= |TaggedBytes(f, slot, |slot|)|
  {
    TaggedGrows(f, slot, i);
    Associative(before, TaggedBytes(f, slot, i), OneTagged(f, slot[i]));
  }

  lemma {:induction false} MessagePart(fields: seq<Field>, msg: Message, i: nat)
    requires ValidFields(fields) && MessageInRange(fields, msg) && i < |fields| && ValidField(fields[i]) && SlotInRange(fields[i], msg[i])
    ensures MessageBytes(fields, msg, i + 1) == MessageBytes(fields, msg, i) + FieldBytes(fields[i], msg[i])
    ensures |MessageBytes(fields, msg, i + 1)| <= |MessageBytes(fields, msg, |fields|)|
    decreases |fields| - i
  {
    if i + 1 < |fields| {
      R.FieldOfMessage(fields, msg, i + 1);
      MessagePart(fields, msg, i + 1);
    }
  }

  /** pb_get_encoded_size counts exactly what pb_encode writes into a large enough stream. */
  method EncodeWithSize(fields: seq<Field>, msg: Message) returns (bytes: Bytes)
    requires ValidFields(fields) && MessageInRange(fields, msg) && |MessageBytes(fields, msg, |fields|)| < WORD64
    ensures bytes == MessageBytes(fields, msg, |fields|)
  {
    AcceptedMessage(fields, msg);
    var counter := new OStream(true, 0, []);
    var ok := counter.EncodeMessage(fields, msg);
    var stream := new OStream(false, counter.written, []);
    ok := stream.EncodeMessage(fields, msg);
    assert ok;
    bytes := stream.state;
  }
}
