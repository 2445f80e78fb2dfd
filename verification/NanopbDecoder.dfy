/** The table-driven decoder: streams and substreams, the circular field iterator, the bit mask of
    required fields (pb_decode.c, pb_common.c). */
module NanopbDecoder {
  import opened DbFormat
  import opened Coding
  import opened Nanopb
  import opened NanopbFields

  // ---- Streams ----

  /** An input stream over a buffer: state is the position, left is bytes_left. */
  class IStream {
    const buf: Bytes
    var pos: nat
    var left: nat

    ghost predicate Valid()
      reads this
    {
      pos + left <= |buf|
    }

    /** The bytes the stream may still read. */
    ghost function Rest(): (r: Bytes)
      requires Valid()
      reads this
      ensures |r| == left
    {
      buf[pos..pos + left]
    }

    constructor (buf: Bytes, pos: nat, left: nat)
      requires pos + left <= |buf|
      ensures Valid() && this.buf == buf && this.pos == pos && this.left == left
    {
      this.buf, this.pos, this.left := buf, pos, left;
    }

    /** Bytes consumed by advancing are bytes taken off bytes_left. */
    twostate predicate Conserves()
      reads this
    {
      Valid() && pos + left == old(pos + left) && old(pos) <= pos
    }

    /** pb_read. */
    method Read(count: nat) returns (ok: bool, b: Bytes)
      requires Valid()
      modifies this
      ensures Conserves()
      ensures var r := Take(old(Rest()), count); ok == r.Some? && (ok ==> b == r.value.0 && Rest() == r.value.1)
      ensures !ok ==> left == old(left)
    {
      if left < count {
        return false, [];
      }
      b := buf[pos..pos + count];
      pos, left := pos + count, left - count;
      ok := true;
    }

    /** pb_readbyte. */
    method ReadByte() returns (ok: bool, b: Byte)
      requires Valid()
      modifies this
      ensures Conserves() && ok == (old(left) > 0)
      ensures ok ==> b == old(Rest())[0] && Rest() == old(Rest())[1..]
      ensures !ok ==> left == old(left)
    {
      if left == 0 {
        return false, 0;
      }
      ok, b := true, buf[pos];
      pos, left := pos + 1, left - 1;
    }

    /** pb_decode_varint32. */
    method DecodeVarint32() returns (ok: bool, value: nat)
      requires Valid()
      modifies this
      ensures Conserves()
      ensures var r := Nanopb.DecodeVarint32(old(Rest())); ok == r.Some? && (ok ==> value == r.value.0 && Rest() == r.value.1)
    {
      var b: Byte;
      ok, b := ReadByte();
      if !ok {
        return false, 0;
      }
      if b < 128 {
        return true, b;
      }
      ok, value := ContinueVarint(b - 128);
    }

    /** The loop for the bytes after the first. */
    method ContinueVarint(first: nat) returns (ok: bool, result: nat)
      requires Valid() && first < 128
      modifies this
      ensures Conserves()
      ensures var r := ContinueVarint32(old(Rest()), 7, first); ok == r.Some? && (ok ==> result == r.value.0 && Rest() == r.value.1)
    {
      result := first;
      var bitpos, more := 7, true;
      ghost var whole := ContinueVarint32(Rest(), 7, first);
      while more
        invariant Conserves() && result < WORD32 && 0 <= bitpos < 256
        invariant more ==> ContinueVarint32(Rest(), bitpos, result) == whole
        invariant !more ==> whole == Some((result, Rest()))
        decreases more, left
      {
        var b: Byte;
        ok, b := ReadByte();
        if !ok {
          return;
        }
        ok, result := TakeDigit(b, bitpos, result);
        if !ok {
          return;
        }
        more := b >= 128;
        bitpos := (bitpos + 7) % 256;
      }
      ok := true;
    }

    /** What one byte of the loop does to the result. */
    static method TakeDigit(b: Byte, bitpos: nat, result: nat) returns (ok: bool, next: nat)
      requires result < WORD32
      ensures next < WORD32
      ensures var r := VarintByte(b, bitpos, result); ok == r.Some? && (ok ==> next == r.value)
    {
      next := result;
      if bitpos >= 32 {
        var signExtension := if bitpos < 63 then 255 else 1;
        if b % 128 != 0 && (result < 0x8000_0000 || b != signExtension) {
          return false, next;
        }
      } else {
        next := OrShifted(result, b % 128, bitpos);
      }
      return b >= 128 || bitpos != 28 || b < 16, next;
    }

    /** pb_decode_varint. */
    method DecodeVarint() returns (ok: bool, value: nat)
      requires Valid()
      modifies this
      ensures Conserves()
      ensures var r := GetVarint64(old(Rest())); ok == r.Some? && (ok ==> value == r.value.0 && Rest() == r.value.1)
    {
      value := 0;
      var k, more := 0, true;
      ghost var raw: nat, input := 0, Rest();
      ShiftedNothing(ReadVarint(input, 10));
      while more
        invariant Conserves() && 0 <= k <= 10 && value == raw % WORD64
        invariant more ==> ReadVarint(input, 10) == Shifted(ReadVarint(Rest(), 10 - k), raw, Pow128(k))
        invariant !more ==> ReadVarint(input, 10) == Some((raw, Rest()))
        decreases more, left
      {
        if k >= 10 {
          return false, value;
        }
        ghost var rest := Rest();
        var b: Byte;
        ok, b := ReadByte();
        if !ok {
          return;
        }
        NextDigit(rest, 10 - k, raw, Pow128(k));
        AddModulo(raw, (b % 128) * Pow128(k));
        value := (value + (b % 128) * Pow128(k)) % WORD64;
        raw := raw + (b % 128) * Pow128(k);
        more := b >= 128;
        k := k + 1;
      }
      ok := true;
    }

    /** pb_decode_tag: eof is a zero tag. */
    method DecodeTag() returns (ok: bool, eof: bool, wire: nat, tag: nat)
      requires Valid()
      modifies this
      ensures Conserves()
      ensures match Nanopb.DecodeTag(old(Rest()))
              case BadTag => !ok && (old(left) > 0 ==> !eof)
              case End(rest) => !ok && eof && Rest() == rest
              case Tag(t, w, rest) => ok && tag == t && wire == w < 8 && Rest() == rest
      ensures !ok && !eof ==> Nanopb.DecodeTag(old(Rest())).BadTag?
    {
      eof, wire, tag := left == 0, 0, 0;
      var temp: nat;
      ok, temp := DecodeVarint32();
      if !ok {
        return;
      }
      if temp == 0 {
        return false, true, 0, 0;
      }
      tag, wire := temp / 8, temp % 8;
    }

    method SkipVarint() returns (ok: bool)
      requires Valid()
      modifies this
      ensures Conserves()
      ensures var r := Nanopb.SkipVarint(old(Rest())); ok == r.Some? && (ok ==> Rest() == r.value)
    {
      var more := true;
      ghost var whole := Nanopb.SkipVarint(Rest());
      while more
        invariant Conserves()
        invariant if more then Nanopb.SkipVarint(Rest()) == whole else whole == Some(Rest())
        decreases more, left
      {
        var b: Byte;
        ok, b := ReadByte();
        if !ok {
          return;
        }
        more := b >= 128;
      }
      ok := true;
    }

    /** pb_skip_field. */
    method SkipField(wire: nat) returns (ok: bool)
      requires Valid()
      modifies this
      ensures Conserves()
      ensures var r := Nanopb.SkipField(wire, old(Rest())); ok == r.Some? && (ok ==> Rest() == r.value)
    {
      ok := false;
      if wire == WT_VARINT {
        ok := SkipVarint();
      } else if wire == WT_64BIT {
        var skipped: Bytes;
        ok, skipped := Read(8);
      } else if wire == WT_STRING {
        var length: nat;
        ok, length := DecodeVarint32();
        if ok {
          var skipped: Bytes;
          ok, skipped := Read(length);
        }
      } else if wire == WT_32BIT {
        var skipped: Bytes;
        ok, skipped := Read(4);
      }
    }

    /** pb_make_string_substream: the bytes of the substream leave bytes_left of the parent. */
    method MakeSubstream() returns (ok: bool, sub: IStream)
      requires Valid()
      modifies this
      ensures Valid() && sub.Valid() && fresh(sub) && sub.buf == buf && old(pos) <= pos
      ensures !ok ==> Conserves()
      ensures var r := Substream(old(Rest())); ok == r.Some? && (ok ==> sub.Rest() == r.value.0)
      ensures ok ==> sub.pos == pos && pos + sub.left + left == old(pos + left) && sub.left < old(left)
      ensures ok ==> buf[pos + sub.left..pos + sub.left + left] == Substream(old(Rest())).value.1
    {
      var size: nat;
      ok, size := DecodeVarint32();
      sub := new IStream(buf, pos, 0);
      if !ok {
        return;
      }
      if left < size {
        return false, sub;
      }
      sub := new IStream(buf, pos, size);
      left := left - size;
    }

    /** pb_close_string_substream: what the substream has not read is skipped. */
    method CloseSubstream(sub: IStream)
      requires Valid() && sub.Valid() && sub != this && sub.buf == buf && sub.pos + sub.left + left <= |buf|
      modifies this`pos, sub
      ensures Valid() && left == old(left) && pos == old(sub.pos + sub.left)
    {
      if sub.left > 0 {
        var ok, skipped := sub.Read(sub.left);
      }
      pos := sub.pos;
    }

    /** Length, limit check, payload: pb_dec_bytes, pb_dec_string. */
    method DecodeLimited(limit: nat) returns (ok: bool, b: Bytes)
      requires Valid()
      modifies this
      ensures Conserves()
      ensures var size := Nanopb.DecodeVarint32(old(Rest()));
        var r := if size.None? || size.value.0 > limit then None else Take(size.value.1, size.value.0);
        ok == r.Some? && (ok ==> b == r.value.0 && Rest() == r.value.1)
    {
      var size: nat;
      ok, size := DecodeVarint32();
      b := [];
      if !ok {
        return;
      }
      if size > limit {
        return false, [];
      }
      ok, b := Read(size);
    }

    method DecodeFixedBytes(n: nat) returns (ok: bool, b: Bytes)
      requires Valid()
      modifies this
      ensures Conserves()
      ensures var r := DecodeScalar(TFixedBytes(n), old(Rest())); ok == r.Some? && (ok ==> VBytes(b) == r.value.0 && Rest() == r.value.1)
    {
      var size: nat;
      ok, size := DecodeVarint32();
      b := [];
      if !ok {
        return;
      }
      if size == 0 {
        return true, Zeros(n);
      }
      if size != n {
        return false, [];
      }
      ok, b := Read(n);
    }

    /** The integer decoders: cast to the member's width and compare. */
    method DecodeInteger(t: LType) returns (ok: bool, v: Value)
      requires Valid() && ValidType(t) && (t.TInt? || t.TUInt? || t.TSInt?)
      modifies this
      ensures Conserves()
      ensures var r := DecodeScalar(t, old(Rest())); ok == r.Some? && (ok ==> v == r.value.0 && Rest() == r.value.1)
    {
      var value: nat;
      ok, value := DecodeVarint();
      v := VInt(0);
      if !ok {
        return;
      }
      match t {
        case TInt(w) =>
          var svalue := ToSigned(value, if w == 8 then 8 else 4);
          ok, v := IsSigned(svalue, w), VInt(svalue);
        case TUInt(w) =>
          ok, v := IsUnsigned(value, w), VInt(value);
        case TSInt(w) =>
          var svalue := UnZigZag(value);
          ok, v := IsSigned(svalue, w), VInt(svalue);
      }
    }

    /** The field decoders of scalar types. */
    method DecodeScalarValue(t: LType) returns (ok: bool, v: Value)
      requires Valid() && ValidType(t) && !t.TMessage?
      modifies this
      ensures Conserves()
      ensures var r := DecodeScalar(t, old(Rest())); ok == r.Some? && (ok ==> v == r.value.0 && Rest() == r.value.1)
    {
      var n: nat, b: Bytes;
      match t {
        case TBool =>
          ok, n := DecodeVarint32();
          v := VBool(n != 0);
        case TInt(_) => ok, v := DecodeInteger(t);
        case TUInt(_) => ok, v := DecodeInteger(t);
        case TSInt(_) => ok, v := DecodeInteger(t);
        case TFixed32 =>
          ok, b := Read(4);
          v := VInt(FixedValue(b));
        case TFixed64 =>
          ok, b := Read(8);
          v := VInt(FixedValue(b));
        case TBytes(max) =>
          ok, b := DecodeLimited(max);
          v := VBytes(b);
        case TString(size) =>
          if size == 0 {
            var length: nat;
            ok, length := DecodeVarint32();
            return false, VBool(false);
          }
          ok, b := DecodeLimited(size - 1);
          v := VBytes(b);
        case TFixedBytes(size) =>
          ok, b := DecodeFixedBytes(size);
          v := VBytes(b);
      }
    }
  }

  lemma ShiftedNothing(r: Option<(nat, Bytes)>)
    ensures Shifted(r, 0, Pow128(0)) == r
  {
  }

  /** One more digit of a varint; p is the weight of the digit. */
  lemma NextDigit(rest: Bytes, limit: nat, raw: nat, p: nat)
    requires rest != [] && limit > 0
    ensures (rest[0] % 128) * p >= 0
    ensures Shifted(ReadVarint(rest, limit), raw, p) ==
            if rest[0] < 128 then Some((raw + (rest[0] % 128) * p, rest[1..]))
            else Shifted(ReadVarint(rest[1..], limit - 1), raw + (rest[0] % 128) * p, 128 * p)
  {
    var more := ReadVarint(rest[1..], limit - 1);
    if rest[0] >= 128 && more.Some? {
      var low: nat := rest[0] - 128;
      Distribute(low, more.value.0, p);
      assert rest[0] % 128 == low;
    }
  }

  lemma Distribute(low: nat, v: nat, p: nat)
    ensures (low + 128 * v) * p == low * p + v * (128 * p)
  {
    assert (low + 128 * v) * p == low * p + (128 * v) * p;
    assert (128 * v) * p == v * (128 * p);
  }

  lemma AddModulo(raw: nat, d: nat)
    ensures (raw % WORD64 + d) % WORD64 == (raw + d) % WORD64
  {
    var q := raw / WORD64;
    assert raw == q * WORD64 + raw % WORD64;
    assert raw + d == q * WORD64 + (raw % WORD64 + d);
  }

  /** A varint whose first digits are raw and whose other digits read as r, with weight p. */
  function Shifted(r: Option<(nat, Bytes)>, raw: nat, p: nat): Option<(nat, Bytes)> {
    if r.None? then None else Some((raw + r.value.0 * p, r.value.1))
  }

  // ---- Fields and messages ----

  /** pb_dec_submessage behind the tag: a substream holds the message. */
  method DecodeSubmessage(stream: IStream, fields: seq<Field>, base: Message) returns (ok: bool, msg: Message)
    requires stream.Valid() && ValidFields(fields) && |base| == |fields|
    modifies stream
    ensures stream.Valid() && old(stream.pos) <= stream.pos
    ensures var s := Substream(old(stream.Rest()));
      var r := if s.None? then None else DecodeMessage(fields, s.value.0, base, {});
      ok == r.Some? && (ok ==> msg == r.value.0 && stream.Rest() == s.value.1 && stream.Conserves())
    decreases stream.left, 3
  {
    msg := base;
    var sub: IStream;
    ok, sub := stream.MakeSubstream();
    if !ok {
      return;
    }
    ok, msg := DecodeFields(sub, fields, base);
    if ok {
      stream.CloseSubstream(sub);
    }
  }

  /** pb_dec_submessage, or a scalar field decoder. */
  method DecodeInto(stream: IStream, t: LType, into: seq<Value>) returns (ok: bool, v: Value)
    requires stream.Valid() && ValidType(t)
    modifies stream
    ensures stream.Valid() && old(stream.pos) <= stream.pos
    ensures var r := DecodeValue(t, into, old(stream.Rest()));
      ok == r.Some? && (ok ==> v == r.value.0 && stream.Rest() == r.value.1 && stream.Conserves())
    decreases stream.left, 4
  {
    if !t.TMessage? {
      ok, v := stream.DecodeScalarValue(t);
      return;
    }
    var base := if into != [] && into[0].VMessage? && |into[0].slots| == |t.fields| then into[0].slots else EmptyMessage(|t.fields|);
    var msg: Message;
    ok, msg := DecodeSubmessage(stream, t.fields, base);
    v := VMessage(msg);
  }

  /** The loop over a packed array. */
  method DecodeItems(sub: IStream, t: LType, max: nat, slot0: seq<Value>) returns (ok: bool, slot: seq<Value>)
    requires sub.Valid() && ValidType(t) && Packable(t)
    modifies sub
    ensures sub.Conserves()
    ensures var r := DecodePacked(t, max, slot0, old(sub.Rest()));
      ok == r.Some? && (ok ==> slot == r.value && sub.left == 0)
  {
    slot, ok := slot0, true;
    ghost var whole := DecodePacked(t, max, slot0, sub.Rest());
    while sub.left > 0 && |slot| < max
      invariant sub.Conserves() && DecodePacked(t, max, slot, sub.Rest()) == whole
      decreases sub.left
    {
      var v: Value;
      ok, v := sub.DecodeScalarValue(t);
      if !ok {
        return;
      }
      slot := slot + [v];
    }
    ok := sub.left == 0;
  }

  /** A packed array in a substream of its own. */
  method DecodePackedField(stream: IStream, t: LType, max: nat, slot0: seq<Value>) returns (ok: bool, slot: seq<Value>)
    requires stream.Valid() && ValidType(t) && Packable(t)
    modifies stream
    ensures stream.Valid() && old(stream.pos) <= stream.pos
    ensures var s := Substream(old(stream.Rest()));
      var r := if s.None? then None else DecodePacked(t, max, slot0, s.value.0);
      ok == r.Some? && (ok ==> slot == r.value && stream.Rest() == s.value.1 && stream.Conserves())
  {
    slot := slot0;
    var sub: IStream;
    ok, sub := stream.MakeSubstream();
    if !ok {
      return;
    }
    ok, slot := DecodeItems(sub, t, max, slot0);
    if ok {
      stream.CloseSubstream(sub);
    }
  }

  /** decode_static_field. */
  method DecodeStaticField(stream: IStream, f: Field, wire: nat, slot0: seq<Value>) returns (ok: bool, slot: seq<Value>)
    requires stream.Valid() && ValidField(f)
    modifies stream
    ensures stream.Valid() && old(stream.pos) <= stream.pos
    ensures var r := DecodeField(f, wire, slot0, old(stream.Rest()));
      ok == r.Some? && (ok ==> slot == r.value.0 && stream.Rest() == r.value.1 && stream.Conserves())
    decreases stream.left, 5
  {
    slot := slot0;
    var v: Value;
    if f.htype.Repeated? {
      if wire == WT_STRING && Packable(f.ltype) {
        ok, slot := DecodePackedField(stream, f.ltype, f.htype.max, slot0);
        return;
      }
      if |slot0| >= f.htype.max {
        return false, slot0;
      }
      ok, v := DecodeInto(stream, f.ltype, []);
      slot := slot0 + [v];
    } else {
      ok, v := DecodeInto(stream, f.ltype, slot0);
      slot := [v];
    }
  }

  /** The state of one pb_decode_noinit: iterator and mask agree with the fields seen. */
  ghost predicate TablesOk(fields: seq<Field>, iter: FieldIter?, mask: RequiredMask, seen: set<nat>)
    reads iter, mask, mask.words
  {
    && ValidFields(fields) && mask.Valid() && MaskMatches(fields, seen, mask.bits)
    && (if iter == null then fields == [] else iter.Valid() && iter.fields == fields)
  }

  /** The terminator of an empty table has tag 0 and the type of a required bool: it is found, marked and
      decoded like a field. */
  method DecodeTerminator(stream: IStream, mask: RequiredMask) returns (ok: bool)
    requires stream.Valid() && mask.Valid()
    modifies stream, mask, mask.words
    ensures stream.Valid() && old(stream.pos) <= stream.pos && mask.Valid() && mask.bits == old(mask.bits)[0 := true]
    ensures var r := Nanopb.DecodeVarint32(old(stream.Rest()));
      ok == r.Some? && (ok ==> stream.Rest() == r.value.1 && stream.Conserves())
  {
    mask.Mark(0);
    var value: nat;
    ok, value := stream.DecodeVarint32();
  }

  /** One turn of the loop in pb_decode_noinit. */
  method DecodeNext(stream: IStream, fields: seq<Field>, iter: FieldIter?, mask: RequiredMask, msg0: Message, ghost seen0: set<nat>)
    returns (ok: bool, eof: bool, msg: Message, ghost seen: set<nat>)
    requires stream.Valid() && stream.left > 0 && |msg0| == |fields| && TablesOk(fields, iter, mask, seen0)
    modifies stream, iter, mask, mask.words
    ensures stream.Valid() && old(stream.pos) <= stream.pos && |msg| == |fields| && TablesOk(fields, iter, mask, seen)
    ensures ok || eof ==> stream.Conserves() && stream.left < old(stream.left) && !(ok && eof)
    ensures ok ==> DecodeMessage(fields, old(stream.Rest()), msg0, seen0) == DecodeMessage(fields, stream.Rest(), msg, seen)
    ensures !ok && eof ==>
      DecodeMessage(fields, old(stream.Rest()), msg0, seen0) == Finish(fields, msg, seen, stream.Rest())
    ensures !ok && !eof ==> DecodeMessage(fields, old(stream.Rest()), msg0, seen0) == None
    decreases stream.left, 0
  {
    msg, seen := msg0, seen0;
    var wire: nat, tag: nat;
    ok, eof, wire, tag := stream.DecodeTag();
    if !ok {
      return;
    }
    eof := false;
    var found := false;
    if iter != null {
      found := iter.Find(tag);
    } else if tag == 0 {
      ok := DecodeTerminator(stream, mask);
      return;
    }
    if !found {
      ok := stream.SkipField(wire);
      return;
    }
    var i := iter.pos;
    MarkMatches(fields, seen, mask.bits, i);
    if fields[i].htype.Required? && iter.required < MAX_REQUIRED_FIELDS {
      mask.Mark(iter.required);
    }
    seen := seen + {i};
    var slot: seq<Value>;
    ok, slot := DecodeStaticField(stream, fields[i], wire, msg[i]);
    if ok {
      msg := Select(fields, msg, i, slot);
    }
  }

  /** The check for missing required fields. */
  method CheckRequired(fields: seq<Field>, iter: FieldIter?, mask: RequiredMask, ghost seen: set<nat>) returns (ok: bool)
    requires TablesOk(fields, iter, mask, seen)
    modifies iter
    ensures ok == AllRequiredSeen(fields, seen)
  {
    var count := 0;
    if iter != null {
      count := iter.CountRequired();
    }
    if count > MAX_REQUIRED_FIELDS {
      count := MAX_REQUIRED_FIELDS;
    }
    MaskDecides(fields, seen, mask.bits, count);
    ok := mask.AllSet(count);
  }

  /** The loop of pb_decode_noinit. */
  method DecodeLoop(stream: IStream, fields: seq<Field>, iter: FieldIter?, mask: RequiredMask, msg0: Message)
    returns (ok: bool, msg: Message, ghost seen: set<nat>)
    requires stream.Valid() && |msg0| == |fields| && TablesOk(fields, iter, mask, {})
    modifies stream, iter, mask, mask.words
    ensures stream.Valid() && old(stream.pos) <= stream.pos && |msg| == |fields| && TablesOk(fields, iter, mask, seen)
    ensures ok ==> stream.Conserves()
    ensures DecodeMessage(fields, old(stream.Rest()), msg0, {}) == if ok then Finish(fields, msg, seen, stream.Rest()) else None
    decreases stream.left, 1
  {
    msg, seen, ok := msg0, {}, true;
    var eof := false;
    ghost var whole := DecodeMessage(fields, stream.Rest(), msg0, {});
    while stream.left > 0 && !eof
      invariant stream.Conserves() && |msg| == |fields| && TablesOk(fields, iter, mask, seen)
      invariant whole == if eof then Finish(fields, msg, seen, stream.Rest()) else DecodeMessage(fields, stream.Rest(), msg, seen)
      decreases stream.left
    {
      ok, eof, msg, seen := DecodeNext(stream, fields, iter, mask, msg, seen);
      if !ok && !eof {
        return;
      }
    }
    ok := true;
  }

  /** pb_decode_noinit. */
  method DecodeFields(stream: IStream, fields: seq<Field>, msg0: Message) returns (ok: bool, msg: Message)
    requires stream.Valid() && ValidFields(fields) && |msg0| == |fields|
    modifies stream
    ensures stream.Valid() && old(stream.pos) <= stream.pos
    ensures var r := DecodeMessage(fields, old(stream.Rest()), msg0, {});
      ok == r.Some? && (ok ==> msg == r.value.0 && stream.Rest() == r.value.1 && stream.Conserves())
    decreases stream.left, 2
  {
    var mask := new RequiredMask();
    var iter: FieldIter? := null;
    if fields != [] {
      iter := new FieldIter(fields);
    }
    ghost var seen: set<nat>;
    ok, msg, seen := DecodeLoop(stream, fields, iter, mask, msg0);
    if ok {
      ok := CheckRequired(fields, iter, mask, seen);
    }
  }
}
