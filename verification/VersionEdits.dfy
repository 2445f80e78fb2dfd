/** VersionEdit records as bytes (db/version_edit.cc). */
module VersionEdits {
  import opened DbFormat
  import opened Coding

  // ---- Edits ----

  datatype NewFile = NewFile(level: nat, number: nat, size: nat, smallest: Bytes, largest: Bytes)

  type LevelAndNumber = (nat, nat)

  /** deleted is the std::set of (level, number) pairs, in its iteration order. */
  datatype VersionEdit = VersionEdit(comparator: Option<Bytes>, logNumber: Option<nat>, prevLogNumber: Option<nat>,
                                     nextFile: Option<nat>, lastSequence: Option<nat>,
                                     compactPointers: seq<(nat, Bytes)>, deleted: seq<LevelAndNumber>, added: seq<NewFile>)

  const NO_EDIT := VersionEdit(None, None, None, None, None, [], [], [])

  predicate PairLess(a: LevelAndNumber, b: LevelAndNumber) {
    a.0 < b.0 || (a.0 == b.0 && a.1 < b.1)
  }

  /** std::set::insert. */
  function InsertPair(p: LevelAndNumber, s: seq<LevelAndNumber>): seq<LevelAndNumber> {
    if s == [] || PairLess(s[|s| - 1], p) then s + [p]
    else if p == s[|s| - 1] then s
    else InsertPair(p, s[..|s| - 1]) + [s[|s| - 1]]
  }

  // ---- Fields ----

  const LOG_NUMBER := 2
  const NEXT_FILE_NUMBER := 3
  const LAST_SEQUENCE := 4
  const PREV_LOG_NUMBER := 9

  /** One tagged field of the encoding; a Number carries its tag. */
  datatype Field =
    | Comparator(name: Bytes) | Number(tag: nat, n: nat)
    | CompactPointer(pointer: (nat, Bytes)) | DeletedFile(pair: LevelAndNumber) | AddedFile(file: NewFile)

  function FieldBytes(f: Field): Bytes {
    match f
    case Comparator(name) => Varint(1) + LengthPrefixed(name)
    case Number(tag, n) => Varint(tag) + Varint(n)
    case CompactPointer(p) => Varint(5) + (Varint(p.0) + LengthPrefixed(p.1))
    case DeletedFile(p) => Varint(6) + (Varint(p.0) + Varint(p.1))
    case AddedFile(g) =>
      Varint(7) + (Varint(g.level) + (Varint(g.number) + (Varint(g.size) + (LengthPrefixed(g.smallest) + LengthPrefixed(g.largest)))))
  }

  function FieldsBytes(fs: seq<Field>): Bytes {
    if fs == [] then [] else FieldsBytes(fs[..|fs| - 1]) + FieldBytes(fs[|fs| - 1])
  }

  /** What the message of a corruption status says. */
  type Message = string

  datatype NextField = NextField(field: Field, rest: Bytes) | Bad(msg: Message)

  function GetLevel(input: Bytes): (r: Option<(nat, Bytes)>)
    ensures r.Some? ==> r.value.0 < NUM_LEVELS && |r.value.1| < |input|
  {
    var v := GetVarint32(input);
    if v.Some? && v.value.0 < NUM_LEVELS then v else None
  }

  function GetInternalKey(input: Bytes): (r: Option<(Bytes, Bytes)>)
    ensures r.Some? ==> |r.value.1| < |input|
  {
    var key := GetLengthPrefixed(input);
    if key.Some? && key.value.0 != [] then key else None
  }

  function GetNewFile(input: Bytes): (r: Option<(NewFile, Bytes)>)
    ensures r.Some? ==> |r.value.1| < |input|
  {
    var level := GetLevel(input);
    if level.None? then None
    else
      var number := GetVarint64(level.value.1);
      if number.None? then None
      else
        var size := GetVarint64(number.value.1);
        if size.None? then None
        else
          var smallest := GetInternalKey(size.value.1);
          if smallest.None? then None
          else
            var largest := GetInternalKey(smallest.value.1);
            if largest.None? then None
            else
              Some((NewFile(level.value.0, number.value.0, size.value.0, smallest.value.0, largest.value.0), largest.value.1))
  }

  function NumberMessage(tag: nat): Message {
    if tag == LOG_NUMBER then "log number"
    else if tag == PREV_LOG_NUMBER then "previous log number"
    else if tag == NEXT_FILE_NUMBER then "next file number"
    else "last sequence number"
  }

  /** The switch of DecodeFrom. */
  function ParseField(tag: nat, input: Bytes): (r: NextField)
    ensures r.NextField? ==> |r.rest| < |input|
  {
    if tag == 1 then
      var name := GetLengthPrefixed(input);
      if name.None? then Bad("comparator name") else NextField(Comparator(name.value.0), name.value.1)
    else if tag == LOG_NUMBER || tag == PREV_LOG_NUMBER || tag == NEXT_FILE_NUMBER || tag == LAST_SEQUENCE then
      var n := GetVarint64(input);
      if n.None? then Bad(NumberMessage(tag)) else NextField(Number(tag, n.value.0), n.value.1)
    else if tag == 5 then
      var level := GetLevel(input);
      if level.None? then Bad("compaction pointer")
      else
        var key := GetInternalKey(level.value.1);
        if key.None? then Bad("compaction pointer") else NextField(CompactPointer((level.value.0, key.value.0)), key.value.1)
    else if tag == 6 then
      var level := GetLevel(input);
      if level.None? then Bad("deleted file")
      else
        var number := GetVarint64(level.value.1);
        if number.None? then Bad("deleted file") else NextField(DeletedFile((level.value.0, number.value.0)), number.value.1)
    else if tag == 7 then
      var file := GetNewFile(input);
      if file.None? then Bad("new-file entry") else NextField(AddedFile(file.value.0), file.value.1)
    else Bad("unknown tag")
  }

  /** What a parsed field does to the edit being filled. */
  function SetField(e: VersionEdit, f: Field): VersionEdit {
    match f
    case Comparator(name) => e.(comparator := Some(name))
    case Number(tag, n) =>
      if tag == LOG_NUMBER then e.(logNumber := Some(n))
      else if tag == PREV_LOG_NUMBER then e.(prevLogNumber := Some(n))
      else if tag == NEXT_FILE_NUMBER then e.(nextFile := Some(n))
      else e.(lastSequence := Some(n))
    case CompactPointer(p) => e.(compactPointers := e.compactPointers + [p])
    case DeletedFile(p) => e.(deleted := InsertPair(p, e.deleted))
    case AddedFile(g) => e.(added := e.added + [g])
  }

  datatype Decoded = Decoded(edit: VersionEdit, msg: Option<Message>)

  /** DecodeFrom on the rest of the input, with the fields before it filled in. */
  function Decode(input: Bytes, e: VersionEdit): Decoded
    decreases |input|
  {
    var tag := GetVarint32(input);
    if tag.None? then Decoded(e, if input == [] then None else Some("invalid tag"))
    else
      var f := ParseField(tag.value.0, tag.value.1);
      if f.Bad? then Decoded(e, Some(f.msg)) else Decode(f.rest, SetField(e, f.field))
  }

  /** VersionEdit::DecodeFrom. */
  method DecodeFrom(src: Bytes) returns (e: VersionEdit, msg: Option<Message>)
    ensures Decoded(e, msg) == Decode(src, NO_EDIT)
  {
    e, msg := NO_EDIT, None;
    var input := src;
    while true
      invariant Decode(input, e) == Decode(src, NO_EDIT) && msg == None
      decreases |input|
    {
      var tag := GetVarint32(input);
      if tag.None? {
        break;
      }
      var f := ParseField(tag.value.0, tag.value.1);
      if f.Bad? {
        msg := Some(f.msg);
        return;
      }
      e, input := SetField(e, f.field), f.rest;
    }
    if input != [] {
      msg := Some("invalid tag");
    }
  }

  // ---- Encoding ----

  function NumberFields(tag: nat, o: Option<nat>): seq<Field> {
    if o.None? then [] else [Number(tag, o.value)]
  }

  function PointerFields(ps: seq<(nat, Bytes)>): seq<Field> {
    if ps == [] then [] else PointerFields(ps[..|ps| - 1]) + [CompactPointer(ps[|ps| - 1])]
  }

  function DeletedFields(ps: seq<LevelAndNumber>): seq<Field> {
    if ps == [] then [] else DeletedFields(ps[..|ps| - 1]) + [DeletedFile(ps[|ps| - 1])]
  }

  function AddedFields(gs: seq<NewFile>): seq<Field> {
    if gs == [] then [] else AddedFields(gs[..|gs| - 1]) + [AddedFile(gs[|gs| - 1])]
  }

  function ComparatorFields(o: Option<Bytes>): seq<Field> {
    if o.None? then [] else [Comparator(o.value)]
  }

  /** The optional fields, in the order EncodeTo writes them. */
  function HeadFields(e: VersionEdit): seq<Field> {
    ComparatorFields(e.comparator)
    + NumberFields(LOG_NUMBER, e.logNumber) + NumberFields(PREV_LOG_NUMBER, e.prevLogNumber)
    + NumberFields(NEXT_FILE_NUMBER, e.nextFile) + NumberFields(LAST_SEQUENCE, e.lastSequence)
  }

  /** All fields of an edit. */
  function FieldsOf(e: VersionEdit): seq<Field> {
    HeadFields(e) + PointerFields(e.compactPointers) + DeletedFields(e.deleted) + AddedFields(e.added)
  }

  lemma OneMoreField(dst: Bytes, fs: seq<Field>, f: Field)
    ensures dst + FieldsBytes(fs + [f]) == dst + FieldsBytes(fs) + FieldBytes(f)
    ensures fs + [] == fs
  {
    assert (fs + [f])[..|fs|] == fs;
    Associative(dst, FieldsBytes(fs), FieldBytes(f));
  }

  /** fs are the fields written behind dst so far. */
  method EncodeNumber(tag: nat, o: Option<nat>, r0: Bytes, ghost dst: Bytes, ghost fs: seq<Field>) returns (r: Bytes)
    requires r0 == dst + FieldsBytes(fs)
    ensures r == dst + FieldsBytes(fs + NumberFields(tag, o))
  {
    r := r0;
    OneMoreField(dst, fs, Number(tag, o.GetOr(0)));
    if o.Some? {
      Associative(r, Varint(tag), Varint(o.value));
      r := r + Varint(tag);
      r := r + Varint(o.value);
    }
  }

  method EncodeHead(e: VersionEdit, dst: Bytes) returns (r: Bytes)
    ensures r == dst + FieldsBytes(HeadFields(e))
  {
    r := dst;
    ghost var fs := ComparatorFields(e.comparator);
    assert dst + FieldsBytes([]) == dst;
    OneMoreField(dst, [], Comparator(e.comparator.GetOr([])));
    if e.comparator.Some? {
      assert [] + [Comparator(e.comparator.value)] == fs;
      Associative(r, Varint(1), LengthPrefixed(e.comparator.value));
      r := r + Varint(1);
      r := r + LengthPrefixed(e.comparator.value);
    }
    r := EncodeNumber(LOG_NUMBER, e.logNumber, r, dst, fs);
    fs := fs + NumberFields(LOG_NUMBER, e.logNumber);
    r := EncodeNumber(PREV_LOG_NUMBER, e.prevLogNumber, r, dst, fs);
    fs := fs + NumberFields(PREV_LOG_NUMBER, e.prevLogNumber);
    r := EncodeNumber(NEXT_FILE_NUMBER, e.nextFile, r, dst, fs);
    fs := fs + NumberFields(NEXT_FILE_NUMBER, e.nextFile);
    r := EncodeNumber(LAST_SEQUENCE, e.lastSequence, r, dst, fs);
  }

  lemma PointerStep(ps: seq<(nat, Bytes)>, i: nat)
    requires i < |ps|
    ensures PointerFields(ps[..i + 1]) == PointerFields(ps[..i]) + [CompactPointer(ps[i])]
  {
    assert ps[..i + 1][..i] == ps[..i];
  }

  lemma DeletedStep(ps: seq<LevelAndNumber>, i: nat)
    requires i < |ps|
    ensures DeletedFields(ps[..i + 1]) == DeletedFields(ps[..i]) + [DeletedFile(ps[i])]
  {
    assert ps[..i + 1][..i] == ps[..i];
  }

  lemma AddedStep(gs: seq<NewFile>, i: nat)
    requires i < |gs|
    ensures AddedFields(gs[..i + 1]) == AddedFields(gs[..i]) + [AddedFile(gs[i])]
  {
    assert gs[..i + 1][..i] == gs[..i];
  }

  /** A field behind a growing group of fields. */
  lemma NextInGroup(dst: Bytes, fs: seq<Field>, group: seq<Field>, group': seq<Field>, f: Field)
    requires group' == group + [f]
    ensures dst + FieldsBytes(fs + group') == dst + FieldsBytes(fs + group) + FieldBytes(f)
  {
    assert fs + group' == fs + group + [f];
    OneMoreField(dst, fs + group, f);
  }

  method EncodePointers(ps: seq<(nat, Bytes)>, r0: Bytes, ghost dst: Bytes, ghost fs: seq<Field>) returns (r: Bytes)
    requires r0 == dst + FieldsBytes(fs)
    ensures r == dst + FieldsBytes(fs + PointerFields(ps))
  {
    r := r0;
    assert ps[..0] == [] && fs + [] == fs;
    for i := 0 to |ps|
      invariant r == dst + FieldsBytes(fs + PointerFields(ps[..i]))
    {
      PointerStep(ps, i);
      NextInGroup(dst, fs, PointerFields(ps[..i]), PointerFields(ps[..i + 1]), CompactPointer(ps[i]));
      r := Append3(r, Varint(5), Varint(ps[i].0), LengthPrefixed(ps[i].1));
    }
    assert ps[..|ps|] == ps;
  }

  /** Three appends in a row. */
  method Append3(r0: Bytes, a: Bytes, b: Bytes, c: Bytes) returns (r: Bytes)
    ensures r == r0 + (a + (b + c))
  {
    r := r0 + a;
    r := r + b;
    r := r + c;
  }

  method EncodeDeleted(ps: seq<LevelAndNumber>, r0: Bytes, ghost dst: Bytes, ghost fs: seq<Field>) returns (r: Bytes)
    requires r0 == dst + FieldsBytes(fs)
    ensures r == dst + FieldsBytes(fs + DeletedFields(ps))
  {
    r := r0;
    assert ps[..0] == [] && fs + [] == fs;
    for i := 0 to |ps|
      invariant r == dst + FieldsBytes(fs + DeletedFields(ps[..i]))
    {
      DeletedStep(ps, i);
      NextInGroup(dst, fs, DeletedFields(ps[..i]), DeletedFields(ps[..i + 1]), DeletedFile(ps[i]));
      r := Append3(r, Varint(6), Varint(ps[i].0), Varint(ps[i].1));
    }
    assert ps[..|ps|] == ps;
  }

  method EncodeAdded(gs: seq<NewFile>, r0: Bytes, ghost dst: Bytes, ghost fs: seq<Field>) returns (r: Bytes)
    requires r0 == dst + FieldsBytes(fs)
    ensures r == dst + FieldsBytes(fs + AddedFields(gs))
  {
    r := r0;
    assert gs[..0] == [] && fs + [] == fs;
    for i := 0 to |gs|
      invariant r == dst + FieldsBytes(fs + AddedFields(gs[..i]))
    {
      var g := gs[i];
      AddedStep(gs, i);
      NextInGroup(dst, fs, AddedFields(gs[..i]), AddedFields(gs[..i + 1]), AddedFile(g));
      var numbers := Varint(g.size) + (LengthPrefixed(g.smallest) + LengthPrefixed(g.largest));
      r := Append3(r, Varint(7), Varint(g.level), Varint(g.number) + numbers);
    }
    assert gs[..|gs|] == gs;
  }

  /** VersionEdit::EncodeTo: appends the fields of the edit. */
  method EncodeTo(e: VersionEdit, dst: Bytes) returns (r: Bytes)
    ensures r == dst + FieldsBytes(FieldsOf(e))
  {
    r := EncodeHead(e, dst);
    r := EncodePointers(e.compactPointers, r, dst, HeadFields(e));
    r := EncodeDeleted(e.deleted, r, dst, HeadFields(e) + PointerFields(e.compactPointers));
    r := EncodeAdded(e.added, r, dst, HeadFields(e) + PointerFields(e.compactPointers) + DeletedFields(e.deleted));
  }

  // ---- Round trip ----

  predicate IsNumberTag(tag: nat) {
    tag == LOG_NUMBER || tag == PREV_LOG_NUMBER || tag == NEXT_FILE_NUMBER || tag == LAST_SEQUENCE
  }

  predicate KeyFits(key: Bytes) {
    key != [] && |key| < WORD32
  }

  /** What a field must be like to be written: machine words, a known level, keys that are set. */
  predicate FieldFits(f: Field) {
    match f
    case Comparator(name) => |name| < WORD32
    case Number(tag, n) => IsNumberTag(tag) && n < WORD64
    case CompactPointer(p) => p.0 < NUM_LEVELS && KeyFits(p.1)
    case DeletedFile(p) => p.0 < NUM_LEVELS && p.1 < WORD64
    case AddedFile(g) =>
      g.level < NUM_LEVELS && g.number < WORD64 && g.size < WORD64 && KeyFits(g.smallest) && KeyFits(g.largest)
  }

  predicate AllFit(fs: seq<Field>) {
    fs == [] || (AllFit(fs[..|fs| - 1]) && FieldFits(fs[|fs| - 1]))
  }

  function TagOf(f: Field): nat {
    match f
    case Comparator(_) => 1
    case Number(tag, _) => tag
    case CompactPointer(_) => 5
    case DeletedFile(_) => 6
    case AddedFile(_) => 7
  }

  /** The bytes of a field behind its tag. */
  function Payload(f: Field): Bytes {
    match f
    case Comparator(name) => LengthPrefixed(name)
    case Number(tag, n) => Varint(n)
    case CompactPointer(p) => Varint(p.0) + LengthPrefixed(p.1)
    case DeletedFile(p) => Varint(p.0) + Varint(p.1)
    case AddedFile(g) =>
      Varint(g.level) + (Varint(g.number) + (Varint(g.size) + (LengthPrefixed(g.smallest) + LengthPrefixed(g.largest))))
  }

  lemma LevelRoundTrip(level: nat, rest: Bytes)
    requires level < NUM_LEVELS
    ensures GetLevel(Varint(level) + rest) == Some((level, rest))
  {
    Varint32RoundTrip(level, rest);
  }

  lemma NewFileRoundTrip(g: NewFile, rest: Bytes)
    requires FieldFits(AddedFile(g))
    ensures GetNewFile(Payload(AddedFile(g)) + rest) == Some((g, rest))
  {
    var a := LengthPrefixed(g.largest) + rest;
    var b := LengthPrefixed(g.smallest) + a;
    var c := Varint(g.size) + b;
    var d := Varint(g.number) + c;
    assert Payload(AddedFile(g)) + rest == Varint(g.level) + d;
    LevelRoundTrip(g.level, d);
    Varint64RoundTrip(g.number, c);
    Varint64RoundTrip(g.size, b);
    LengthPrefixedRoundTrip(g.smallest, a);
    LengthPrefixedRoundTrip(g.largest, rest);
  }

  lemma PointerRoundTrip(p: (nat, Bytes), rest: Bytes)
    requires FieldFits(CompactPointer(p))
    ensures ParseField(5, Payload(CompactPointer(p)) + rest) == NextField(CompactPointer(p), rest)
  {
    Associative(Varint(p.0), LengthPrefixed(p.1), rest);
    LevelRoundTrip(p.0, LengthPrefixed(p.1) + rest);
    LengthPrefixedRoundTrip(p.1, rest);
  }

  lemma DeletedRoundTrip(p: LevelAndNumber, rest: Bytes)
    requires FieldFits(DeletedFile(p))
    ensures ParseField(6, Payload(DeletedFile(p)) + rest) == NextField(DeletedFile(p), rest)
  {
    Associative(Varint(p.0), Varint(p.1), rest);
    LevelRoundTrip(p.0, Varint(p.1) + rest);
    Varint64RoundTrip(p.1, rest);
  }

  lemma PayloadRoundTrip(f: Field, rest: Bytes)
    requires FieldFits(f)
    ensures ParseField(TagOf(f), Payload(f) + rest) == NextField(f, rest)
  {
    match f {
      case Comparator(name) => LengthPrefixedRoundTrip(name, rest);
      case Number(tag, n) => Varint64RoundTrip(n, rest);
      case CompactPointer(p) => PointerRoundTrip(p, rest);
      case DeletedFile(p) => DeletedRoundTrip(p, rest);
      case AddedFile(g) => NewFileRoundTrip(g, rest);
    }
  }

  lemma FieldRoundTrip(f: Field, input: Bytes, rest: Bytes, e: VersionEdit)
    requires FieldFits(f) && input == FieldBytes(f) + rest
    ensures Decode(input, e) == Decode(rest, SetField(e, f))
  {
    assert FieldBytes(f) == Varint(TagOf(f)) + Payload(f);
    Associative(Varint(TagOf(f)), Payload(f), rest);
    Varint32RoundTrip(TagOf(f), Payload(f) + rest);
    PayloadRoundTrip(f, rest);
  }

  function SetFields(e: VersionEdit, fs: seq<Field>): VersionEdit {
    if fs == [] then e else SetField(SetFields(e, fs[..|fs| - 1]), fs[|fs| - 1])
  }

  lemma LastField(fs: seq<Field>, input: Bytes, rest: Bytes, e: VersionEdit) returns (behind: Bytes)
    requires fs != [] && FieldFits(fs[|fs| - 1]) && input == FieldsBytes(fs) + rest
    ensures input == FieldsBytes(fs[..|fs| - 1]) + behind
    ensures Decode(behind, e) == Decode(rest, SetField(e, fs[|fs| - 1]))
  {
    behind := FieldBytes(fs[|fs| - 1]) + rest;
    Associative(FieldsBytes(fs[..|fs| - 1]), FieldBytes(fs[|fs| - 1]), rest);
    FieldRoundTrip(fs[|fs| - 1], behind, rest, e);
  }

  /** Decoding the bytes of some fields sets them, then goes on behind. */
  lemma {:induction false} FieldsRoundTrip(fs: seq<Field>, input: Bytes, rest: Bytes, e: VersionEdit)
    requires AllFit(fs) && input == FieldsBytes(fs) + rest
    ensures Decode(input, e) == Decode(rest, SetFields(e, fs))
    decreases |fs|
  {
    if fs == [] {
      assert input == rest;
    } else {
      var behind := LastField(fs, input, rest, SetFields(e, fs[..|fs| - 1]));
      FieldsRoundTrip(fs[..|fs| - 1], input, behind, e);
    }
  }

  lemma {:induction false} SetFieldsAppend(e: VersionEdit, a: seq<Field>, b: seq<Field>)
    ensures SetFields(e, a + b) == SetFields(SetFields(e, a), b)
    decreases |b|
  {
    if b == [] {
      assert a + b == a;
    } else {
      SetFieldsAppend(e, a, b[..|b| - 1]);
      assert (a + b)[..|a + b| - 1] == a + b[..|b| - 1];
    }
  }

  lemma SetFieldsLast(e: VersionEdit, fs: seq<Field>, f: Field)
    ensures SetFields(e, fs + [f]) == SetField(SetFields(e, fs), f)
  {
    assert (fs + [f])[..|fs + [f]| - 1] == fs;
  }

  lemma {:induction false} SetPointers(e: VersionEdit, ps: seq<(nat, Bytes)>)
    requires e.compactPointers == []
    ensures SetFields(e, PointerFields(ps)) == e.(compactPointers := ps)
    decreases |ps|
  {
    if ps != [] {
      var before, p := ps[..|ps| - 1], ps[|ps| - 1];
      SetPointers(e, before);
      SetFieldsLast(e, PointerFields(before), CompactPointer(p));
      assert before + [p] == ps;
    }
  }

  ghost predicate StrictlySorted(ps: seq<LevelAndNumber>) {
    forall i :: 0 <= i < |ps| - 1 ==> PairLess(ps[i], ps[i + 1])
  }

  lemma {:induction false} SetDeleted(e: VersionEdit, ps: seq<LevelAndNumber>)
    requires e.deleted == [] && StrictlySorted(ps)
    ensures SetFields(e, DeletedFields(ps)) == e.(deleted := ps)
    decreases |ps|
  {
    if ps != [] {
      var before := ps[..|ps| - 1];
      SetDeleted(e, before);
      SetFieldsLast(e, DeletedFields(before), DeletedFile(ps[|ps| - 1]));
      assert |ps| > 1 ==> PairLess(ps[|ps| - 2], ps[|ps| - 2 + 1]);
      assert InsertPair(ps[|ps| - 1], before) == before + [ps[|ps| - 1]] == ps;
    }
  }

  lemma {:induction false} SetAdded(e: VersionEdit, gs: seq<NewFile>)
    requires e.added == []
    ensures SetFields(e, AddedFields(gs)) == e.(added := gs)
    decreases |gs|
  {
    if gs == [] {
      assert e.(added := gs) == e;
    } else {
      var before, g := gs[..|gs| - 1], gs[|gs| - 1];
      SetAdded(e, before);
      SetFieldsLast(e, AddedFields(before), AddedFile(g));
      assert AddedFields(gs) == AddedFields(before) + [AddedFile(g)];
      assert before + [g] == gs;
    }
  }

  lemma SetOne(e: VersionEdit, f: Field)
    ensures SetFields(e, [f]) == SetField(e, f)
  {
    assert [f][..0] == [];
  }

  lemma SetNumber(e: VersionEdit, fs: seq<Field>, tag: nat, o: Option<nat>, before: VersionEdit, after: VersionEdit)
    requires SetFields(e, fs) == before
    requires after == if o.None? then before else SetField(before, Number(tag, o.value))
    ensures SetFields(e, fs + NumberFields(tag, o)) == after
  {
    SetFieldsAppend(e, fs, NumberFields(tag, o));
    if o.Some? {
      SetOne(before, Number(tag, o.value));
    }
  }

  lemma SetComparator(o: Option<Bytes>)
    ensures SetFields(NO_EDIT, ComparatorFields(o)) == NO_EDIT.(comparator := o)
  {
    if o.Some? {
      SetOne(NO_EDIT, Comparator(o.value));
    }
  }

  lemma SetHead(e: VersionEdit)
    ensures SetFields(NO_EDIT, HeadFields(e))
         == VersionEdit(e.comparator, e.logNumber, e.prevLogNumber, e.nextFile, e.lastSequence, [], [], [])
  {
    var c := ComparatorFields(e.comparator);
    var log, prev := NumberFields(LOG_NUMBER, e.logNumber), NumberFields(PREV_LOG_NUMBER, e.prevLogNumber);
    var next := NumberFields(NEXT_FILE_NUMBER, e.nextFile);
    var e0 := NO_EDIT.(comparator := e.comparator);
    var e1 := e0.(logNumber := e.logNumber);
    var e2 := e1.(prevLogNumber := e.prevLogNumber);
    var e3 := e2.(nextFile := e.nextFile);
    SetComparator(e.comparator);
    SetNumber(NO_EDIT, c, LOG_NUMBER, e.logNumber, e0, e1);
    SetNumber(NO_EDIT, c + log, PREV_LOG_NUMBER, e.prevLogNumber, e1, e2);
    SetNumber(NO_EDIT, c + log + prev, NEXT_FILE_NUMBER, e.nextFile, e2, e3);
    SetNumber(NO_EDIT, c + log + prev + next, LAST_SEQUENCE, e.lastSequence, e3, e3.(lastSequence := e.lastSequence));
  }

  /** The fields of an edit, set one after the other, rebuild it. */
  lemma SetAllFields(e: VersionEdit)
    requires StrictlySorted(e.deleted)
    ensures SetFields(NO_EDIT, FieldsOf(e)) == e
  {
    var h, p, d, a := HeadFields(e), PointerFields(e.compactPointers), DeletedFields(e.deleted), AddedFields(e.added);
    SetFieldsAppend(NO_EDIT, h + p + d, a);
    SetFieldsAppend(NO_EDIT, h + p, d);
    SetFieldsAppend(NO_EDIT, h, p);
    SetHead(e);
    var e1 := SetFields(NO_EDIT, h);
    SetPointers(e1, e.compactPointers);
    var e2 := SetFields(e1, p);
    SetDeleted(e2, e.deleted);
    SetAdded(SetFields(e2, d), e.added);
  }

  /** DecodeFrom undoes EncodeTo. */
  lemma EditRoundTrip(e: VersionEdit)
    requires AllFit(FieldsOf(e)) && StrictlySorted(e.deleted)
    ensures Decode(FieldsBytes(FieldsOf(e)), NO_EDIT) == Decoded(e, None)
  {
    var bytes := FieldsBytes(FieldsOf(e));
    assert bytes + [] == bytes;
    FieldsRoundTrip(FieldsOf(e), bytes, [], NO_EDIT);
    SetAllFields(e);
  }
}
