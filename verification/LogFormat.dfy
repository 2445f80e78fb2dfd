/** The record format of log files and the MANIFEST (db/log_format.h, db/log_writer.cc,
    db/log_reader.cc), for a reader that starts at offset 0 and checks checksums. */
module LogFormat {
  import opened DbFormat
  import opened Coding
  import opened Crc32c

  const BLOCK: nat := 32768
  const HEADER: nat := 7

  const ZERO_TYPE: Byte := 0
  const FULL_TYPE: Byte := 1
  const FIRST_TYPE: Byte := 2
  const MIDDLE_TYPE: Byte := 3
  const LAST_TYPE: Byte := 4

  // ---- Writing ----

  function Zeros(n: nat): (b: Bytes)
    ensures |b| == n
  {
    if n == 0 then [] else [0] + Zeros(n - 1)
  }

  function FragmentType(begin: bool, end: bool): Byte {
    if begin && end then FULL_TYPE else if begin then FIRST_TYPE else if end then LAST_TYPE else MIDDLE_TYPE
  }

  /** EmitPhysicalRecord: checksum, length, type, payload. */
  function Physical(step: Step, t: Byte, payload: Bytes): (b: Bytes)
    requires |payload| <= 0xffff
    ensures |b| == HEADER + |payload|
  {
    PutFixed32(Mask(Extend(step, Value(step, [t]), payload))) + [|payload| % 256, |payload| / 256, t] + payload
  }

  /** Payload bytes that fit behind a header at this offset of a block. */
  function FragmentLength(off: nat, left: nat): (n: nat)
    requires off + HEADER <= BLOCK
    ensures n <= left && off + HEADER + n <= BLOCK
  {
    if left < BLOCK - off - HEADER then left else BLOCK - off - HEADER
  }

  /** A zero-length fragment fills the last seven bytes of a block; it is followed by one at the
      start of the next block, which has room. */
  function Detour(off: nat): nat {
    if off + HEADER < BLOCK then 0 else if off + HEADER > BLOCK then 1 else 2
  }

  /** The bytes AddRecord appends for what is left of a record, at this offset of a block. */
  function Emit(step: Step, off: nat, rec: Bytes, begin: bool): Bytes
    requires off <= BLOCK
    decreases |rec|, Detour(off)
  {
    if BLOCK - off < HEADER then Zeros(BLOCK - off) + Emit(step, 0, rec, begin)
    else
      var n := FragmentLength(off, |rec|);
      var end := n == |rec|;
      Physical(step, FragmentType(begin, end), rec[..n])
      + if end then [] else Emit(step, off + HEADER + n, rec[n..], false)
  }

  /** Where in its block a record ends. */
  function EndOffset(off: nat, left: nat): (e: nat)
    requires off <= BLOCK
    ensures e <= BLOCK
    decreases left, Detour(off)
  {
    if BLOCK - off < HEADER then EndOffset(0, left)
    else
      var n := FragmentLength(off, left);
      if n == left then off + HEADER + n else EndOffset(off + HEADER + n, left - n)
  }

  /** The records from the given offset of a block on, one after the other. */
  function Records(step: Step, off: nat, records: seq<Bytes>): Bytes
    requires off <= BLOCK
    decreases records
  {
    if records == [] then []
    else Emit(step, off, records[0], true) + Records(step, EndOffset(off, |records[0]|), records[1..])
  }

  function OffsetAfter(off: nat, records: seq<Bytes>): (e: nat)
    requires off <= BLOCK
    ensures e <= BLOCK
    decreases records
  {
    if records == [] then off else OffsetAfter(EndOffset(off, |records[0]|), records[1..])
  }

  /** A log file; it starts at the end of no block. */
  function Log(step: Step, records: seq<Bytes>): Bytes {
    Records(step, BLOCK, records)
  }

  lemma {:induction false} RecordsSplit(step: Step, off: nat, a: seq<Bytes>, b: seq<Bytes>)
    requires off <= BLOCK
    ensures Records(step, off, a + b) == Records(step, off, a) + Records(step, OffsetAfter(off, a), b)
    decreases a
  {
    if a == [] {
      assert a + b == b;
    } else {
      var next := EndOffset(off, |a[0]|);
      RecordsSplit(step, next, a[1..], b);
      assert (a + b)[1..] == a[1..] + b;
      Associative(Emit(step, off, a[0], true), Records(step, next, a[1..]), Records(step, OffsetAfter(off, a), b));
    }
  }

  /** off is how far into its block a file of this length ends; a full block counts as BLOCK or 0. */
  ghost predicate AtOffset(len: nat, off: nat) {
    off <= BLOCK && (len - off) % BLOCK == 0
  }

  lemma OffsetsEmitAlike(step: Step, len: nat, off: nat, rec: Bytes, begin: bool)
    requires AtOffset(len, off)
    ensures Emit(step, off, rec, begin) == Emit(step, len % BLOCK, rec, begin)
  {
    if off == BLOCK {
      assert len % BLOCK == 0;
      assert Zeros(0) + Emit(step, 0, rec, begin) == Emit(step, 0, rec, begin);
    } else {
      assert len % BLOCK == off;
    }
  }

  lemma Regroup(a: Bytes, b: Bytes, c: Bytes, d: Bytes)
    ensures a + b + c + d == a + (b + (c + d))
    ensures [] + (c + d) == c + d && a + [] == a
  {
  }

  class Writer {
    const step: Step
    var dest: Bytes
    var blockOffset: nat

    ghost predicate Valid()
      reads this
    {
      AtOffset(|dest|, blockOffset)
    }

    /** A writer on a file that may already hold data; a new file is empty. */
    constructor (step: Step, dest: Bytes)
      ensures Valid() && this.step == step && this.dest == dest
    {
      this.step, this.dest, blockOffset := step, dest, |dest| % BLOCK;
    }

    method EmitPhysicalRecord(t: Byte, payload: Bytes)
      requires Valid() && blockOffset + HEADER + |payload| <= BLOCK
      modifies this
      ensures Valid() && dest == old(dest) + Physical(step, t, payload)
      ensures blockOffset == old(blockOffset) + HEADER + |payload|
    {
      var bytes := Physical(step, t, payload);
      assert |dest + bytes| - (blockOffset + |bytes|) == |dest| - blockOffset;
      dest := dest + bytes;
      blockOffset := blockOffset + HEADER + |payload|;
    }

    /** Fills the rest of a block that has no room for a header. */
    method NextBlock()
      requires Valid() && BLOCK - blockOffset < HEADER
      modifies this
      ensures Valid() && dest == old(dest) + Zeros(BLOCK - old(blockOffset)) && blockOffset == 0
    {
      var trailer := Zeros(BLOCK - blockOffset);
      assert |dest + trailer| == |dest| - blockOffset + BLOCK;
      dest := dest + trailer;
      blockOffset := 0;
    }

    /** One turn of the loop in AddRecord: a fragment of what is left of the record. */
    method EmitFragment(rest: Bytes, begin: bool) returns (n: nat)
      requires Valid()
      modifies this
      ensures Valid() && n <= |rest|
      ensures dest + After(rest, n) == old(dest) + Emit(step, old(blockOffset), rest, begin)
      ensures n == |rest| || n > 0 || Detour(blockOffset) < Detour(old(blockOffset))
    {
      if BLOCK - blockOffset < HEADER {
        NextBlock();
      }
      n := FragmentLength(blockOffset, |rest|);
      ghost var fragment := Physical(step, FragmentType(begin, n == |rest|), rest[..n]);
      EmitPhysicalRecord(FragmentType(begin, n == |rest|), rest[..n]);
      Regroup(old(dest), if old(blockOffset) + HEADER > BLOCK then Zeros(BLOCK - old(blockOffset)) else [], fragment, After(rest, n));
    }

    /** What remains to be appended once n more bytes of the record are out. */
    ghost function After(rest: Bytes, n: nat): Bytes
      requires blockOffset <= BLOCK && n <= |rest|
      reads this
    {
      if n == |rest| then [] else Emit(step, blockOffset, rest[n..], false)
    }

    /** Appends one record, whatever the writer has done before: only the file length counts. */
    method AddRecord(rec: Bytes)
      requires Valid()
      modifies this
      ensures Valid() && dest == old(dest) + Emit(step, old(|dest|) % BLOCK, rec, true)
    {
      OffsetsEmitAlike(step, |dest|, blockOffset, rec, true);
      ghost var whole := dest + Emit(step, |dest| % BLOCK, rec, true);
      var rest := rec;
      var n: nat := EmitFragment(rest, true);
      while n < |rest|
        invariant Valid() && n <= |rest|
        invariant dest + After(rest, n) == whole
        decreases |rest| - n, Detour(blockOffset)
      {
        rest := rest[n..];
        n := EmitFragment(rest, false);
      }
    }
  }

  lemma {:induction false} EmitEnds(step: Step, len: nat, off: nat, rec: Bytes, begin: bool)
    requires AtOffset(len, off)
    ensures AtOffset(len + |Emit(step, off, rec, begin)|, EndOffset(off, |rec|))
    decreases |rec|, Detour(off)
  {
    if BLOCK - off < HEADER {
      assert len + BLOCK - off == len - off + BLOCK;
      EmitEnds(step, len + BLOCK - off, 0, rec, begin);
    } else {
      var n := FragmentLength(off, |rec|);
      assert len + HEADER + n - (off + HEADER + n) == len - off;
      if n < |rec| {
        EmitEnds(step, len + HEADER + n, off + HEADER + n, rec[n..], false);
      }
    }
  }

  lemma {:induction false} RecordsEnd(step: Step, len: nat, off: nat, records: seq<Bytes>)
    requires AtOffset(len, off)
    ensures AtOffset(len + |Records(step, off, records)|, OffsetAfter(off, records))
    decreases records
  {
    if records != [] {
      EmitEnds(step, len, off, records[0], true);
      RecordsEnd(step, len + |Emit(step, off, records[0], true)|, EndOffset(off, |records[0]|), records[1..]);
    }
  }

  /** One more record, by any writer that resumes at the end of the file. */
  lemma LogGrows(step: Step, records: seq<Bytes>, rec: Bytes)
    ensures Log(step, records + [rec]) == Log(step, records) + Emit(step, |Log(step, records)| % BLOCK, rec, true)
  {
    var off := OffsetAfter(BLOCK, records);
    RecordsSplit(step, BLOCK, records, [rec]);
    assert AtOffset(0, BLOCK);
    RecordsEnd(step, 0, BLOCK, records);
    OffsetsEmitAlike(step, |Log(step, records)|, off, rec, true);
    assert Records(step, off, [rec]) == Emit(step, off, rec, true) + [];
  }

  /** Writing a log record by record, with a new writer at the current length before each of the
      given records. */
  method WriteAll(step: Step, records: seq<Bytes>, resumed: set<nat>) returns (file: Bytes)
    ensures file == Log(step, records)
  {
    var writer := new Writer(step, []);
    for i := 0 to |records|
      invariant writer.Valid() && writer.step == step && fresh(writer) && writer.dest == Log(step, records[..i])
    {
      if i in resumed {
        writer := new Writer(step, writer.dest);
      }
      LogGrows(step, records[..i], records[i]);
      assert records[..i + 1] == records[..i] + [records[i]];
      writer.AddRecord(records[i]);
    }
    assert records[..|records|] == records;
    file := writer.dest;
  }
}
