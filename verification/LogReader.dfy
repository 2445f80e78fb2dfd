/** Reading logs back (db/log_reader.cc), for a reader that starts at offset 0 and checks checksums. */
module LogReader {
  import opened DbFormat
  import opened Coding
  import opened Crc32c
  import opened LogFormat

  // ---- What the reader makes of the rest of a file ----

  const EOF: int := 5
  const BAD_RECORD: int := 6

  /** What is found at the head of a buffered block: a physical record type or EOF or BAD_RECORD,
      the payload, the number of bytes used up, and the sizes of the drops reported. */
  datatype Parsed = Parsed(kind: int, fragment: Bytes, used: nat, reports: seq<nat>)

  /** The same for the rest of the file from an offset of a block on. */
  datatype PhysicalRead = PhysicalRead(kind: int, fragment: Bytes, rest: Bytes, off: nat, reports: seq<nat>)

  function PayloadLength(header: Bytes): nat
    requires |header| >= HEADER
  {
    (header[4] as nat) + 256 * (header[5] as nat)
  }

  predicate ChecksumOk(step: Step, header: Bytes, payload: Bytes)
    requires |header| == HEADER
  {
    FixedWidths();
    Unmask(FixedValue(header[..4])) == Value(step, [header[6]] + payload)
  }

  /** Header, length, type and checksum; lastBlock says that the file ends with this block. */
  function Parse(step: Step, buffer: Bytes, lastBlock: bool): (r: Parsed)
    requires |buffer| >= HEADER
    ensures 0 < r.used <= |buffer|
  {
    var header, length := buffer[..HEADER], PayloadLength(buffer[..HEADER]);
    if HEADER + length > |buffer| then
      if lastBlock then Parsed(EOF, [], |buffer|, []) else Parsed(BAD_RECORD, [], |buffer|, [|buffer|])
    else
      var payload := buffer[HEADER..HEADER + length];
      if header[6] == ZERO_TYPE && length == 0 then Parsed(BAD_RECORD, [], |buffer|, [])
      else if !ChecksumOk(step, header, payload) then Parsed(BAD_RECORD, [], |buffer|, [|buffer|])
      else Parsed(header[6], payload, HEADER + length, [])
  }

  /** ReadPhysicalRecord.  A block without room for a header is left; the file ends when a block
      is cut short. */
  function ReadPhysical(step: Step, rest: Bytes, off: nat): (r: PhysicalRead)
    requires off <= BLOCK
    ensures r.off <= BLOCK && |r.rest| <= |rest| && (r.kind != EOF ==> |r.rest| < |rest|)
    decreases |rest|, off
  {
    var lastBlock := |rest| < BLOCK - off;
    var n := if lastBlock then |rest| else BLOCK - off;
    if n < HEADER then
      if lastBlock then PhysicalRead(EOF, [], [], off, []) else ReadPhysical(step, rest[n..], 0)
    else
      var r := Parse(step, rest[..n], lastBlock);
      PhysicalRead(r.kind, r.fragment, rest[r.used..], off + r.used, r.reports)
  }

  /** Between physical records: a finished record, or how much of one has been read. */
  datatype Assembly = Assembly(record: Option<Bytes>, inFragment: bool, scratch: Bytes, reports: seq<nat>)

  /** What ReadRecord does with one physical record. */
  function Take(kind: int, fragment: Bytes, inFragment: bool, scratch: Bytes): Assembly {
    var unfinished := if inFragment && scratch != [] then [|scratch|] else [];
    if kind == FULL_TYPE then Assembly(Some(fragment), false, [], unfinished)
    else if kind == FIRST_TYPE then Assembly(None, true, fragment, unfinished)
    else if kind == MIDDLE_TYPE && inFragment then Assembly(None, true, scratch + fragment, [])
    else if kind == LAST_TYPE && inFragment then Assembly(Some(scratch + fragment), false, [], [])
    else if kind == BAD_RECORD then Assembly(None, false, [], if inFragment then [|scratch|] else [])
    else if kind == MIDDLE_TYPE || kind == LAST_TYPE then Assembly(None, false, [], [|fragment|])
    else Assembly(None, false, [], [|fragment| + if inFragment then |scratch| else 0])
  }

  datatype RecordRead = RecordRead(record: Option<Bytes>, rest: Bytes, off: nat, reports: seq<nat>) {
    /** Behind earlier reports. */
    function Reporting(earlier: seq<nat>): (r: RecordRead)
      ensures earlier == [] ==> r == this
    {
      assert [] + reports == reports;
      this.(reports := earlier + reports)
    }
  }

  /** ReadRecord, inside a fragmented record of which scratch has been read, or not. */
  function ReadRecord(step: Step, rest: Bytes, off: nat, inFragment: bool, scratch: Bytes): (r: RecordRead)
    requires off <= BLOCK
    ensures r.off <= BLOCK && |r.rest| <= |rest| && (r.record.Some? ==> |r.rest| < |rest|)
    decreases |rest|
  {
    var r := ReadPhysical(step, rest, off);
    if r.kind == EOF then RecordRead(None, r.rest, r.off, r.reports)
    else
      var a := Take(r.kind, r.fragment, inFragment, scratch);
      if a.record.Some? then RecordRead(a.record, r.rest, r.off, r.reports + a.reports)
      else ReadRecord(step, r.rest, r.off, a.inFragment, a.scratch).Reporting(r.reports + a.reports)
  }

  lemma ReportsInTurn(a: seq<nat>, b: seq<nat>, c: seq<nat>, r: RecordRead)
    ensures r.Reporting(b + c).Reporting(a) == r.Reporting(a + b + c)
  {
    assert a + ((b + c) + r.reports) == (a + b + c) + r.reports;
  }

  /** One physical record of ReadRecord, behind earlier reports. */
  lemma OneTurn(step: Step, rest: Bytes, off: nat, inFragment: bool, scratch: Bytes, earlier: seq<nat>)
    requires off <= BLOCK
    ensures var r := ReadPhysical(step, rest, off);
            var a := Take(r.kind, r.fragment, inFragment, scratch);
            ReadRecord(step, rest, off, inFragment, scratch).Reporting(earlier) ==
            if r.kind == EOF then RecordRead(None, r.rest, r.off, earlier + r.reports)
            else if a.record.Some? then RecordRead(a.record, r.rest, r.off, earlier + r.reports + a.reports)
            else ReadRecord(step, r.rest, r.off, a.inFragment, a.scratch).Reporting(earlier + r.reports + a.reports)
  {
    var r := ReadPhysical(step, rest, off);
    var a := Take(r.kind, r.fragment, inFragment, scratch);
    if r.kind != EOF {
      if a.record.Some? {
        assert earlier + (r.reports + a.reports) == earlier + r.reports + a.reports;
      } else {
        ReportsInTurn(earlier, r.reports, a.reports, ReadRecord(step, r.rest, r.off, a.inFragment, a.scratch));
      }
    }
  }

  // ---- The reader ----

  class Reader {
    const step: Step
    const file: Bytes
    var filePos: nat
    var buffer: Bytes
    var eof: bool
    var corruptions: seq<nat>
    ghost var off: nat

    /** The buffer holds the rest of a block; eof says that the last block read was short. */
    ghost predicate Valid()
      reads this
    {
      && filePos <= |file|
      && (if eof then filePos == |file| && off + |buffer| < BLOCK else off + |buffer| == BLOCK)
    }

    /** The bytes not yet consumed. */
    ghost function Rest(): Bytes
      requires filePos <= |file|
      reads this
    {
      buffer + file[filePos..]
    }

    constructor (step: Step, file: Bytes)
      ensures Valid() && Rest() == file && off == BLOCK && corruptions == [] && this.step == step && this.file == file
    {
      this.step, this.file := step, file;
      filePos, buffer, eof, corruptions, off := 0, [], false, [], BLOCK;
    }

    /** Drops what is left of the block and reads the next one; a short block is the last. */
    method ReadBlock()
      requires Valid() && !eof
      modifies this
      ensures Valid() && off == 0 && Rest() == old(Rest())[|old(buffer)|..] && corruptions == old(corruptions)
      ensures eof || filePos > old(filePos)
    {
      var n := if |file| - filePos < BLOCK then |file| - filePos else BLOCK;
      buffer := file[filePos..filePos + n];
      filePos := filePos + n;
      eof := n < BLOCK;
      off := 0;
    }

    /** Reads blocks until a header is buffered; returns whether there is one. */
    method FillBuffer() returns (more: bool)
      requires Valid()
      modifies this
      ensures Valid() && corruptions == old(corruptions)
      ensures ReadPhysical(step, Rest(), off) == ReadPhysical(step, old(Rest()), old(off))
      ensures more == (|buffer| >= HEADER) && (!more ==> eof)
    {
      while |buffer| < HEADER && !eof
        invariant Valid() && corruptions == old(corruptions)
        invariant ReadPhysical(step, Rest(), off) == ReadPhysical(step, old(Rest()), old(off))
        decreases !eof, |file| - filePos
      {
        ReadBlock();
      }
      more := |buffer| >= HEADER;
    }

    /** The buffered block is what ReadPhysical looks at. */
    lemma BufferIsBlock()
      requires Valid() && |buffer| >= HEADER
      ensures var r := Parse(step, buffer, eof);
        ReadPhysical(step, Rest(), off)
        == PhysicalRead(r.kind, r.fragment, buffer[r.used..] + file[filePos..], off + r.used, r.reports)
    {
      assert Rest()[..|buffer|] == buffer;
      var r := Parse(step, buffer, eof);
      assert Rest()[r.used..] == buffer[r.used..] + file[filePos..];
    }

    /** The second half of ReadPhysicalRecord: header, length, type and checksum. */
    method ParseBuffer() returns (kind: int, fragment: Bytes)
      requires Valid() && |buffer| >= HEADER
      modifies this
      ensures Valid() && filePos == old(filePos)
      ensures var r := Parse(step, old(buffer), old(eof));
        && kind == r.kind && fragment == r.fragment && corruptions == old(corruptions) + r.reports
        && buffer == old(buffer)[r.used..] && off == old(off) + r.used
    {
      var header, length := buffer[..HEADER], PayloadLength(buffer[..HEADER]);
      var dropSize := |buffer|;
      if HEADER + length > |buffer| {
        Drop(|buffer|);
        if !eof {
          corruptions := corruptions + [dropSize];
          return BAD_RECORD, [];
        }
        return EOF, [];
      }
      var payload := buffer[HEADER..HEADER + length];
      if header[6] == ZERO_TYPE && length == 0 {
        Drop(|buffer|);
        return BAD_RECORD, [];
      }
      if !ChecksumOk(step, header, payload) {
        Drop(|buffer|);
        corruptions := corruptions + [dropSize];
        return BAD_RECORD, [];
      }
      Drop(HEADER + length);
      return header[6], payload;
    }

    /** buffer_.remove_prefix and buffer_.clear. */
    method Drop(n: nat)
      requires Valid() && n <= |buffer|
      modifies this`buffer, this`off
      ensures Valid() && buffer == old(buffer)[n..] && off == old(off) + n
    {
      buffer, off := buffer[n..], off + n;
    }

    method ReadPhysicalRecord() returns (kind: int, fragment: Bytes)
      requires Valid()
      modifies this
      ensures Valid()
      ensures var r := ReadPhysical(step, old(Rest()), old(off));
        kind == r.kind && fragment == r.fragment && Rest() == r.rest && off == r.off && corruptions == old(corruptions) + r.reports
    {
      var more := FillBuffer();
      if !more {
        assert ReadPhysical(step, Rest(), off) == PhysicalRead(EOF, [], [], off, []);
        buffer := [];
        return EOF, [];
      }
      BufferIsBlock();
      kind, fragment := ParseBuffer();
    }

    /** The next record of the file, if there is one. */
    method ReadNext() returns (record: Option<Bytes>)
      requires Valid()
      modifies this
      ensures Valid()
      ensures var r := ReadRecord(step, old(Rest()), old(off), false, []);
        record == r.record && Rest() == r.rest && off == r.off && corruptions == old(corruptions) + r.reports
    {
      var inFragment, scratch: Bytes := false, [];
      ghost var whole := ReadRecord(step, Rest(), off, false, []).Reporting(corruptions);
      while true
        invariant Valid()
        invariant ReadRecord(step, Rest(), off, inFragment, scratch).Reporting(corruptions) == whole
        decreases |Rest()|
      {
        OneTurn(step, Rest(), off, inFragment, scratch, corruptions);
        var kind, fragment := ReadPhysicalRecord();
        if kind == EOF {
          return None;
        }
        var a := Take(kind, fragment, inFragment, scratch);
        corruptions := corruptions + a.reports;
        if a.record.Some? {
          return a.record;
        }
        inFragment, scratch := a.inFragment, a.scratch;
      }
    }
  }

  // ---- Reading what was written ----

  lemma HeaderParses(step: Step, t: Byte, payload: Bytes)
    requires |payload| <= 0xffff
    ensures var header := Physical(step, t, payload)[..HEADER];
      header[6] == t && PayloadLength(header) == |payload| && ChecksumOk(step, header, payload)
  {
    var crc := Mask(Extend(step, Value(step, [t]), payload));
    var bytes := Physical(step, t, payload);
    assert bytes[..HEADER] == PutFixed32(crc) + [|payload| % 256, |payload| / 256, t];
    assert bytes[..HEADER][..4] == PutFixed32(crc);
    FixedWidths();
    FixedRoundTrip(crc, 4);
    UnmaskMask(Extend(step, Value(step, [t]), payload));
    ExtendIsValue(step, [t], payload);
  }

  /** A physical record that is wholly in its block parses. */
  lemma PhysicalParses(step: Step, t: Byte, payload: Bytes, behind: Bytes, lastBlock: bool)
    requires |payload| <= 0xffff && t != ZERO_TYPE
    ensures Parse(step, Physical(step, t, payload) + behind, lastBlock) == Parsed(t, payload, HEADER + |payload|, [])
  {
    var bytes := Physical(step, t, payload);
    HeaderParses(step, t, payload);
    assert (bytes + behind)[..HEADER] == bytes[..HEADER];
    assert (bytes + behind)[HEADER..HEADER + |payload|] == bytes[HEADER..] == payload;
  }

  lemma PhysicalReads(step: Step, off: nat, t: Byte, payload: Bytes, more: Bytes)
    requires |payload| <= 0xffff && t != ZERO_TYPE && off + HEADER + |payload| <= BLOCK
    ensures ReadPhysical(step, Physical(step, t, payload) + more, off)
         == PhysicalRead(t, payload, more, off + HEADER + |payload|, [])
  {
    var bytes := Physical(step, t, payload);
    var rest := bytes + more;
    var lastBlock := |rest| < BLOCK - off;
    var n := if lastBlock then |rest| else BLOCK - off;
    PhysicalParses(step, t, payload, more[..n - |bytes|], lastBlock);
    assert rest[..n] == bytes + more[..n - |bytes|];
    assert rest[|bytes|..] == more;
  }

  /** A physical record that is cut off reads as the end of the file. */
  lemma PhysicalCutOff(step: Step, off: nat, t: Byte, payload: Bytes, rest: Bytes)
    requires |payload| <= 0xffff && off + HEADER + |payload| <= BLOCK
    requires rest < Physical(step, t, payload)
    ensures ReadPhysical(step, rest, off).kind == EOF && ReadPhysical(step, rest, off).reports == []
  {
    if |rest| >= HEADER {
      HeaderParses(step, t, payload);
      assert rest[..|rest|] == rest && rest[..HEADER] == Physical(step, t, payload)[..HEADER];
    }
  }

  lemma SkipsTrailer(step: Step, off: nat, more: Bytes, inFragment: bool, scratch: Bytes)
    requires off <= BLOCK && BLOCK - off < HEADER
    ensures ReadRecord(step, Zeros(BLOCK - off) + more, off, inFragment, scratch) == ReadRecord(step, more, 0, inFragment, scratch)
  {
    assert (Zeros(BLOCK - off) + more)[BLOCK - off..] == more;
  }

  /** ReadRecord behind a physical record that made this of the record being put together. */
  function Onward(step: Step, rest: Bytes, off: nat, a: Assembly): RecordRead
    requires off <= BLOCK
  {
    if a.record.Some? then RecordRead(a.record, rest, off, a.reports)
    else ReadRecord(step, rest, off, a.inFragment, a.scratch).Reporting(a.reports)
  }

  /** ReadRecord on a physical record that has been read without a report. */
  lemma RecordStep(step: Step, rest: Bytes, off: nat, r: PhysicalRead, inFragment: bool, scratch: Bytes)
    requires off <= BLOCK && ReadPhysical(step, rest, off) == r && r.kind != EOF && r.reports == [] && r.off <= BLOCK
    ensures ReadRecord(step, rest, off, inFragment, scratch) == Onward(step, r.rest, r.off, Take(r.kind, r.fragment, inFragment, scratch))
  {
    var a := Take(r.kind, r.fragment, inFragment, scratch);
    OneTurn(step, rest, off, inFragment, scratch, []);
    assert [] + [] + a.reports == a.reports;
  }

  /** What a fragment does to the record being put together. */
  lemma FragmentTaken(begin: bool, end: bool, fragment: Bytes, scratch: Bytes)
    requires begin ==> scratch == []
    ensures var a := Take(FragmentType(begin, end), fragment, !begin, scratch);
      if end then a == Assembly(Some(scratch + fragment), false, [], []) else a == Assembly(None, true, scratch + fragment, [])
  {
    assert [] + fragment == fragment;
  }

  lemma FragmentStep(step: Step, off: nat, begin: bool, end: bool, fragment: Bytes, rest: Bytes, more: Bytes, scratch: Bytes)
    requires off + HEADER + |fragment| <= BLOCK && (begin ==> scratch == [])
    requires rest == Physical(step, FragmentType(begin, end), fragment) + more
    ensures ReadRecord(step, rest, off, !begin, scratch) ==
            Onward(step, more, off + HEADER + |fragment|,
                   if end then Assembly(Some(scratch + fragment), false, [], []) else Assembly(None, true, scratch + fragment, []))
  {
    var t := FragmentType(begin, end);
    PhysicalReads(step, off, t, fragment, more);
    FragmentTaken(begin, end, fragment, scratch);
    RecordStep(step, rest, off, PhysicalRead(t, fragment, more, off + HEADER + |fragment|, []), !begin, scratch);
  }

  lemma NoReports(r: RecordRead)
    ensures r.Reporting([]) == r
  {
  }

  /** What reading a fragment does to the record being put together. */
  lemma FragmentReads(step: Step, off: nat, begin: bool, end: bool, fragment: Bytes, rest: Bytes, more: Bytes, scratch: Bytes)
    requires off + HEADER + |fragment| <= BLOCK && (begin ==> scratch == [])
    requires rest == Physical(step, FragmentType(begin, end), fragment) + more
    ensures end ==>
      ReadRecord(step, rest, off, !begin, scratch) == RecordRead(Some(scratch + fragment), more, off + HEADER + |fragment|, [])
    ensures !end ==>
      ReadRecord(step, rest, off, !begin, scratch) == ReadRecord(step, more, off + HEADER + |fragment|, true, scratch + fragment)
  {
    FragmentStep(step, off, begin, end, fragment, rest, more, scratch);
    if !end {
      NoReports(ReadRecord(step, more, off + HEADER + |fragment|, true, scratch + fragment));
    }
  }

  lemma EmitTrailer(step: Step, off: nat, rec: Bytes, begin: bool)
    requires off <= BLOCK && BLOCK - off < HEADER
    ensures Emit(step, off, rec, begin) == Zeros(BLOCK - off) + Emit(step, 0, rec, begin)
  {
  }

  lemma EmitFragments(step: Step, off: nat, rec: Bytes, begin: bool, n: nat)
    requires off + HEADER <= BLOCK && n == FragmentLength(off, |rec|)
    ensures Emit(step, off, rec, begin) == Physical(step, FragmentType(begin, n == |rec|), rec[..n])
                                           + if n == |rec| then [] else Emit(step, off + HEADER + n, rec[n..], false)
  {
  }

  lemma TextBehindTrailer(step: Step, off: nat, rec: Bytes, begin: bool, more: Bytes)
    requires off <= BLOCK && BLOCK - off < HEADER
    ensures Emit(step, off, rec, begin) + more == Zeros(BLOCK - off) + (Emit(step, 0, rec, begin) + more)
  {
    EmitTrailer(step, off, rec, begin);
  }

  /** What is left of a record behind its next fragment. */
  ghost function Remainder(step: Step, off: nat, rec: Bytes, n: nat): Bytes
    requires off + HEADER + n <= BLOCK && n <= |rec|
  {
    if n == |rec| then [] else Emit(step, off + HEADER + n, rec[n..], false)
  }

  lemma TextBehindFragment(step: Step, off: nat, rec: Bytes, begin: bool, more: Bytes, n: nat)
    requires off + HEADER <= BLOCK && n == FragmentLength(off, |rec|)
    ensures Emit(step, off, rec, begin) + more
         == Physical(step, FragmentType(begin, n == |rec|), rec[..n]) + (Remainder(step, off, rec, n) + more)
  {
    EmitFragments(step, off, rec, begin, n);
  }

  lemma Rejoin(scratch: Bytes, rec: Bytes, n: nat)
    requires n <= |rec|
    ensures scratch + rec[..n] + rec[n..] == scratch + rec
    ensures n == |rec| ==> rec[..n] == rec
  {
  }

  /** The next fragment is read, and reading goes on behind it or the record is complete. */
  lemma FragmentOfRecord(step: Step, off: nat, rec: Bytes, begin: bool, n: nat, rest: Bytes, more: Bytes, scratch: Bytes)
    returns (behind: Bytes)
    requires off + HEADER <= BLOCK && n == FragmentLength(off, |rec|) && (begin ==> scratch == [])
    requires rest == Emit(step, off, rec, begin) + more
    ensures n < |rec| ==>
              && behind == Emit(step, off + HEADER + n, rec[n..], false) + more
              && ReadRecord(step, rest, off, !begin, scratch) == ReadRecord(step, behind, off + HEADER + n, true, scratch + rec[..n])
    ensures n == |rec| ==> ReadRecord(step, rest, off, !begin, scratch) == RecordRead(Some(scratch + rec), more, off + HEADER + n, [])
  {
    behind := Remainder(step, off, rec, n) + more;
    TextBehindFragment(step, off, rec, begin, more, n);
    FragmentReads(step, off, begin, n == |rec|, rec[..n], rest, behind, scratch);
    Rejoin(scratch, rec, n);
    assert [] + more == more;
  }

  lemma TrailerOfRecord(step: Step, off: nat, rec: Bytes, begin: bool, rest: Bytes, more: Bytes, scratch: Bytes)
    returns (behind: Bytes)
    requires off <= BLOCK && BLOCK - off < HEADER && rest == Emit(step, off, rec, begin) + more
    ensures behind == Emit(step, 0, rec, begin) + more
    ensures ReadRecord(step, rest, off, !begin, scratch) == ReadRecord(step, behind, 0, !begin, scratch)
  {
    behind := Emit(step, 0, rec, begin) + more;
    TextBehindTrailer(step, off, rec, begin, more);
    SkipsTrailer(step, off, behind, !begin, scratch);
  }

  lemma EndOffsetSteps(off: nat, len: nat)
    requires off <= BLOCK
    ensures BLOCK - off < HEADER ==> EndOffset(off, len) == EndOffset(0, len)
    ensures BLOCK - off >= HEADER ==>
              var n := FragmentLength(off, len);
              EndOffset(off, len) == if n == len then off + HEADER + n else EndOffset(off + HEADER + n, len - n)
  {
  }

  lemma Joined(scratch: Bytes, rec: Bytes, n: nat, r: RecordRead, more: Bytes, end: nat)
    requires n <= |rec| && r == RecordRead(Some(scratch + rec[..n] + rec[n..]), more, end, [])
    ensures r == RecordRead(Some(scratch + rec), more, end, [])
  {
    Rejoin(scratch, rec, n);
  }

  /** The bytes of a record read back as that record, with no report, whatever follows. */
  lemma {:induction false} EmittedReads(step: Step, off: nat, rec: Bytes, begin: bool, rest: Bytes, more: Bytes, scratch: Bytes)
    requires off <= BLOCK && (begin ==> scratch == []) && rest == Emit(step, off, rec, begin) + more
    ensures ReadRecord(step, rest, off, !begin, scratch) == RecordRead(Some(scratch + rec), more, EndOffset(off, |rec|), [])
    decreases |rec|, Detour(off)
  {
    EndOffsetSteps(off, |rec|);
    if BLOCK - off < HEADER {
      var behind := TrailerOfRecord(step, off, rec, begin, rest, more, scratch);
      EmittedReads(step, 0, rec, begin, behind, more, scratch);
    } else {
      var n := FragmentLength(off, |rec|);
      var behind := FragmentOfRecord(step, off, rec, begin, n, rest, more, scratch);
      if n < |rec| {
        EmittedReads(step, off + HEADER + n, rec[n..], false, behind, more, scratch + rec[..n]);
        Joined(scratch, rec, n, ReadRecord(step, rest, off, !begin, scratch), more, EndOffset(off, |rec|));
      }
    }
  }

  /** A prefix of a + b is a prefix of a or goes on into b. */
  lemma PrefixOfSum(rest: Bytes, a: Bytes, b: Bytes)
    requires rest < a + b
    ensures rest < a || (a <= rest && rest == a + rest[|a|..] && rest[|a|..] < b)
  {
    if |rest| < |a| {
      assert rest == (a + b)[..|rest|] == a[..|rest|];
    } else {
      assert a == (a + b)[..|a|] == rest[..|a|];
      assert rest[|a|..] == (a + b)[|a|..|rest|] == b[..|rest| - |a|];
    }
  }

  lemma CutOffInTrailer(step: Step, off: nat, rest: Bytes, inFragment: bool, scratch: Bytes)
    requires off <= BLOCK && BLOCK - off < HEADER && |rest| < BLOCK - off
    ensures ReadRecord(step, rest, off, inFragment, scratch).record.None? && ReadRecord(step, rest, off, inFragment, scratch).reports == []
  {
  }

  lemma CutOffInFragment(step: Step, off: nat, t: Byte, payload: Bytes, rest: Bytes, inFragment: bool, scratch: Bytes)
    requires |payload| <= 0xffff && off + HEADER + |payload| <= BLOCK && rest < Physical(step, t, payload)
    ensures ReadRecord(step, rest, off, inFragment, scratch).record.None? && ReadRecord(step, rest, off, inFragment, scratch).reports == []
  {
    PhysicalCutOff(step, off, t, payload, rest);
  }

  ghost predicate EndsQuietly(step: Step, rest: Bytes, off: nat, inFragment: bool, scratch: Bytes)
    requires off <= BLOCK
  {
    var r := ReadRecord(step, rest, off, inFragment, scratch);
    r.record.None? && r.reports == []
  }

  /** Cut off in or behind the trailer of a block. */
  lemma TrailerCutOff(step: Step, off: nat, rec: Bytes, begin: bool, rest: Bytes, scratch: Bytes) returns (more: Bytes)
    requires off <= BLOCK && BLOCK - off < HEADER && rest < Emit(step, off, rec, begin)
    ensures |rest| < BLOCK - off ==> EndsQuietly(step, rest, off, !begin, scratch)
    ensures |rest| >= BLOCK - off ==>
              && more < Emit(step, 0, rec, begin)
              && ReadRecord(step, rest, off, !begin, scratch) == ReadRecord(step, more, 0, !begin, scratch)
  {
    EmitTrailer(step, off, rec, begin);
    PrefixOfSum(rest, Zeros(BLOCK - off), Emit(step, 0, rec, begin));
    more := [];
    if |rest| < BLOCK - off {
      CutOffInTrailer(step, off, rest, !begin, scratch);
    } else {
      more := rest[BLOCK - off..];
      SkipsTrailer(step, off, more, !begin, scratch);
    }
  }

  /** Cut off in or behind the next fragment. */
  lemma FragmentCutOff(step: Step, off: nat, rec: Bytes, begin: bool, n: nat, rest: Bytes, scratch: Bytes) returns (more: Bytes)
    requires off + HEADER <= BLOCK && n == FragmentLength(off, |rec|) && (begin ==> scratch == [])
    requires rest < Emit(step, off, rec, begin)
    ensures |rest| < HEADER + n ==> EndsQuietly(step, rest, off, !begin, scratch)
    ensures |rest| >= HEADER + n ==>
              && n < |rec| && more < Emit(step, off + HEADER + n, rec[n..], false)
              && ReadRecord(step, rest, off, !begin, scratch) == ReadRecord(step, more, off + HEADER + n, true, scratch + rec[..n])
  {
    var t := FragmentType(begin, n == |rec|);
    more := [];
    if |rest| < HEADER + n {
      CutInFragment(step, off, rec, begin, n, rest);
      CutOffInFragment(step, off, t, rec[..n], rest, !begin, scratch);
    } else {
      more := CutBehindFragment(step, off, rec, begin, n, rest);
      FragmentReads(step, off, begin, false, rec[..n], rest, more, scratch);
    }
  }

  lemma CutInFragment(step: Step, off: nat, rec: Bytes, begin: bool, n: nat, rest: Bytes)
    requires off + HEADER <= BLOCK && n == FragmentLength(off, |rec|)
    requires rest < Emit(step, off, rec, begin) && |rest| < HEADER + n
    ensures rest < Physical(step, FragmentType(begin, n == |rec|), rec[..n])
  {
    EmitFragments(step, off, rec, begin, n);
    PrefixOfSum(rest, Physical(step, FragmentType(begin, n == |rec|), rec[..n]), Remainder(step, off, rec, n));
  }

  lemma CutBehindFragment(step: Step, off: nat, rec: Bytes, begin: bool, n: nat, rest: Bytes) returns (more: Bytes)
    requires off + HEADER <= BLOCK && n == FragmentLength(off, |rec|)
    requires rest < Emit(step, off, rec, begin) && |rest| >= HEADER + n
    ensures n < |rec| && more < Emit(step, off + HEADER + n, rec[n..], false)
    ensures rest == Physical(step, FragmentType(begin, false), rec[..n]) + more
  {
    EmitFragments(step, off, rec, begin, n);
    PrefixOfSum(rest, Physical(step, FragmentType(begin, n == |rec|), rec[..n]), Remainder(step, off, rec, n));
    more := rest[HEADER + n..];
  }

  /** The bytes of a record, cut off anywhere, read as the end of the file with no report. */
  lemma {:induction false} CutOffReads(step: Step, off: nat, rec: Bytes, begin: bool, rest: Bytes, scratch: Bytes)
    requires off <= BLOCK && (begin ==> scratch == []) && rest < Emit(step, off, rec, begin)
    ensures EndsQuietly(step, rest, off, !begin, scratch)
    decreases |rec|, Detour(off)
  {
    if BLOCK - off < HEADER {
      var more := TrailerCutOff(step, off, rec, begin, rest, scratch);
      if |rest| >= BLOCK - off {
        CutOffReads(step, 0, rec, begin, more, scratch);
      }
    } else {
      var n := FragmentLength(off, |rec|);
      var more := FragmentCutOff(step, off, rec, begin, n, rest, scratch);
      if |rest| >= HEADER + n {
        CutOffReads(step, off + HEADER + n, rec[n..], false, more, scratch + rec[..n]);
      }
    }
  }

  // ---- Whole logs ----

  lemma NothingToRead(step: Step, off: nat)
    requires off <= BLOCK
    ensures ReadRecord(step, [], off, false, []).record.None? && ReadRecord(step, [], off, false, []).reports == []
  {
  }

  /** The next record of a log that may have been cut off anywhere: the record if it is wholly
      there, otherwise the end; never a corruption report. */
  lemma NextOfLog(step: Step, off: nat, records: seq<Bytes>, rest: Bytes)
    requires off <= BLOCK && rest <= Records(step, off, records)
    ensures var r := ReadRecord(step, rest, off, false, []);
      && r.reports == []
      && (r.record.None? ==> records == [] || rest < Emit(step, off, records[0], true))
      && (r.record.Some? ==>
            && records != [] && r.record.value == records[0] && r.off == EndOffset(off, |records[0]|)
            && r.rest <= Records(step, r.off, records[1..]) && rest == Emit(step, off, records[0], true) + r.rest)
  {
    if records == [] {
      NothingToRead(step, off);
    } else {
      var out, behind := Emit(step, off, records[0], true), Records(step, EndOffset(off, |records[0]|), records[1..]);
      assert rest == out + behind || rest < out + behind;
      if rest == out + behind {
        EmittedReads(step, off, records[0], true, rest, behind, []);
      } else {
        PrefixOfSum(rest, out, behind);
        if |rest| < |out| {
          CutOffReads(step, off, records[0], true, rest, []);
        } else {
          EmittedReads(step, off, records[0], true, rest, rest[|out|..], []);
        }
      }
      assert [] + records[0] == records[0];
    }
  }

  /** The records rs of a log have been read from the file; rest is left. */
  ghost predicate ReadSoFar(step: Step, file: Bytes, records: seq<Bytes>, n: nat, off: nat, rest: Bytes) {
    && n <= |records| && off == OffsetAfter(BLOCK, records[..n])
    && file == Log(step, records[..n]) + rest
    && rest <= Records(step, off, records[n..])
  }

  lemma NextSlices(records: seq<Bytes>, n: nat)
    requires n < |records|
    ensures records[..n + 1] == records[..n] + [records[n]] && records[n..][1..] == records[n + 1..]
  {
  }

  lemma OneRecord(step: Step, off: nat, rec: Bytes)
    requires off <= BLOCK
    ensures Records(step, off, [rec]) == Emit(step, off, rec, true)
  {
    assert Records(step, off, [rec]) == Emit(step, off, rec, true) + [];
  }

  lemma OneMoreRead(step: Step, file: Bytes, records: seq<Bytes>, n: nat, off: nat, rest: Bytes, more: Bytes)
    requires ReadSoFar(step, file, records, n, off, rest) && n < |records|
    requires rest == Emit(step, off, records[n], true) + more
    requires more <= Records(step, EndOffset(off, |records[n]|), records[n..][1..])
    ensures ReadSoFar(step, file, records, n + 1, EndOffset(off, |records[n]|), more)
  {
    NextSlices(records, n);
    RecordsSplit(step, BLOCK, records[..n], [records[n]]);
    OffsetSplit(BLOCK, records[..n], records[n]);
    OneRecord(step, off, records[n]);
    Associative(Log(step, records[..n]), Emit(step, off, records[n], true), more);
  }

  lemma {:induction false} OffsetSplit(off: nat, a: seq<Bytes>, rec: Bytes)
    requires off <= BLOCK
    ensures OffsetAfter(off, a + [rec]) == EndOffset(OffsetAfter(off, a), |rec|)
    decreases a
  {
    if a == [] {
      assert a + [rec] == [rec];
    } else {
      OffsetSplit(EndOffset(off, |a[0]|), a[1..], rec);
      assert (a + [rec])[1..] == a[1..] + [rec];
    }
  }

  lemma CutShort(step: Step, file: Bytes, records: seq<Bytes>, n: nat, off: nat, rest: Bytes)
    requires ReadSoFar(step, file, records, n, off, rest) && n < |records| && rest < Emit(step, off, records[n], true)
    ensures file < Log(step, records[..n + 1])
  {
    assert records[..n + 1] == records[..n] + [records[n]];
    RecordsSplit(step, BLOCK, records[..n], [records[n]]);
    assert Records(step, off, [records[n]]) == Emit(step, off, records[n], true) + [];
  }

  /** The first n records have come out of the reader, without a report. */
  ghost predicate Reading(reader: Reader, step: Step, file: Bytes, records: seq<Bytes>, n: nat)
    reads reader
  {
    && reader.Valid() && reader.step == step && reader.corruptions == []
    && ReadSoFar(step, file, records, n, reader.off, reader.Rest())
  }

  lemma ReadIsPrefix(step: Step, file: Bytes, records: seq<Bytes>, n: nat, off: nat, rest: Bytes)
    requires ReadSoFar(step, file, records, n, off, rest)
    ensures n <= |records| && Log(step, records[..n]) <= file
  {
  }

  /** rs are exactly the records that are wholly in the file. */
  ghost predicate HoldsJust(step: Step, file: Bytes, records: seq<Bytes>, rs: seq<Bytes>) {
    rs <= records && Log(step, rs) <= file && (|rs| < |records| ==> file < Log(step, records[..|rs| + 1]))
  }

  /** One call of ReadRecord on such a reader. */
  method ReadOne(reader: Reader, ghost step: Step, ghost file: Bytes, ghost records: seq<Bytes>, ghost n: nat)
    returns (record: Option<Bytes>)
    requires Reading(reader, step, file, records, n)
    modifies reader
    ensures reader.corruptions == []
    ensures record.Some? ==> n < |records| && record.value == records[n] && Reading(reader, step, file, records, n + 1)
    ensures record.None? ==> n <= |records| && HoldsJust(step, file, records, records[..n])
  {
    ghost var off, rest := reader.off, reader.Rest();
    ReadIsPrefix(step, file, records, n, off, rest);
    NextOfLog(step, off, records[n..], rest);
    record := reader.ReadNext();
    if record.Some? {
      OneMoreRead(step, file, records, n, off, rest, reader.Rest());
    } else if n < |records| {
      CutShort(step, file, records, n, off, rest);
    }
  }

  lemma NothingReadYet(step: Step, file: Bytes, records: seq<Bytes>)
    requires file <= Log(step, records)
    ensures ReadSoFar(step, file, records, 0, BLOCK, file)
  {
    assert records[..0] == [] && records[0..] == records;
    assert Log(step, []) == [];
  }

  lemma ReadsOn(records: seq<Bytes>, rs: seq<Bytes>, record: Bytes)
    requires |rs| < |records| && rs == records[..|rs|] && record == records[|rs|]
    ensures rs + [record] == records[..|rs + [record]|]
  {
    NextSlices(records, |rs|);
  }

  /** Reading a file from the start until no record is left, as recovery does.  Of a log that was
      cut off anywhere it returns exactly the records that are wholly in the file. */
  method ReadAll(step: Step, file: Bytes, ghost records: seq<Bytes>) returns (rs: seq<Bytes>, corruptions: seq<nat>)
    requires file <= Log(step, records)
    ensures corruptions == [] && HoldsJust(step, file, records, rs)
  {
    var reader := new Reader(step, file);
    rs := [];
    NothingReadYet(step, file, records);
    while true
      invariant fresh(reader) && Reading(reader, step, file, records, |rs|) && rs == records[..|rs|]
      decreases |records| - |rs|
    {
      var record := ReadOne(reader, step, file, records, |rs|);
      if record.None? {
        return rs, reader.corruptions;
      }
      ReadsOn(records, rs, record.value);
      rs := rs + [record.value];
    }
  }
}
