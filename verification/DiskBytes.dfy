/** The write-ahead logs and the MANIFEST as bytes: what recovery reads back from a file that may
    have been cut off, record by record and decoded, is what the protocol says the disk holds
    (db/db_impl.cc RecoverLogFile; db/version_set.cc Recover). */
module DiskBytes {
  import opened DbFormat
  import opened Coding
  import opened Crc32c
  import opened LogFormat
  import R = LogReader
  import W = WriteBatches
  import E = VersionEdits
  import opened InternalKeys
  import opened Versions
  import opened VersionBuilder
  import opened Protocol
  import opened ProtocolTheorems
  import opened Reopening

  // ---- Whole records ----

  lemma LogPrefix(step: Step, records: seq<Bytes>, k: nat)
    requires k <= |records|
    ensures Log(step, records[..k]) <= Log(step, records)
  {
    RecordsSplit(step, BLOCK, records[..k], records[k..]);
    assert records[..k] + records[k..] == records;
  }

  /** A file that holds the first n records wholly gives back at least those. */
  lemma WholeRecordsSurvive(step: Step, file: Bytes, records: seq<Bytes>, n: nat, found: nat)
    requires n <= |records| && found <= |records| && Log(step, records[..n]) <= file
    requires found < |records| ==> file < Log(step, records[..found + 1])
    ensures found >= n
  {
    if found < n {
      assert records[..n][..found + 1] == records[..found + 1];
      LogPrefix(step, records[..n], found + 1);
    }
  }

  // ---- Logs ----

  /** A write group as it is logged: its sequence number and its operations. */
  datatype LogRecord = LogRecord(first: nat, ops: seq<W.KeyOp>)

  predicate Loggable(r: LogRecord) {
    r.first < WORD64 && |r.ops| < WORD32 && W.AllFit(r.ops)
  }

  function LogBytes(r: LogRecord): Bytes {
    W.Encode(r.first, r.ops)
  }

  function AllLogBytes(rs: seq<LogRecord>): (bs: seq<Bytes>)
    ensures |bs| == |rs|
  {
    seq(|rs|, i requires 0 <= i < |rs| => LogBytes(rs[i]))
  }

  /** The group the protocol speaks of. */
  function BatchOf(r: LogRecord): Batch {
    Batch(r.first, seq(|r.ops|, i requires 0 <= i < |r.ops| => (Rank(r.ops[i].0), r.ops[i].1)))
  }

  function BatchesOf(rs: seq<LogRecord>): seq<Batch> {
    seq(|rs|, i requires 0 <= i < |rs| => BatchOf(rs[i]))
  }

  ghost predicate AllLoggable(rs: seq<LogRecord>) {
    forall i {:trigger rs[i]} :: 0 <= i < |rs| ==> Loggable(rs[i])
  }

  /** The first n records of the log, and not the next one, are wholly in the file. */
  ghost predicate HoldsWholly(step: Step, file: Bytes, records: seq<Bytes>, n: nat) {
    && n <= |records| && Log(step, records[..n]) <= file
    && (n < |records| ==> file < Log(step, records[..n + 1]))
  }

  /** The number of records in a file is determined. */
  lemma HoldsOneNumber(step: Step, file: Bytes, records: seq<Bytes>, n: nat, m: nat)
    requires HoldsWholly(step, file, records, n) && HoldsWholly(step, file, records, m)
    ensures n == m
  {
    WholeRecordsSurvive(step, file, records, n, m);
    WholeRecordsSurvive(step, file, records, m, n);
  }

  /** SetContents and InsertInto on one record: too short, malformed, or a batch. */
  method DecodeLogRecord(bytes: Bytes, ghost r: LogRecord) returns (ok: bool, found: LogRecord)
    requires bytes == LogBytes(r) && Loggable(r)
    ensures ok && found == r
  {
    W.EncodeRoundTrip(r.first, r.ops);
    var it := W.IterationOf(bytes);
    ok := |bytes| >= W.HEADER && it.status == W.Ok;
    found := LogRecord(W.SequenceOf(bytes), it.ops);
  }

  /** The reading part of RecoverLogFile: every record that is wholly in the file, decoded as a
      batch.  Neither the log reader nor the batches report a corruption. */
  method ReadLog(step: Step, file: Bytes, ghost written: seq<LogRecord>) returns (found: seq<LogRecord>, corruptions: seq<nat>)
    requires AllLoggable(written) && file <= Log(step, AllLogBytes(written))
    ensures corruptions == [] && found <= written && HoldsWholly(step, file, AllLogBytes(written), |found|)
  {
    var rs;
    rs, corruptions := R.ReadAll(step, file, AllLogBytes(written));
    assert AllLogBytes(written)[..|rs|] == rs;
    found := DecodeLog(rs, written);
  }

  lemma OneMore<T>(found: seq<T>, written: seq<T>)
    requires found <= written && |found| < |written|
    ensures found + [written[|found|]] <= written
  {
  }

  lemma RecordAt(rs: seq<Bytes>, written: seq<LogRecord>, i: nat)
    requires AllLoggable(written) && rs <= AllLogBytes(written) && i < |rs|
    ensures i < |written| && rs[i] == LogBytes(written[i]) && Loggable(written[i])
  {
  }

  method DecodeLog(rs: seq<Bytes>, ghost written: seq<LogRecord>) returns (found: seq<LogRecord>)
    requires AllLoggable(written) && rs <= AllLogBytes(written)
    ensures |found| == |rs| && found <= written
  {
    var ok, i := true, 0;
    found := [];
    while i < |rs| && ok
      invariant 0 <= i <= |rs| && ok && |found| == i && found <= written
    {
      RecordAt(rs, written, i);
      OneMore(found, written);
      var r;
      ok, r := DecodeLogRecord(rs[i], written[i]);
      found := found + [r];
      i := i + 1;
    }
  }

  /** The log file named n of the protocol's disk, as bytes: its whole records are the groups the
      disk is said to hold. */
  ghost predicate LogStandsFor(step: Step, file: Bytes, written: seq<LogRecord>, log: seq<Batch>) {
    && AllLoggable(written) && file <= Log(step, AllLogBytes(written))
    && |log| <= |written| && log == BatchesOf(written[..|log|])
    && HoldsWholly(step, file, AllLogBytes(written), |log|)
  }

  /** What recovery reads from the bytes of a log is what the protocol's disk holds. */
  method ReadDiskLog(step: Step, file: Bytes, ghost written: seq<LogRecord>, ghost log: seq<Batch>) returns (batches: seq<Batch>)
    requires LogStandsFor(step, file, written, log)
    ensures batches == log
  {
    var found, corruptions := ReadLog(step, file, written);
    HoldsOneNumber(step, file, AllLogBytes(written), |found|, |log|);
    batches := BatchesOf(found);
  }

  /** A record being appended: until its last byte is in the file the disk holds the old groups,
      from then on the new one too. */
  lemma AppendIsAtomic(step: Step, file: Bytes, written: seq<LogRecord>, r: LogRecord, n: nat)
    requires AllLoggable(written) && Loggable(r)
    requires Log(step, AllLogBytes(written)) <= file <= Log(step, AllLogBytes(written + [r]))
    requires n == if file == Log(step, AllLogBytes(written + [r])) then |written| + 1 else |written|
    ensures LogStandsFor(step, file, written + [r], BatchesOf((written + [r])[..n]))
    ensures AllLogBytes(written + [r]) == AllLogBytes(written) + [LogBytes(r)]
  {
    var more := written + [r];
    assert AllLogBytes(more) == AllLogBytes(written) + [LogBytes(r)];
    assert AllLogBytes(more)[..|written|] == AllLogBytes(written);
    assert AllLogBytes(more)[..|more|] == AllLogBytes(more);
    assert |BatchesOf(more[..n])| == n;
  }

  // ---- The MANIFEST ----

  predicate EditFitsBytes(e: E.VersionEdit) {
    E.AllFit(E.FieldsOf(e))
  }

  ghost predicate AllEncodable(es: seq<E.VersionEdit>) {
    forall i {:trigger es[i]} :: 0 <= i < |es| ==> EditFitsBytes(es[i]) && E.StrictlySorted(es[i].deleted)
  }

  function AllEditBytes(es: seq<E.VersionEdit>): (bs: seq<Bytes>)
    ensures |bs| == |es|
  {
    seq(|es|, i requires 0 <= i < |es| => E.FieldsBytes(E.FieldsOf(es[i])))
  }

  /** An encoded internal key in the model's order. */
  function KeyOfBytes(b: Bytes): InternalKey {
    if |b| < 8 then InternalKey(0.0, 0) else InternalKey(Rank(ExtractUserKey(b)), TagOf(b))
  }

  /** The file an edit speaks of; contents says what each table file holds. */
  function FileOf(g: E.NewFile, contents: map<nat, seq<Entry>>): File {
    File(g.number, g.size, KeyOfBytes(g.smallest), KeyOfBytes(g.largest), if g.number in contents then contents[g.number] else [])
  }

  /** The edit the protocol speaks of. */
  function EditOf(e: E.VersionEdit, contents: map<nat, seq<Entry>>): Edit {
    Edit(e.logNumber, e.nextFile, e.lastSequence,
         set i | 0 <= i < |e.deleted| :: (e.deleted[i].0 as int, e.deleted[i].1),
         seq(|e.added|, i requires 0 <= i < |e.added| => (e.added[i].level as int, FileOf(e.added[i], contents))))
  }

  function EditsOf(es: seq<E.VersionEdit>, contents: map<nat, seq<Entry>>): (r: seq<Edit>)
    ensures |r| == |es|
  {
    seq(|es|, i requires 0 <= i < |es| => EditOf(es[i], contents))
  }

  method DecodeEdit(bytes: Bytes, ghost e: E.VersionEdit) returns (ok: bool, found: E.VersionEdit)
    requires bytes == E.FieldsBytes(E.FieldsOf(e)) && EditFitsBytes(e) && E.StrictlySorted(e.deleted)
    ensures ok && found == e
  {
    E.EditRoundTrip(e);
    var msg;
    found, msg := E.DecodeFrom(bytes);
    ok := msg.None?;
  }

  lemma EditAt(rs: seq<Bytes>, written: seq<E.VersionEdit>, i: nat)
    requires AllEncodable(written) && rs <= AllEditBytes(written) && i < |rs|
    ensures i < |written| && rs[i] == E.FieldsBytes(E.FieldsOf(written[i]))
    ensures EditFitsBytes(written[i]) && E.StrictlySorted(written[i].deleted)
  {
  }

  method DecodeEdits(rs: seq<Bytes>, ghost written: seq<E.VersionEdit>) returns (found: seq<E.VersionEdit>)
    requires AllEncodable(written) && rs <= AllEditBytes(written)
    ensures |found| == |rs| && found <= written
  {
    var ok, i := true, 0;
    found := [];
    while i < |rs| && ok
      invariant 0 <= i <= |rs| && ok && |found| == i && found <= written
    {
      EditAt(rs, written, i);
      OneMore(found, written);
      var e;
      ok, e := DecodeEdit(rs[i], written[i]);
      found := found + [e];
      i := i + 1;
    }
  }

  /** The reading part of VersionSet::Recover: the records of a MANIFEST, decoded, are the edits that
      were encoded, as far as they are wholly in the file. */
  method ReadEdits(step: Step, file: Bytes, ghost written: seq<E.VersionEdit>) returns (found: seq<E.VersionEdit>, corruptions: seq<nat>)
    requires AllEncodable(written) && file <= Log(step, AllEditBytes(written))
    ensures corruptions == [] && found <= written && HoldsWholly(step, file, AllEditBytes(written), |found|)
  {
    var rs;
    rs, corruptions := R.ReadAll(step, file, AllEditBytes(written));
    assert AllEditBytes(written)[..|rs|] == rs;
    found := DecodeEdits(rs, written);
  }

  /** The bytes of a MANIFEST whose whole records are the given edits. */
  ghost predicate ManifestStandsFor(step: Step, file: Bytes, written: seq<E.VersionEdit>, contents: map<nat, seq<Entry>>, edits: seq<Edit>) {
    && AllEncodable(written) && file <= Log(step, AllEditBytes(written))
    && |edits| <= |written| && edits == EditsOf(written[..|edits|], contents)
    && HoldsWholly(step, file, AllEditBytes(written), |edits|)
  }

  /** The edits read from the bytes of a MANIFEST. */
  method ReadManifestEdits(step: Step, file: Bytes, contents: map<nat, seq<Entry>>, ghost written: seq<E.VersionEdit>, ghost edits: seq<Edit>)
    returns (r: seq<Edit>)
    requires ManifestStandsFor(step, file, written, contents, edits)
    ensures r == edits
  {
    var found, corruptions := ReadEdits(step, file, written);
    HoldsOneNumber(step, file, AllEditBytes(written), |found|, |edits|);
    r := EditsOf(found, contents);
  }

  lemma CurrentManifest(states: seq<State>, i: nat)
    requires Run(states) && i < |states|
    ensures states[i].disk.current in states[i].disk.manifests && Written(states[i].disk.manifests[states[i].disk.current])
  {
    RunInv(states, i);
  }

  /** In every run, at every time: from the bytes of the current MANIFEST, through the log reader,
      the decoder, one builder and one save, recovery rebuilds the version that its records stand
      for.  ManifestRebuildsVersion says that this is the current version. */
  method RebuildVersion(step: Step, file: Bytes, contents: map<nat, seq<Entry>>, ghost written: seq<E.VersionEdit>,
                        ghost states: seq<State>, ghost i: nat, ghost edits: seq<Edit>)
    returns (ms: ManifestState)
    requires Run(states) && i < |states| && states[i].disk.current in states[i].disk.manifests
    requires edits == states[i].disk.manifests[states[i].disk.current]
    requires ManifestStandsFor(step, file, written, contents, edits)
    ensures ms == ManifestRead(edits) == Replay(edits)
  {
    CurrentManifest(states, i);
    var read := ReadManifestEdits(step, file, contents, written, edits);
    ms := ReadManifest(read);
  }
}
