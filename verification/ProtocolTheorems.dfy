/** What every run of the protocol guarantees: durability across crashes, and what readers see. */
module ProtocolTheorems {
  import opened DbFormat
  import opened History
  import opened SortedRuns
  import opened Versions
  import opened InputSelection
  import opened FlushInside
  import opened VersionBuilder
  import opened GroupLog
  import opened Protocol
  import opened ProtocolSafety
  import opened ProtocolJobs
  import opened ProtocolRecovery
  import opened ProtocolManifest
  import opened ProtocolCompaction

  // ---- The invariant holds in every run ----

  lemma WriterStepKeepsInv(s: State, s': State)
    requires Inv(s) && WriterStep(s, s')
    ensures Inv(s')
  {
    if ops :| BeginWrite(s, s', ops) {
      BeginWriteKeepsInv(s, s', ops);
    } else if AppendRecord(s, s') {
      AppendRecordKeepsInv(s, s');
    } else if InsertNext(s, s') {
      InsertNextKeepsInv(s, s');
    } else if Acknowledge(s, s') {
      AcknowledgeKeepsInv(s, s');
    } else {
      SwitchMemtableKeepsInv(s, s');
    }
  }

  lemma ReaderStepKeepsInv(s: State, s': State)
    requires Inv(s) && ReaderStep(s, s')
    ensures Inv(s')
  {
    if TakeSnapshot(s, s') {
      TakeSnapshotKeepsInv(s, s');
    } else if i :| ReleaseSnapshot(s, s', i) {
      ReleaseSnapshotKeepsInv(s, s', i);
    } else if at :| OpenReader(s, s', at) {
      OpenReaderKeepsInv(s, s', at);
    } else {
      var i :| CloseReader(s, s', i);
      CloseReaderKeepsInv(s, s', i);
    }
  }

  lemma BackgroundStepKeepsInv(s: State, s': State)
    requires Inv(s) && CompactionOk(s) && BackgroundStep(s, s')
    ensures Inv(s')
  {
    if level, f :| StartFlush(s, s', level, f) {
      StartFlushKeepsInv(s, s', level, f);
    } else if level, f :| StartMove(s, s', level, f) {
      StartMoveKeepsInv(s, s', level, f);
    } else if p :| StartCompaction(s, s', p) {
      StartCompactionKeepsInv(s, s', p);
    } else if FinishCompaction(s, s') {
      FinishCompactionKeepsInv(s, s');
    } else if GiveUpCompaction(s, s') {
      GiveUpCompactionKeepsInv(s, s');
    } else if PrepareEdit(s, s') {
      PrepareEditKeepsInv(s, s');
    } else if LogEdit(s, s') {
      LogEditKeepsInv(s, s');
    } else {
      InstallVersionKeepsInv(s, s');
    }
  }

  lemma FileStepKeepsInv(s: State, s': State)
    requires Inv(s) && FileStep(s, s')
    ensures Inv(s')
  {
    if n :| RemoveTable(s, s', n) {
      RemoveTableKeepsInv(s, s', n);
    } else if n :| RemoveLog(s, s', n) {
      RemoveLogKeepsInv(s, s', n);
    } else if n :| RemoveManifest(s, s', n) {
      RemoveManifestKeepsInv(s, s', n);
    } else if n, t :| WriteOrphanTable(s, s', n, t) {
      WriteOrphanTableKeepsInv(s, s', n, t);
    } else if n :| WriteOrphanLog(s, s', n) {
      WriteOrphanLogKeepsInv(s, s', n);
    } else {
      var n, edits :| WriteOrphanManifest(s, s', n, edits);
      WriteOrphanManifestKeepsInv(s, s', n, edits);
    }
  }

  /** What recovery reads from the MANIFEST with one builder. */
  lemma RecoveryReads(s: State, s': State, fs: seq<File>, newLog: nat)
    requires RecordsOk(s) && Recover(s, s', fs, newLog)
    ensures RecoverFrom(s, s', fs, newLog, Replay(s.disk.manifests[s.disk.current]))
  {
    ManifestReadIsReplay(s.disk.manifests[s.disk.current]);
  }

  lemma ProcessStepKeepsInv(s: State, s': State)
    requires Inv(s) && RecordsOk(s) && ProcessStep(s, s')
    ensures Inv(s')
  {
    if Crash(s, s') {
      CrashKeepsInv(s, s');
    } else {
      var fs, newLog :| Recover(s, s', fs, newLog);
      RecoveryReads(s, s', fs, newLog);
      RecoverKeepsInv(s, s', fs, newLog);
    }
  }

  lemma ProcessStepKeepsRecords(s: State, s': State)
    requires Inv(s) && RecordsOk(s) && ProcessStep(s, s')
    ensures RecordsOk(s')
  {
    if fs, newLog :| Recover(s, s', fs, newLog) {
      RecoveryReads(s, s', fs, newLog);
      RecoverKeepsRecords(s, s', fs, newLog, Replay(s.disk.manifests[s.disk.current]));
    }
  }

  lemma NextKeepsInv(s: State, s': State)
    requires Inv(s) && RecordsOk(s) && CompactionOk(s) && Next(s, s')
    ensures Inv(s')
  {
    if WriterStep(s, s') {
      WriterStepKeepsInv(s, s');
    } else if ReaderStep(s, s') {
      ReaderStepKeepsInv(s, s');
    } else if BackgroundStep(s, s') {
      BackgroundStepKeepsInv(s, s');
    } else if FileStep(s, s') {
      FileStepKeepsInv(s, s');
    } else {
      ProcessStepKeepsInv(s, s');
    }
  }

  lemma NextKeepsRecords(s: State, s': State)
    requires Inv(s) && RecordsOk(s) && CompactionOk(s) && Next(s, s')
    ensures RecordsOk(s')
  {
    if WriterStep(s, s') {
      WriterStepKeepsRecords(s, s');
    } else if ReaderStep(s, s') {
      ReaderStepKeepsRecords(s, s');
    } else if FinishCompaction(s, s') {
      FinishCompactionKeepsRecords(s, s');
    } else if BackgroundStep(s, s') {
      BackgroundStepKeepsRecords(s, s');
    } else if FileStep(s, s') {
      FileStepKeepsRecords(s, s');
    } else {
      ProcessStepKeepsRecords(s, s');
    }
  }

  lemma ProcessStepKeepsPending(s: State, s': State)
    requires CompactionOk(s) && ProcessStep(s, s')
    ensures CompactionOk(s')
  {
  }

  lemma NextKeepsPending(s: State, s': State)
    requires Inv(s) && RecordsOk(s) && CompactionOk(s) && Next(s, s')
    ensures CompactionOk(s')
  {
    if WriterStep(s, s') {
      WriterStepKeepsPending(s, s');
    } else if ReaderStep(s, s') {
      ReaderStepKeepsPending(s, s');
    } else if BackgroundStep(s, s') {
      BackgroundStepKeepsPending(s, s');
    } else if FileStep(s, s') {
      FileStepKeepsPending(s, s');
    } else {
      ProcessStepKeepsPending(s, s');
    }
  }

  lemma NextKeepsAll(s: State, s': State)
    requires Inv(s) && RecordsOk(s) && CompactionOk(s) && Next(s, s')
    ensures Inv(s') && RecordsOk(s') && CompactionOk(s')
  {
    NextKeepsInv(s, s');
    NextKeepsRecords(s, s');
    NextKeepsPending(s, s');
  }

  lemma InitAll(s: State)
    requires Init(s)
    ensures Inv(s) && RecordsOk(s) && CompactionOk(s)
  {
    InitInv(s);
    InitRecords(s);
  }

  ghost predicate AllOk(s: State) {
    Inv(s) && RecordsOk(s) && CompactionOk(s)
  }

  lemma StepKeepsAll(states: seq<State>, i: nat)
    requires Run(states) && i + 1 < |states| && AllOk(states[i])
    ensures AllOk(states[i + 1])
  {
    assert StepAt(states, i);
    NextKeepsAll(states[i], states[i + 1]);
  }

  lemma {:induction false} RunAllOk(states: seq<State>, i: nat)
    requires Run(states) && i < |states|
    ensures AllOk(states[i])
  {
    if i == 0 {
      InitAll(states[0]);
    } else {
      RunAllOk(states, i - 1);
      StepKeepsAll(states, i - 1);
    }
  }

  lemma RunInv(states: seq<State>, i: nat)
    requires Run(states) && i < |states|
    ensures Inv(states[i]) && RecordsOk(states[i]) && CompactionOk(states[i])
  {
    RunAllOk(states, i);
  }

  // ---- The history only grows ----

  /** What no step may do: lose a logged group, or take back an acknowledgement. */
  ghost predicate Grows(s: State, s': State) {
    s.hist <= s'.hist && s.acked <= s'.acked
  }

  lemma NextGrows(s: State, s': State)
    requires s.acked <= |s.hist| && Next(s, s')
    ensures Grows(s, s')
  {
    if WriterStep(s, s') {
    } else if ReaderStep(s, s') {
    } else if BackgroundStep(s, s') {
    } else if FileStep(s, s') {
    } else {
    }
  }

  lemma RunStep(states: seq<State>, i: nat)
    requires Run(states) && i + 1 < |states|
    ensures Next(states[i], states[i + 1]) && Inv(states[i]) && Inv(states[i + 1])
    ensures Grows(states[i], states[i + 1]) && TakenFrom(states[i], states[i + 1])
  {
    assert StepAt(states, i);
    RunInv(states, i);
    RunInv(states, i + 1);
    NextGrows(states[i], states[i + 1]);
    NextTakesFrom(states[i], states[i + 1]);
  }

  lemma RunStepGrows(states: seq<State>, i: nat)
    requires Run(states) && i + 1 < |states|
    ensures Grows(states[i], states[i + 1])
  {
    RunStep(states, i);
  }

  lemma GrowsTransitive(s: State, t: State, u: State)
    requires Grows(s, t) && Grows(t, u)
    ensures Grows(s, u)
  {
  }

  lemma {:induction false} RunGrows(states: seq<State>, i: nat, j: nat)
    requires Run(states) && i <= j < |states|
    ensures Grows(states[i], states[j])
  {
    if i < j {
      RunGrows(states, i, j - 1);
      RunStepGrows(states, j - 1);
      GrowsTransitive(states[i], states[j - 1], states[j]);
    }
  }

  // ---- Crash recovery ----

  /** The recovered database: exactly the logged groups, in a version that is complete on disk. */
  ghost predicate Holds(db: Db, tables: map<nat, seq<Entry>>, hist: seq<Batch>) {
    && db.last == End(hist, |hist|)
    && (forall e :: e in VersionContents(db.v) ==> e in Facts(hist, 0, |hist|) && e.num <= db.last)
    && (forall k :: Read(VersionContents(db.v), k, db.last) == Read(Facts(hist, 0, |hist|), k, db.last))
    && (forall l, f :: At(db.v, l, f) ==> f.number in tables && tables[f.number] == f.table)
  }

  lemma RecoveredHolds(s: State, s': State, fs: seq<File>, newLog: nat)
    requires Inv(s) && RecordsOk(s) && Recover(s, s', fs, newLog)
    ensures s'.hist == s.hist && s'.db.Some? && Holds(s'.db.value, s'.disk.tables, s'.hist)
  {
    RecoveryReads(s, s', fs, newLog);
    RecoverKeepsInv(s, s', fs, newLog);
    var db, hist := s'.db.value, s'.hist;
    assert ViewOk(hist, db.v, db.view) && db.view.covered == |hist|;
    forall e | e in VersionContents(db.v)
      ensures e in Facts(hist, 0, |hist|) && e.num <= db.last
    {
      FactRange(hist, 0, |hist|, e);
    }
  }

  /** For every run and every recovery in it: the recovered database holds exactly the groups
      logged before the crash; every group acknowledged at any earlier time is among them, in
      its place. */
  lemma CrashRecovery(states: seq<State>, i: nat, j: nat, fs: seq<File>, newLog: nat)
    requires Run(states) && i <= j && j + 1 < |states| && Recover(states[j], states[j + 1], fs, newLog)
    ensures states[j + 1].hist == states[j].hist
    ensures Holds(states[j + 1].db.value, states[j + 1].disk.tables, states[j + 1].hist)
    ensures states[i].acked <= |states[i].hist| && states[i].hist[..states[i].acked] <= states[j + 1].hist
  {
    RunInv(states, j);
    RunInv(states, i);
    RunGrows(states, i, j);
    RecoveredHolds(states[j], states[j + 1], fs, newLog);
  }

  /** Recovery never reports a missing file. */
  lemma NoMissingFiles(states: seq<State>, i: nat)
    requires Run(states) && i < |states|
    ensures states[i].disk.current in states[i].disk.manifests
    ensures forall l, f :: At(ManifestRead(states[i].disk.manifests[states[i].disk.current]).v, l, f) ==>
              f.number in states[i].disk.tables && states[i].disk.tables[f.number] == f.table
  {
    RunInv(states, i);
    ManifestReadIsReplay(states[i].disk.manifests[states[i].disk.current]);
  }

  /** For every run: reading the records of the MANIFEST with one builder and one save gives the
      same as saving after each, and while the database is open that is its current version, or the
      one whose record has just been logged. */
  lemma ManifestRebuildsVersion(states: seq<State>, i: nat)
    requires Run(states) && i < |states|
    ensures states[i].disk.current in states[i].disk.manifests
    ensures var s, m := states[i], states[i].disk.manifests[states[i].disk.current];
      && AllAddedOnce(EMPTY_VERSION, m) && ManifestRead(m) == Replay(m)
      && (s.db.Some? ==>
            ManifestRead(m).v == if s.db.value.job.Some? && s.db.value.job.value.stage.Logged? then s.db.value.job.value.v else s.db.value.v)
  {
    RunInv(states, i);
    ManifestReadIsReplay(states[i].disk.manifests[states[i].disk.current]);
  }

  /** For every run: when a compaction comes to install its outcome, this fits the version of that
      moment, whatever has been flushed since it started, if its inputs leave no gap.  Those of
      PickCompaction never do. */
  lemma OutcomesFit(states: seq<State>, i: nat)
    requires Run(states) && i < |states| && states[i].db.Some? && states[i].db.value.compacted.Some?
    requires var p := states[i].db.value.compacted.value; NoGap(p.in0 + p.in1)
    ensures OutputsFit(states[i].db.value.compacted.value, states[i].db.value.v)
  {
    RunInv(states, i);
    NoGapFits(states[i].db.value.compacted.value, states[i].db.value.v);
  }

  // ---- Readers ----

  /** The sequence number at which the first n acknowledged groups, and no more, are visible. */
  ghost predicate AtGroupEnd(hist: seq<Batch>, acked: nat, at: nat) {
    acked <= |hist| && exists n: nat :: n <= acked && at == End(hist, n)
  }

  lemma AtGroupEndGrows(hist: seq<Batch>, acked: nat, hist': seq<Batch>, acked': nat, at: nat)
    requires AtGroupEnd(hist, acked, at) && hist <= hist' && acked <= acked' <= |hist'|
    ensures AtGroupEnd(hist', acked', at)
  {
    var n: nat :| n <= acked && at == End(hist, n);
    EndPrefix(hist, hist'[|hist|..], n);
    assert hist' == hist + hist'[|hist|..];
  }

  ghost predicate Aligned(s: State) {
    s.db.Some? ==>
      && (forall x :: x in s.db.value.snapshots ==> AtGroupEnd(s.hist, s.acked, x))
      && (forall r :: r in s.db.value.readers ==> AtGroupEnd(s.hist, s.acked, r.at))
  }

  /** New snapshots are at the last sequence number; new readers there or at a snapshot. */
  ghost predicate TakenFrom(s: State, s': State) {
    s'.db.Some? ==>
      && (forall x :: x in s'.db.value.snapshots ==> s.db.Some? && (x in s.db.value.snapshots || x == s.db.value.last))
      && (forall r :: r in s'.db.value.readers ==>
            s.db.Some? && (HasReaderAt(s.db.value.readers, r.at) || r.at in s.db.value.snapshots || r.at == s.db.value.last))
  }

  ghost predicate HasReaderAt(readers: seq<Reader>, at: nat) {
    exists r :: r in readers && r.at == at
  }

  lemma WriterTakesFrom(s: State, s': State)
    requires WriterStep(s, s')
    ensures TakenFrom(s, s')
  {
    var readers, readers' := s.db.value.readers, s'.db.value.readers;
    forall r | r in readers'
      ensures HasReaderAt(readers, r.at)
    {
      var i: nat :| i < |readers'| && readers'[i] == r;
      assert readers[i] in readers && readers[i].at == r.at;
    }
  }

  lemma BackgroundTakesFrom(s: State, s': State)
    requires BackgroundStep(s, s') || FileStep(s, s')
    ensures TakenFrom(s, s')
  {
    if BackgroundStep(s, s') {
    } else {
    }
  }

  lemma ReaderTakesFrom(s: State, s': State)
    requires ReaderStep(s, s')
    ensures TakenFrom(s, s')
  {
  }

  lemma NextTakesFrom(s: State, s': State)
    requires Next(s, s')
    ensures TakenFrom(s, s')
  {
    if WriterStep(s, s') {
      WriterTakesFrom(s, s');
    } else if ReaderStep(s, s') {
      ReaderTakesFrom(s, s');
    } else if BackgroundStep(s, s') || FileStep(s, s') {
      BackgroundTakesFrom(s, s');
    }
  }

  lemma NextKeepsAligned(s: State, s': State)
    requires Inv(s) && Inv(s') && Aligned(s) && Grows(s, s') && TakenFrom(s, s')
    ensures Aligned(s')
  {
    if s'.db.Some? {
      forall x | AtGroupEnd(s.hist, s.acked, x)
        ensures AtGroupEnd(s'.hist, s'.acked, x)
      {
        AtGroupEndGrows(s.hist, s.acked, s'.hist, s'.acked, x);
      }
      if s.db.Some? {
        assert s.db.value.last == End(s.hist, s.acked);
        assert AtGroupEnd(s.hist, s.acked, s.db.value.last);
      }
    }
  }

  lemma {:induction false} RunAligned(states: seq<State>, i: nat)
    requires Run(states) && i < |states|
    ensures Aligned(states[i])
  {
    if i > 0 {
      RunAligned(states, i - 1);
      RunStep(states, i - 1);
      NextKeepsAligned(states[i - 1], states[i]);
    }
  }

  lemma ReaderSees(s: State, r: Reader) returns (n: nat)
    requires Inv(s) && Aligned(s) && s.db.Some? && r in s.db.value.readers
    ensures n <= s.acked <= |s.hist| && r.at == End(s.hist, n)
    ensures Layered(r.mem, r.imm, r.v)
    ensures forall k :: Read(ReaderContents(r), k, r.at) == Read(Facts(s.hist, 0, n), k, r.at)
  {
    assert AtGroupEnd(s.hist, s.acked, r.at);
    n :| n <= s.acked && r.at == End(s.hist, n);
    assert ReaderOk(s.disk.tables, s.hist, s.db.value.last, s.db.value.nextFile, r);
    forall k
      ensures Read(ReaderContents(r), k, r.at) == Read(Facts(s.hist, 0, n), k, r.at)
    {
      UnacknowledgedInvisible(s.hist, n, k, r.at);
    }
  }

  /** For every run and every open reader in it: there is a number n of acknowledged groups such
      that the reader sees the first n groups wholly and no other, whatever has been written,
      flushed, compacted or removed since it was opened. */
  lemma ReadersSeeWholeGroups(states: seq<State>, i: nat, r: Reader) returns (n: nat)
    requires Run(states) && i < |states| && states[i].db.Some? && r in states[i].db.value.readers
    ensures n <= states[i].acked <= |states[i].hist| && r.at == End(states[i].hist, n)
    ensures Layered(r.mem, r.imm, r.v)
    ensures forall k :: Read(ReaderContents(r), k, r.at) == Read(Facts(states[i].hist, 0, n), k, r.at)
    ensures forall e :: e in Facts(states[i].hist, 0, n) ==> e.num <= r.at
  {
    RunInv(states, i);
    RunAligned(states, i);
    n := ReaderSees(states[i], r);
    forall e | e in Facts(states[i].hist, 0, n)
      ensures e.num <= r.at
    {
      FactRange(states[i].hist, 0, n, e);
    }
  }

  /** DBImpl::Get: memtable, immutable memtable, version, stopping at the first that knows the key. */
  method Get(mem: seq<Entry>, imm: seq<Entry>, v: Version, k: UserKey, at: nat) returns (r: Option<Bytes>)
    requires Sorted(mem) && Sorted(imm) && Layered(SetOf(mem), SetOf(imm), v) && at <= MAX_SEQUENCE
    ensures r == Read(SetOf(mem) + SetOf(imm) + VersionContents(v), k, at)
  {
    ghost var M, I, V := SetOf(mem), SetOf(imm), VersionContents(v);
    SubsetConsistent(M, M + I + V);
    SubsetConsistent(I, M + I + V);
    SubsetConsistent(V, M + I + V);
    SubsetConsistent(I + V, M + I + V);
    assert M + (I + V) == M + I + V;
    LookupLayered(M, I + V, k, at);
    LookupLayered(I, V, k, at);
    RunGetIsLookup(mem, k, at);
    RunGetIsLookup(imm, k, at);
    var op := RunGet(mem, k, at);
    if op.None? {
      op := RunGet(imm, k, at);
      if op.None? {
        op := Versions.Get(v, k, at);
      }
    }
    r := if op.Some? && op.value.Put? then Some(op.value.value) else None;
  }
}
