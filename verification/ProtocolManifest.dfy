/** The records of the current MANIFEST over a run: each number comes to a level once, so that one
    builder reads it like saving after each record; and the newest log is there (db/version_set.cc
    LogAndApply, Recover; db/db_impl.cc Recover). */
module ProtocolManifest {
  import opened DbFormat
  import opened History
  import opened Versions
  import opened InputSelection
  import opened Compaction
  import opened CompactionMeaning
  import opened Installing
  import opened FlushInside
  import opened VersionBuilder
  import opened GroupLog
  import opened Protocol
  import opened ProtocolSafety
  import opened ProtocolJobs
  import opened ProtocolRecovery

  // ---- Invariant ----

  /** Until its record is logged, a job's edit fits behind the records of the MANIFEST. */
  ghost predicate JobNumbered(m: seq<Edit>, v: Version, j: Job) {
    !j.stage.Logged? ==>
      && EditFits(v, m, j.edit, j.v)
      && (j.stage.Prepared? ==> j.edit.nextFile.Some? && Replay(m).nextFile <= j.edit.nextFile.value)
  }

  /** The newest log is on disk and is not older than the MANIFEST asks for. */
  ghost predicate NewestLogKept(disk: Disk, limit: nat, logNumber: nat) {
    limit == 0 || (limit - 1 in disk.logs && logNumber <= limit - 1)
  }

  ghost predicate RecordsOk(s: State) {
    && s.disk.current in s.disk.manifests
    && Written(s.disk.manifests[s.disk.current])
    && NewestLogKept(s.disk, s.limit, Replay(s.disk.manifests[s.disk.current]).logNumber)
    && (s.db.Some? && s.db.value.job.Some? ==> JobNumbered(s.disk.manifests[s.disk.current], s.db.value.v, s.db.value.job.value))
  }

  // ---- Jobs ----

  /** An applied edit is one that fits. */
  lemma AppliedFits(v: Version, m: seq<Edit>, e: Edit, D: set<(int, nat)>, A: set<(int, File)>, v': Version)
    requires Applied(v, D, A, v') && EditLevelsOk(e) && forall p :: p in e.added <==> p in A
    requires forall p :: p in e.added ==> Unrecorded(m, p.1.number) || FromAbove(v, p)
    ensures EditFits(v, m, e, v')
  {
    forall p {:trigger p in e.added} | p in e.added
      ensures At(v', p.0, p.1)
    {
      assert (p.0, p.1) in A;
    }
  }

  /** A flushed file is new. */
  lemma FlushFits(v: Version, m: seq<Edit>, level: nat, f: File, e: Edit, empty: bool)
    requires WellFormed(v) && Unrecorded(m, f.number) && (!empty ==> level < NUM_LEVELS && forall l, g :: At(v, l, g) ==> g.number < f.number)
    requires e == FilesEdit({}, if empty then [] else [(level as int, f)])
    ensures EditFits(v, m, e, ApplyEdit(v, e))
  {
    if empty {
      ApplyNothing(v);
    } else {
      FlushApplied(v, level, f);
      AppliedFits(v, m, e, {}, {(level as int, f)}, ApplyEdit(v, e));
    }
  }

  lemma StartFlushKeepsRecords(s: State, s': State, level: nat, f: File)
    requires Inv(s) && RecordsOk(s) && StartFlush(s, s', level, f)
    ensures RecordsOk(s')
  {
    var db, m := s.db.value, s.disk.manifests[s.disk.current];
    if db.imm.value != {} {
      BeyondIsUnrecorded(m, Replay(m).nextFile, f.number);
      FlushFits(db.v, m, level, f, s'.db.value.job.value.edit, false);
    } else {
      ApplyNothing(db.v);
    }
  }

  /** A moved file comes from the level above. */
  lemma MoveFits(v: Version, m: seq<Edit>, level: nat, f: File, e: Edit)
    requires WellFormed(v) && level + 1 < NUM_LEVELS && At(v, level, f)
    requires e == FilesEdit({(level as int, f.number)}, [(level as int + 1, f)])
    ensures EditFits(v, m, e, ApplyEdit(v, e))
  {
    MoveApplied(v, level, f);
    assert FromAbove(v, (level as int + 1, f));
    AppliedFits(v, m, e, {(level as int, f.number)}, {(level as int + 1, f)}, ApplyEdit(v, e));
  }

  lemma StartMoveKeepsRecords(s: State, s': State, level: nat, f: File)
    requires Inv(s) && RecordsOk(s) && StartMove(s, s', level, f)
    ensures RecordsOk(s')
  {
    var db, m := s.db.value, s.disk.manifests[s.disk.current];
    assert At(db.v, level, f) by { assert f in [f]; }
    MoveFits(db.v, m, level, f, s'.db.value.job.value.edit);
  }

  lemma StartCompactionKeepsRecords(s: State, s': State, p: Compacted)
    requires RecordsOk(s) && StartCompaction(s, s', p)
    ensures RecordsOk(s')
  {
  }

  // ---- The MANIFEST ----

  lemma PrepareEditKeepsRecords(s: State, s': State)
    requires Inv(s) && RecordsOk(s) && PrepareEdit(s, s')
    ensures RecordsOk(s')
  {
    var j, j' := s.db.value.job.value, s'.db.value.job.value;
    assert EditFits(s.db.value.v, s.disk.manifests[s.disk.current], j'.edit, j'.v);
  }

  lemma LogEditKeepsRecords(s: State, s': State)
    requires Inv(s) && RecordsOk(s) && LogEdit(s, s')
    ensures RecordsOk(s')
  {
    var m, e := s.disk.manifests[s.disk.current], s.db.value.job.value.edit;
    RecordWritten(m, e);
    ReplayAppend(m, e);
  }

  /** The two records of a new MANIFEST. */
  lemma NewRecords(v: Version, e: Edit, next: nat)
    requires WellFormed(v) && WellFormed(ApplyEdit(v, e)) && e.logNumber.Some? && e.nextFile.Some? && e.lastSequence.Some?
    requires EditFits(v, [FilesEdit({}, SnapshotAdditions(v, NUM_LEVELS))], e, ApplyEdit(v, e)) && next <= e.nextFile.value
    requires forall l, f :: At(v, l, f) ==> f.number < next
    requires forall l, f :: At(ApplyEdit(v, e), l, f) ==> f.number < e.nextFile.value
    ensures Written([FilesEdit({}, SnapshotAdditions(v, NUM_LEVELS)), e])
  {
    var first := FilesEdit({}, SnapshotAdditions(v, NUM_LEVELS));
    SnapshotNumbered(v, next, first);
    assert [first, e] == [first] + [e];
    var v' := ApplyEdit(v, e);
    AllOnceMore([first], v, e, v');
    StillNumberedBelow([first], next, e, v', e.nextFile.value);
    StillNotBelow([first], v, e, v');
    NewManifest(v, e);
  }

  /** The snapshot record adds every file once, to the level it is on. */
  lemma SnapshotNumbered(v: Version, next: nat, first: Edit)
    requires WellFormed(v) && first == FilesEdit({}, SnapshotAdditions(v, NUM_LEVELS))
    requires forall l, f :: At(v, l, f) ==> f.number < next
    ensures EditLevelsOk(first) && AllAddedOnce(EMPTY_VERSION, [first])
    ensures NumberedBelow([first], next) && NeverAddedBelow([first], v)
  {
    SnapshotAdditionsAt(v, NUM_LEVELS);
    assert [first] == [] + [first] && [first][..0] == [];
    forall m
      ensures AddedBy([first], m) == AddedAt(first.added, m)
    {
      AddedByLast([], first, m);
    }
    forall m, g | g in AddedAt(first.added, m)
      ensures At(v, m, g)
    {
      assert (m, g) in first.added;
    }
    forall l, f, m, g {:trigger At(v, l, f), g in AddedBy([first], m)} | At(v, l, f) && g in AddedBy([first], m) && g.number == f.number
      ensures m <= l
    {
      assert At(v, m, g) && PairOk(l, f, m, g);
    }
    forall l {:trigger AddedOnce(FilesOf(EMPTY_VERSION[l]), [first], l)} | 0 <= l < NUM_LEVELS
      ensures AddedOnce(FilesOf(EMPTY_VERSION[l]), [first], l)
    {
      assert EMPTY_VERSION[l] == [] && FilesOf(EMPTY_VERSION[l]) == {};
      assert AddedOnce({}, [], l);
      SnapshotLevelDistinct(v, first, l);
    }
  }

  lemma SnapshotLevelDistinct(v: Version, first: Edit, l: int)
    requires WellFormed(v) && forall p :: p in first.added <==> 0 <= p.0 < NUM_LEVELS && p.1 in v[p.0]
    ensures DistinctNumbers(AddedAt(first.added, l))
  {
    forall f, g | f in AddedAt(first.added, l) && g in AddedAt(first.added, l) && f.number == g.number
      ensures f == g
    {
      assert (l, f) in first.added && (l, g) in first.added;
      assert At(v, l, f) && At(v, l, g) && PairOk(l, f, l, g);
    }
  }

  /** The files recovery adds are new. */
  lemma RecoveryFits(v: Version, fs: seq<File>, next: nat, m: seq<Edit>, e: Edit)
    requires NumberedBelow(m, next) && WellFormed(v) && e.deleted == {} && e.added == Level0Additions(fs)
    requires forall m, g :: At(v, m, g) ==> g.number < next
    requires forall f :: f in fs ==> f.number >= next
    requires DistinctNumbers(FilesOf(fs))
    ensures EditFits(v, m, e, ApplyEdit(v, e))
  {
    RecoveredApplied(v, fs, next, e);
    Level0AdditionsAt(fs);
    RecoveredArePairs(fs, e);
    assert forall p :: p in e.added <==> p in AddedPairs(e);
    AppliedFits(v, m, e, {}, Recovered(fs), ApplyEdit(v, e));
  }

  /** The MANIFEST recovery writes. */
  lemma RecoveryWritten(ms: ManifestState, fs: seq<File>, facts: set<Entry>, e: Edit)
    requires WellFormed(ms.v) && RecoveredFiles(facts, ms.nextFile + 1, fs)
    requires forall l, f :: At(ms.v, l, f) ==> f.number < ms.nextFile
    requires e.deleted == {} && e.added == Level0Additions(fs)
    requires e.logNumber.Some? && e.nextFile.Some? && e.lastSequence.Some? && ms.nextFile + 1 <= e.nextFile.value
    requires WellFormed(ApplyEdit(ms.v, e)) && forall l, f :: At(ApplyEdit(ms.v, e), l, f) ==> f.number < e.nextFile.value
    ensures Written([FilesEdit({}, SnapshotAdditions(ms.v, NUM_LEVELS)), e])
  {
    RecoveredNumbersDistinct(facts, ms.nextFile + 1, fs);
    var first := FilesEdit({}, SnapshotAdditions(ms.v, NUM_LEVELS));
    SnapshotNumbered(ms.v, ms.nextFile + 1, first);
    RecoveryFits(ms.v, fs, ms.nextFile + 1, [first], e);
    NewRecords(ms.v, e, ms.nextFile + 1);
  }

  lemma RecoverKeepsRecords(s: State, s': State, fs: seq<File>, newLog: nat, ms: ManifestState)
    requires Inv(s) && ms == Replay(s.disk.manifests[s.disk.current]) && RecoverFrom(s, s', fs, newLog, ms)
    ensures RecordsOk(s')
  {
    var records := Tail(s.disk.logs, ms.logNumber, s.limit);
    var e := Edit(Some(newLog), Some(newLog + 1), Some(Max(ms.lastSequence, MaxSequence(records))), {}, Level0Additions(fs));
    RecoveredVersion(s, s', fs, newLog, ms);
    RecoveredEdit(s, ms, records, fs, newLog, e);
    RecoveryWritten(ms, fs, RecordFacts(records), e);
    NewManifest(ms.v, e);
  }

  /** The edit of the step is the one RecoveredVersion speaks of. */
  lemma RecoveredEdit(s: State, ms: ManifestState, records: seq<Batch>, fs: seq<File>, newLog: nat, e: Edit)
    requires Inv(s) && ms == Replay(s.disk.manifests[s.disk.current]) && records == Tail(s.disk.logs, ms.logNumber, s.limit)
    requires e == Edit(Some(newLog), Some(newLog + 1), Some(Max(ms.lastSequence, MaxSequence(records))), {}, Level0Additions(fs))
    ensures e == RecoveryEdit(s.hist, fs, newLog)
    ensures WellFormed(ms.v) && forall l, f :: At(ms.v, l, f) ==> f.number < ms.nextFile
  {
    RecoveryInputs(s, ms, records);
  }

  // ---- All steps ----

  /** Nothing here depends on the memtables, the writer in flight or the readers. */
  lemma MemoryStepKeepsRecords(s: State, s': State)
    requires RecordsOk(s) && (s'.db.Some? ==> s.db.Some? && s'.db.value.v == s.db.value.v && s'.db.value.job == s.db.value.job)
    requires s'.disk == s.disk.(logs := s'.disk.logs) && s.disk.logs.Keys <= s'.disk.logs.Keys && s'.limit == s.limit
    ensures RecordsOk(s')
  {
  }

  lemma SwitchKeepsRecords(s: State, s': State)
    requires Inv(s) && RecordsOk(s) && SwitchMemtable(s, s')
    ensures RecordsOk(s')
  {
    LogNumberBound(s);
  }

  lemma WriterStepKeepsRecords(s: State, s': State)
    requires Inv(s) && RecordsOk(s) && WriterStep(s, s')
    ensures RecordsOk(s')
  {
    if SwitchMemtable(s, s') {
      SwitchKeepsRecords(s, s');
    } else {
      MemoryStepKeepsRecords(s, s');
    }
  }

  lemma ReaderStepKeepsRecords(s: State, s': State)
    requires RecordsOk(s) && ReaderStep(s, s')
    ensures RecordsOk(s')
  {
    MemoryStepKeepsRecords(s, s');
  }

  lemma RemovalKeepsRecords(s: State, s': State, n: nat)
    requires Inv(s) && RecordsOk(s) && (RemoveTable(s, s', n) || RemoveLog(s, s', n) || RemoveManifest(s, s', n))
    ensures RecordsOk(s')
  {
  }

  lemma OrphanKeepsRecords(s: State, s': State, n: nat, t: seq<Entry>, edits: seq<Edit>)
    requires Inv(s) && RecordsOk(s)
    requires WriteOrphanTable(s, s', n, t) || WriteOrphanLog(s, s', n) || WriteOrphanManifest(s, s', n, edits)
    ensures RecordsOk(s')
  {
  }

  lemma FileStepKeepsRecords(s: State, s': State)
    requires Inv(s) && RecordsOk(s) && FileStep(s, s')
    ensures RecordsOk(s')
  {
    if n :| RemoveTable(s, s', n) || RemoveLog(s, s', n) || RemoveManifest(s, s', n) {
      RemovalKeepsRecords(s, s', n);
    } else if n, t :| WriteOrphanTable(s, s', n, t) {
      OrphanKeepsRecords(s, s', n, t, []);
    } else if n :| WriteOrphanLog(s, s', n) {
      OrphanKeepsRecords(s, s', n, [], []);
    } else {
      var n, edits :| WriteOrphanManifest(s, s', n, edits);
      OrphanKeepsRecords(s, s', n, [], edits);
    }
  }

  /** All background steps but FinishCompaction, which needs to know more about the outputs. */
  lemma BackgroundStepKeepsRecords(s: State, s': State)
    requires Inv(s) && RecordsOk(s) && BackgroundStep(s, s') && !FinishCompaction(s, s')
    ensures RecordsOk(s')
  {
    if level, f :| StartFlush(s, s', level, f) {
      StartFlushKeepsRecords(s, s', level, f);
    } else if level, f :| StartMove(s, s', level, f) {
      StartMoveKeepsRecords(s, s', level, f);
    } else if p :| StartCompaction(s, s', p) {
      StartCompactionKeepsRecords(s, s', p);
    } else if PrepareEdit(s, s') {
      PrepareEditKeepsRecords(s, s');
    } else if LogEdit(s, s') {
      LogEditKeepsRecords(s, s');
    }
  }

  /** The one record of a new MANIFEST names no files. */
  lemma NoFilesWritten(e: Edit)
    requires e.deleted == {} && e.added == []
    ensures AllAddedOnce(EMPTY_VERSION, [e]) && forall m :: AddedBy([e], m) == {}
  {
    assert [e] == [] + [e] && [e][..0] == [];
    forall m
      ensures AddedBy([e], m) == {}
    {
      AddedByLast([], e, m);
    }
    forall l {:trigger AddedOnce(FilesOf(EMPTY_VERSION[l]), [e], l)} | 0 <= l < NUM_LEVELS
      ensures AddedOnce(FilesOf(EMPTY_VERSION[l]), [e], l)
    {
      assert EMPTY_VERSION[l] == [] && FilesOf(EMPTY_VERSION[l]) == {};
      assert AddedOnce({}, [], l);
    }
  }

  lemma NoFilesReplayed(e: Edit)
    requires e.deleted == {} && e.added == []
    ensures Replay([e]).v == EMPTY_VERSION
  {
    assert [e] == [] + [e] && [e][..0] == [];
    EmptyVersionWellFormed();
    ApplyNothing(EMPTY_VERSION);
    SameFiles(EMPTY_VERSION, e, FilesEdit({}, []));
    assert Replay([]).v == EMPTY_VERSION && Replay([e]).v == ApplyEdit(EMPTY_VERSION, e) == EMPTY_VERSION;
  }

  lemma InitRecords(s: State)
    requires Init(s)
    ensures RecordsOk(s)
  {
    var e := Edit(Some(0), Some(2), Some(0), {}, []);
    NoFilesWritten(e);
    NoFilesReplayed(e);
    assert s.disk.manifests[1] == [e];
  }
}
