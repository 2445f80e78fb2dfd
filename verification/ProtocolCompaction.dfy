/** A compaction that has written its outputs and waits to be installed, while memtables are flushed
    and everything else goes on (db/db_impl.cc: DoCompactionWork, InstallCompactionResults). */
module ProtocolCompaction {
  import opened DbFormat
  import opened History
  import opened Versions
  import opened InputSelection
  import opened Compaction
  import opened CompactionMeaning
  import opened Installing
  import opened FlushInside
  import opened VersionBuilder
  import opened GroupLog
  import opened Protocol
  import opened ProtocolSafety
  import opened ProtocolJobs
  import opened ProtocolManifest

  // ---- Invariant ----

  /** The output tables are on disk, under numbers given out and not in the MANIFEST. */
  ghost predicate OutputsKept(tables: map<nat, seq<Entry>>, m: seq<Edit>, next: nat, outs: seq<File>) {
    forall o :: o in outs ==> o.number < next && o.number in tables && tables[o.number] == o.table && Unrecorded(m, o.number)
  }

  /** A pending outcome: since its version was current, only memtables have been flushed into it, and
      the same will hold of the version of a job under way. */
  ghost predicate PendingOk(tables: map<nat, seq<Entry>>, m: seq<Edit>, db: Db, p: Compacted) {
    && Done(p) && NoResurrection(p.base, p.level, p.in1, p.input, p.snap)
    && Flushed(p, db.v) && (db.job.Some? ==> db.job.value.flush && Flushed(p, db.job.value.v))
    && SnapshotsOk(db, p.snap)
    && OutputsKept(tables, m, db.nextFile, p.outs)
  }

  ghost predicate CompactionOk(s: State) {
    && s.disk.current in s.disk.manifests
    && (s.db.Some? && s.db.value.compacted.Some? ==>
          PendingOk(s.disk.tables, s.disk.manifests[s.disk.current], s.db.value, s.db.value.compacted.value))
  }

  // ---- Starting and finishing ----

  lemma StartCompactionKeepsPending(s: State, s': State, p: Compacted)
    requires Inv(s) && RecordsOk(s) && StartCompaction(s, s', p)
    ensures CompactionOk(s')
  {
    NothingFlushed(p);
    NewOutputsKept(s.disk.tables, s'.disk.tables, s.disk.manifests[s.disk.current], s.db.value.nextFile, s'.db.value.nextFile, p.outs);
  }

  lemma NewOutputsKept(tables: map<nat, seq<Entry>>, tables': map<nat, seq<Entry>>, m: seq<Edit>, next: nat, next': nat, outs: seq<File>)
    requires Written(m) && Replay(m).nextFile <= next && TablesAdded(tables, outs, tables')
    requires forall f :: f in outs ==> next <= f.number < next'
    ensures OutputsKept(tables', m, next', outs)
  {
    forall o | o in outs
      ensures Unrecorded(m, o.number)
    {
      BeyondIsUnrecorded(m, Replay(m).nextFile, o.number);
    }
  }

  /** The edit made for the version of this moment leads to the version with the outcome. */
  lemma PendingApplied(p: Compacted, v: Version)
    requires Done(p) && Flushed(p, v)
    ensures var e := FilesEdit(InputDeletions(p.level, p.in0, p.in1), Additions(p.level, p.outs)); Installed(p, v, ApplyEdit(v, e))
  {
    CompactionApplied(v, p.level, p.in0, p.in1, p.outs);
  }

  lemma PendingView(hist: seq<Batch>, v: Version, view: View, p: Compacted, v': Version)
    requires ViewOk(hist, v, view) && Installed(p, v, v') && OutputsFit(p, v)
    requires NoResurrection(p.base, p.level, p.in1, p.input, p.snap)
    ensures ViewOk(hist, v', View(view.covered, Max(view.floor, p.snap)))
  {
    WellFormedExactlyIfFits(p, v, v');
    ContentsAfter(p, v, v');
    ReadsAfter(p, v, v');
    forall k, s: nat | s >= p.snap && s >= view.floor
      ensures Read(VersionContents(v'), k, s) == Read(Facts(hist, 0, view.covered), k, s)
    {
      assert Read(VersionContents(v'), k, s) == Read(VersionContents(v), k, s);
    }
  }

  lemma PendingOnDisk(tables: map<nat, seq<Entry>>, m: seq<Edit>, v: Version, next: nat, p: Compacted, v': Version)
    requires FilesOnDisk(tables, v, next) && OutputsKept(tables, m, next, p.outs) && Installed(p, v, v')
    ensures FilesOnDisk(tables, v', next)
  {
    forall l, f | At(v', l, f)
      ensures f.number in tables && tables[f.number] == f.table && f.number < next
    {
      Remaining(v, p.level, p.in0, p.in1, p.outs, v', l, f);
    }
  }

  lemma FinishCompactionKeepsInv(s: State, s': State)
    requires Inv(s) && CompactionOk(s) && FinishCompaction(s, s')
    ensures Inv(s')
  {
    var db, db', j := s.db.value, s'.db.value, s'.db.value.job.value;
    var p := db.compacted.value;
    PendingApplied(p, db.v);
    PendingView(s.hist, db.v, db.view, p, j.v);
    PendingOnDisk(s.disk.tables, s.disk.manifests[s.disk.current], db.v, db.nextFile, p, j.v);
    assert SnapshotsOk(db', j.view.floor);
    StartKeepsInv(s, s', s.disk.tables, db.nextFile, Some(j), None);
  }

  lemma FinishCompactionKeepsRecords(s: State, s': State)
    requires RecordsOk(s) && CompactionOk(s) && FinishCompaction(s, s')
    ensures RecordsOk(s')
  {
    var p, e := s.db.value.compacted.value, s'.db.value.job.value.edit;
    PendingApplied(p, s.db.value.v);
    AdditionsAt(p.level, p.outs);
    AdditionsArePairs(p.level, p.outs, e);
    assert forall q :: q in e.added <==> q in AddedPairs(e);
    AppliedFits(s.db.value.v, s.disk.manifests[s.disk.current], e, InputDeletions(p.level, p.in0, p.in1),
                OutputAdditions(p.level, p.outs), s'.db.value.job.value.v);
  }

  // ---- What goes on meanwhile ----

  /** A flush, once its version is current, is one more flush. */
  lemma FlushJobFlushed(s: State, s': State, level: nat, f: File, p: Compacted)
    requires Inv(s) && StartFlush(s, s', level, f) && Flushed(p, s.db.value.v)
    requires forall o :: o in p.outs ==> o.number < s.db.value.nextFile
    ensures Flushed(p, s'.db.value.job.value.v)
  {
    var db, j := s.db.value, s'.db.value.job.value;
    if db.imm.value == {} {
      ApplyNothing(db.v);
    } else {
      FlushedFile(s, level, f);
      FlushApplied(db.v, level, f);
      FlushedOnceMore(p, db.v, level, f, j.v);
    }
  }

  lemma StartFlushKeepsPending(s: State, s': State, level: nat, f: File)
    requires Inv(s) && CompactionOk(s) && StartFlush(s, s', level, f)
    ensures CompactionOk(s')
  {
    if s.db.value.compacted.Some? {
      FlushJobFlushed(s, s', level, f, s.db.value.compacted.value);
    }
    FlushStarted(s, s', level, f);
  }

  lemma FlushStarted(s: State, s': State, level: nat, f: File)
    requires CompactionOk(s) && StartFlush(s, s', level, f)
    requires s.db.value.compacted.Some? ==> Flushed(s.db.value.compacted.value, s'.db.value.job.value.v)
    ensures CompactionOk(s')
  {
    var db, db' := s.db.value, s'.db.value;
    if db.compacted.Some? {
      PendingBesideFlush(s.disk.tables, s'.disk.tables, s.disk.manifests[s.disk.current], db, db', db.compacted.value);
    }
  }

  lemma PendingBesideFlush(tables: map<nat, seq<Entry>>, tables': map<nat, seq<Entry>>, m: seq<Edit>, db: Db, db': Db, p: Compacted)
    requires PendingOk(tables, m, db, p) && KeepsBelow(tables, tables', db.nextFile)
    requires db' == db.(nextFile := db.nextFile + 1, job := db'.job)
    requires db'.job.Some? && db'.job.value.flush && Flushed(p, db'.job.value.v)
    ensures PendingOk(tables', m, db', p)
  {
  }

  /** The table of an immutable memtable is newer than the version. */
  lemma FlushedFile(s: State, level: nat, f: File)
    requires Inv(s) && s.db.Some? && s.db.value.imm == Some(TableSet(f))
    ensures NewerThanVersion(f, s.db.value.v) && Consistent(VersionContents(s.db.value.v) + TableSet(f))
  {
    var db := s.db.value;
    var c, m := db.view.covered, db.switched;
    LaterIsAbove(s.hist, 0, c, m);
    FactsSplit(s.hist, 0, c, m);
    FactsConsistent(s.hist, 0, m);
    SubsetConsistent(VersionContents(db.v) + TableSet(f), Facts(s.hist, 0, m));
    forall e, x | e in f.table && x in VersionContents(db.v)
      ensures e.num > x.num
    {
      assert e in TableSet(f);
      FactRange(s.hist, c, m, e);
      FactRange(s.hist, 0, c, x);
    }
  }

  /** The record of a flush names no output. */
  lemma LogEditKeepsPending(s: State, s': State)
    requires RecordsOk(s) && CompactionOk(s) && LogEdit(s, s')
    ensures CompactionOk(s')
  {
    var db := s.db.value;
    if db.compacted.Some? {
      var p, m, j := db.compacted.value, s.disk.manifests[s.disk.current], db.job.value;
      forall o | o in p.outs
        ensures Unrecorded(m + [j.edit], o.number)
      {
        RecordNamesNoOutput(m, j, p, o);
      }
    }
  }

  lemma RecordNamesNoOutput(m: seq<Edit>, j: Job, p: Compacted, o: File)
    requires Flushed(p, j.v) && o in p.outs && Unrecorded(m, o.number)
    requires forall q :: q in j.edit.added ==> At(j.v, q.0, q.1)
    ensures Unrecorded(m + [j.edit], o.number)
  {
    forall l, g {:trigger g in AddedBy(m + [j.edit], l)} | g in AddedBy(m + [j.edit], l)
      ensures g.number != o.number
    {
      AddedByLast(m, j.edit, l);
      if g in AddedAt(j.edit.added, l) {
        assert (l, g) in j.edit.added && At(j.v, l, g);
      }
    }
  }

  lemma JobStepKeepsPending(s: State, s': State)
    requires CompactionOk(s) && (PrepareEdit(s, s') || InstallVersion(s, s'))
    ensures CompactionOk(s')
  {
  }

  lemma BackgroundStepKeepsPending(s: State, s': State)
    requires Inv(s) && RecordsOk(s) && CompactionOk(s) && BackgroundStep(s, s')
    ensures CompactionOk(s')
  {
    if level, f :| StartFlush(s, s', level, f) {
      StartFlushKeepsPending(s, s', level, f);
    } else if p :| StartCompaction(s, s', p) {
      StartCompactionKeepsPending(s, s', p);
    } else if LogEdit(s, s') {
      LogEditKeepsPending(s, s');
    } else if PrepareEdit(s, s') || InstallVersion(s, s') {
      JobStepKeepsPending(s, s');
    }
  }

  /** Steps of writers and readers leave the outcome alone; snapshots they take are later. */
  lemma MemoryStepKeepsPending(s: State, s': State)
    requires CompactionOk(s) && s.db.Some? && s'.db.Some?
    requires s'.disk == s.disk.(logs := s'.disk.logs) && s'.db.value.v == s.db.value.v && s'.db.value.job == s.db.value.job
    requires s'.db.value.compacted == s.db.value.compacted && s.db.value.nextFile <= s'.db.value.nextFile
    requires s.db.value.compacted.Some? ==> SnapshotsOk(s'.db.value, s.db.value.compacted.value.snap)
    ensures CompactionOk(s')
  {
  }

  lemma WriterStepKeepsPending(s: State, s': State)
    requires CompactionOk(s) && WriterStep(s, s')
    ensures CompactionOk(s')
  {
    MemoryStepKeepsPending(s, s');
  }

  lemma ReaderStepKeepsPending(s: State, s': State)
    requires CompactionOk(s) && ReaderStep(s, s')
    ensures CompactionOk(s')
  {
    var db, db' := s.db.value, s'.db.value;
    if db.compacted.Some? {
      if TakeSnapshot(s, s') {
        SnapshotsGrow(db, db', db.compacted.value.snap);
      } else if i :| ReleaseSnapshot(s, s', i) {
        SnapshotsShrink(db, db', db.compacted.value.snap, i);
      }
    }
    MemoryStepKeepsPending(s, s');
  }

  lemma TablesChange(tables: map<nat, seq<Entry>>, tables': map<nat, seq<Entry>>, m: seq<Edit>, db: Db, p: Compacted)
    requires PendingOk(tables, m, db, p)
    requires forall o :: o in p.outs && o.number in tables ==> o.number in tables' && tables'[o.number] == tables[o.number]
    ensures PendingOk(tables', m, db, p)
  {
  }

  lemma RemovalKeepsPending(s: State, s': State, n: nat)
    requires CompactionOk(s) && (RemoveTable(s, s', n) || RemoveLog(s, s', n) || RemoveManifest(s, s', n))
    ensures CompactionOk(s')
  {
    if s.db.value.compacted.Some? {
      TablesChange(s.disk.tables, s'.disk.tables, s.disk.manifests[s.disk.current], s.db.value, s.db.value.compacted.value);
    }
  }

  lemma OrphanKeepsPending(s: State, s': State, n: nat, t: seq<Entry>)
    requires CompactionOk(s) && WriteOrphanTable(s, s', n, t)
    ensures CompactionOk(s')
  {
    if s.db.Some? && s.db.value.compacted.Some? {
      TablesChange(s.disk.tables, s'.disk.tables, s.disk.manifests[s.disk.current], s.db.value, s.db.value.compacted.value);
    }
  }

  lemma FileStepKeepsPending(s: State, s': State)
    requires CompactionOk(s) && FileStep(s, s')
    ensures CompactionOk(s')
  {
    if n :| RemoveTable(s, s', n) || RemoveLog(s, s', n) || RemoveManifest(s, s', n) {
      RemovalKeepsPending(s, s', n);
    } else if n, t :| WriteOrphanTable(s, s', n, t) {
      OrphanKeepsPending(s, s', n, t);
    }
  }
}
