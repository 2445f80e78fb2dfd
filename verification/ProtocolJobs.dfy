/** Version changes keep the invariant: flushes, moves, compactions, the MANIFEST, removal of
    obsolete files. */
module ProtocolJobs {
  import opened DbFormat
  import opened History
  import opened SortedRuns
  import opened Versions
  import opened InputSelection
  import opened Compaction
  import opened CompactionMeaning
  import opened Installing
  import opened FlushInside
  import opened VersionBuilder
  import opened GroupLog
  import opened Protocol
  import opened ProtocolSafety

  // ---- New tables never touch files in use ----

  /** tables' keeps every table below next. */
  ghost predicate KeepsBelow(tables: map<nat, seq<Entry>>, tables': map<nat, seq<Entry>>, next: nat) {
    forall n :: n in tables && n < next ==> n in tables' && tables'[n] == tables[n]
  }

  lemma FilesStay(tables: map<nat, seq<Entry>>, tables': map<nat, seq<Entry>>, v: Version, next: nat, bound: nat, next': nat)
    requires FilesOnDisk(tables, v, next) && KeepsBelow(tables, tables', bound) && next <= bound && next <= next'
    ensures FilesOnDisk(tables', v, next')
  {
  }

  lemma ReadersStay(tables: map<nat, seq<Entry>>, tables': map<nat, seq<Entry>>, hist: seq<Batch>, last: nat,
                    next: nat, readers: seq<Reader>, next': nat)
    requires ReadersOk(tables, hist, last, next, readers) && KeepsBelow(tables, tables', next) && next <= next'
    ensures ReadersOk(tables', hist, last, next', readers)
  {
    forall r | r in readers
      ensures ReaderOk(tables', hist, last, next', r)
    {
      assert ReaderOk(tables, hist, last, next, r);
      FilesStay(tables, tables', r.v, next, next, next');
    }
  }

  lemma DiskStays(disk: Disk, tables': map<nat, seq<Entry>>, hist: seq<Batch>, view: View, limit: nat, next: nat)
    requires DiskOk(disk, hist, view, limit) && KeepsBelow(disk.tables, tables', next)
    requires Replay(disk.manifests[disk.current]).nextFile <= next
    ensures DiskOk(disk.(tables := tables'), hist, view, limit)
  {
    var ms := Replay(disk.manifests[disk.current]);
    FilesStay(disk.tables, tables', ms.v, ms.nextFile, next, ms.nextFile);
  }

  /** Starting background work: tables added under new numbers, maybe a job, everything else as it
      was. */
  lemma StartKeepsInv(s: State, s': State, tables': map<nat, seq<Entry>>, next': nat, j: Option<Job>, compacted: Option<Compacted>)
    requires Inv(s) && s.db.Some? && s.db.value.job.None?
    requires KeepsBelow(s.disk.tables, tables', s.db.value.nextFile) && s.db.value.nextFile <= next'
    requires s' == s.(disk := s.disk.(tables := tables'),
                      db := Some(s.db.value.(nextFile := next', job := j, compacted := compacted)))
    requires j.Some? ==> j.value.stage.Built? && JobOk(s'.disk, s'.hist, s'.db.value, j.value)
    ensures Inv(s')
  {
    var db := s.db.value;
    DiskStays(s.disk, tables', s.hist, s.diskView, s.limit, db.nextFile);
    FilesStay(s.disk.tables, tables', db.v, db.nextFile, db.nextFile, next');
    ReadersStay(s.disk.tables, tables', s.hist, db.last, db.nextFile, db.readers, next');
  }

  // ---- Flush ----

  /** An edit that changes nothing. */
  lemma ApplyNothing(v: Version)
    requires WellFormed(v)
    ensures ApplyEdit(v, FilesEdit({}, [])) == v
  {
    forall l | 0 <= l < NUM_LEVELS
      ensures ApplyEdit(v, FilesEdit({}, []))[l] == v[l]
    {
      assert LevelAfter(FilesOf(v[l]), FilesEdit({}, []), l) == FilesOf(v[l]);
      ListingIs(FilesOf(v[l]), v[l]);
    }
  }

  lemma LevelsDistinct(v: Version, l: nat)
    requires WellFormed(v) && l < NUM_LEVELS
    ensures DistinctNumbers(FilesOf(v[l]))
  {
    forall f, g | f in FilesOf(v[l]) && g in FilesOf(v[l]) && f.number == g.number
      ensures f == g
    {
      assert At(v, l, f) && At(v, l, g) && PairOk(l, f, l, g);
    }
  }

  lemma FlushApplied(v: Version, level: nat, f: File)
    requires WellFormed(v) && level < NUM_LEVELS && forall l, g :: At(v, l, g) ==> g.number < f.number
    ensures Applied(v, {}, {(level as int, f)}, ApplyEdit(v, FilesEdit({}, [(level as int, f)])))
  {
    var e := FilesEdit({}, [(level as int, f)]);
    forall l | 0 <= l < NUM_LEVELS
      ensures DistinctNumbers(FilesOf(v[l]) + AddedAt(e.added, l))
    {
      LevelsDistinct(v, l);
      assert forall g :: g in FilesOf(v[l]) ==> At(v, l, g);
      assert AddedAt(e.added, l) <= {f};
    }
    ApplyEditApplied(v, e);
    assert AddedPairs(e) == {(level as int, f)};
  }

  /** The flushed version stands for all groups up to the memtable switch. */
  lemma FlushView(hist: seq<Batch>, v: Version, view: View, switched: nat, level: nat, f: File)
    requires HistOk(hist) && ViewOk(hist, v, view) && view.covered <= switched <= |hist|
    requires ValidFile(f) && TableSet(f) == Facts(hist, view.covered, switched)
    requires GoodFlushLevel(v, level, f) && forall l, g :: At(v, l, g) ==> g.number < f.number
    ensures ViewOk(hist, ApplyEdit(v, FilesEdit({}, [(level as int, f)])), View(switched, view.floor))
  {
    var v' := ApplyEdit(v, FilesEdit({}, [(level as int, f)]));
    var c := view.covered;
    FlushApplied(v, level, f);
    FactsSplit(hist, 0, c, switched);
    LaterIsAbove(hist, 0, c, switched);
    forall e, x | e in f.table && x in VersionContents(v)
      ensures e.num > x.num
    {
      assert e in TableSet(f);
      FactRange(hist, c, switched, e);
      FactRange(hist, 0, c, x);
    }
    FlushKeepsWellFormed(v, level, f, v');
    VersionPlusTail(hist, v, view, switched);
    assert VersionContents(v') == Facts(hist, c, switched) + VersionContents(v);
  }

  lemma FlushOnDisk(tables: map<nat, seq<Entry>>, v: Version, next: nat, level: nat, f: File)
    requires WellFormed(v) && FilesOnDisk(tables, v, next) && f.number == next && level < NUM_LEVELS
    ensures FilesOnDisk(tables[f.number := f.table], ApplyEdit(v, FilesEdit({}, [(level as int, f)])), next + 1)
  {
    FlushApplied(v, level, f);
  }

  /** An empty memtable gives no file; the version now stands for its groups too. */
  lemma EmptyFlushView(hist: seq<Batch>, v: Version, view: View, switched: nat)
    requires ViewOk(hist, v, view) && view.covered <= switched <= |hist|
    requires Facts(hist, view.covered, switched) == {}
    ensures ViewOk(hist, ApplyEdit(v, FilesEdit({}, [])), View(switched, view.floor))
    ensures ApplyEdit(v, FilesEdit({}, [])) == v
  {
    ApplyNothing(v);
    FactsSplit(hist, 0, view.covered, switched);
    assert Facts(hist, 0, switched) == Facts(hist, 0, view.covered);
  }

  lemma FlushJobView(hist: seq<Batch>, tables: map<nat, seq<Entry>>, db: Db, level: nat, f: File, edit: Edit,
                     tables': map<nat, seq<Entry>>)
    requires HistOk(hist) && ViewOk(hist, db.v, db.view) && FilesOnDisk(tables, db.v, db.nextFile)
    requires db.view.covered <= db.switched <= |hist|
    requires db.imm == Some(Facts(hist, db.view.covered, db.switched))
    requires db.imm.value != {} ==>
      ValidFile(f) && TableSet(f) == db.imm.value && f.number == db.nextFile && GoodFlushLevel(db.v, level, f)
    requires edit == FilesEdit({}, if db.imm.value == {} then [] else [(level as int, f)])
    requires tables' == if db.imm.value == {} then tables else tables[f.number := f.table]
    ensures ViewOk(hist, ApplyEdit(db.v, edit), View(db.switched, db.view.floor))
    ensures FilesOnDisk(tables', ApplyEdit(db.v, edit), db.nextFile + 1)
  {
    if db.imm.value == {} {
      EmptyFlushView(hist, db.v, db.view, db.switched);
    } else {
      FlushView(hist, db.v, db.view, db.switched, level, f);
      FlushOnDisk(tables, db.v, db.nextFile, level, f);
    }
  }

  lemma StartFlushKeepsInv(s: State, s': State, level: nat, f: File)
    requires Inv(s) && StartFlush(s, s', level, f)
    ensures Inv(s')
  {
    var db, j := s.db.value, s'.db.value.job.value;
    FlushJobView(s.hist, s.disk.tables, db, level, f, j.edit, s'.disk.tables);
    StartKeepsInv(s, s', s'.disk.tables, db.nextFile + 1, Some(j), db.compacted);
  }

  // ---- Trivial move ----

  lemma MoveApplied(v: Version, level: nat, f: File)
    requires WellFormed(v) && level + 1 < NUM_LEVELS && At(v, level, f)
    ensures Applied(v, {(level as int, f.number)}, {(level as int + 1, f)},
                    ApplyEdit(v, FilesEdit({(level as int, f.number)}, [(level as int + 1, f)])))
  {
    var e := FilesEdit({(level as int, f.number)}, [(level as int + 1, f)]);
    forall l | 0 <= l < NUM_LEVELS
      ensures DistinctNumbers(FilesOf(v[l]) + AddedAt(e.added, l))
    {
      LevelsDistinct(v, l);
      assert AddedAt(e.added, l) <= {f};
      forall g | g in FilesOf(v[l])
        ensures g.number == f.number ==> g == f
      {
        assert At(v, l, g) && PairOk(l, g, level, f);
      }
    }
    ApplyEditApplied(v, e);
    assert AddedPairs(e) == {(level as int + 1, f)};
  }

  lemma MoveView(hist: seq<Batch>, tables: map<nat, seq<Entry>>, v: Version, view: View, next: nat, level: nat, f: File, v': Version)
    requires ViewOk(hist, v, view) && FilesOnDisk(tables, v, next) && GoodInputs(v, level, [f], [])
    requires v' == ApplyEdit(v, FilesEdit({(level as int, f.number)}, [(level as int + 1, f)]))
    ensures ViewOk(hist, v', view) && FilesOnDisk(tables, v', next)
  {
    assert At(v, level, f) by { assert f in [f]; }
    MoveApplied(v, level, f);
    TrivialMoveKeepsWellFormed(v, level, f, v');
    forall l, g | At(v', l, g)
      ensures g.number in tables && tables[g.number] == g.table && g.number < next
    {
      assert At(v, l, g) || g == f;
    }
  }

  lemma StartMoveKeepsInv(s: State, s': State, level: nat, f: File)
    requires Inv(s) && StartMove(s, s', level, f)
    ensures Inv(s')
  {
    var db, j := s.db.value, s'.db.value.job.value;
    MoveView(s.hist, s.disk.tables, db.v, db.view, db.nextFile, level, f, j.v);
    StartKeepsInv(s, s', s.disk.tables, db.nextFile, Some(j), None);
  }

  // ---- Compaction ----

  lemma {:induction false} AdditionsAt(level: nat, outs: seq<File>)
    ensures forall p :: p in Additions(level, outs) <==> p.0 == level + 1 && p.1 in outs
  {
    if outs != [] {
      AdditionsAt(level, outs[1..]);
      assert outs == [outs[0]] + outs[1..];
    }
  }

  /** The outputs have numbers of their own. */
  ghost predicate NumberedApart(outs: seq<File>) {
    forall i, j :: 0 <= i < j < |outs| ==> Less(outs[i].largest, outs[j].smallest) && outs[i].number != outs[j].number
  }

  lemma OutputsFitLevel(v: Version, level: nat, in0: seq<File>, in1: seq<File>, outs: seq<File>, l: nat)
    requires Installable(v, level, in0, in1, outs) && NumberedApart(outs) && l < NUM_LEVELS
    ensures DistinctNumbers(FilesOf(v[l]) + AddedAt(Additions(level, outs), l))
  {
    AdditionsAt(level, outs);
    LevelsDistinct(v, l);
    OutputsDistinct(outs);
    forall f, g | f in FilesOf(v[l]) && g in AddedAt(Additions(level, outs), l)
      ensures f.number != g.number
    {
      assert g in outs && At(v, l, f);
    }
  }

  /** No output file takes the place of a deleted input. */
  lemma OutputsNotDeleted(v: Version, level: nat, in0: seq<File>, in1: seq<File>, outs: seq<File>, p: (int, File))
    requires Installable(v, level, in0, in1, outs) && p in Additions(level, outs)
    ensures (p.0, p.1.number) !in InputDeletions(level, in0, in1)
  {
    AdditionsAt(level, outs);
    forall g | g in in0 || g in in1
      ensures g.number != p.1.number
    {
      assert At(v, level, g) || At(v, level + 1, g);
    }
  }

  lemma AdditionsArePairs(level: nat, outs: seq<File>, e: Edit)
    requires e.added == Additions(level, outs)
    ensures AddedPairs(e) == OutputAdditions(level, outs)
  {
    AdditionsAt(level, outs);
    forall p: (int, File) | p.0 == level + 1 && p.1 in outs
      ensures p in OutputAdditions(level, outs)
    {
      assert p == (level as int + 1, p.1);
    }
  }

  lemma CompactionApplied(v: Version, level: nat, in0: seq<File>, in1: seq<File>, outs: seq<File>)
    requires Installable(v, level, in0, in1, outs) && NumberedApart(outs) && level + 1 < NUM_LEVELS
    ensures var e := FilesEdit(InputDeletions(level, in0, in1), Additions(level, outs));
      Applied(v, InputDeletions(level, in0, in1), OutputAdditions(level, outs), ApplyEdit(v, e))
  {
    var e := FilesEdit(InputDeletions(level, in0, in1), Additions(level, outs));
    AdditionsAt(level, outs);
    forall l | 0 <= l < NUM_LEVELS
      ensures DistinctNumbers(FilesOf(v[l]) + AddedAt(e.added, l))
    {
      OutputsFitLevel(v, level, in0, in1, outs, l);
    }
    forall p | p in e.added
      ensures (p.0, p.1.number) !in e.deleted
    {
      OutputsNotDeleted(v, level, in0, in1, outs, p);
    }
    ApplyEditApplied(v, e);
    AdditionsArePairs(level, outs, e);
  }

  lemma OutputsDistinct(outs: seq<File>)
    requires NumberedApart(outs)
    ensures forall f, g :: f in outs && g in outs && f.number == g.number ==> f == g
  {
  }

  lemma OutputsOnDisk(tables: map<nat, seq<Entry>>, outs: seq<File>, tables': map<nat, seq<Entry>>, next: nat)
    requires TablesAdded(tables, outs, tables') && forall f :: f in outs ==> next <= f.number
    ensures KeepsBelow(tables, tables', next)
  {
  }

  lemma StartCompactionKeepsInv(s: State, s': State, p: Compacted)
    requires Inv(s) && StartCompaction(s, s', p)
    ensures Inv(s')
  {
    OutputsOnDisk(s.disk.tables, p.outs, s'.disk.tables, s.db.value.nextFile);
    StartKeepsInv(s, s', s'.disk.tables, s'.db.value.nextFile, None, Some(p));
  }

  // ---- MANIFEST ----

  lemma ReplayAppend(m: seq<Edit>, e: Edit)
    ensures var before, after := Replay(m), Replay(m + [e]);
      && after.v == ApplyEdit(before.v, e)
      && after.logNumber == e.logNumber.GetOr(before.logNumber)
      && after.nextFile == e.nextFile.GetOr(before.nextFile)
      && after.lastSequence == e.lastSequence.GetOr(before.lastSequence)
  {
    assert (m + [e])[..|m|] == m;
  }

  /** The log the memtable is backed by holds exactly the groups after the switch. */
  lemma LastLog(s: State)
    requires Inv(s) && s.db.Some?
    ensures Tail(s.disk.logs, s.db.value.logfile, s.limit) == s.hist[s.db.value.switched..]
  {
    var db := s.db.value;
    assert Tail(s.disk.logs, db.logfile, db.logfile) == [];
    assert Tail(s.disk.logs, db.logfile, s.limit) == Tail(s.disk.logs, db.logfile, db.logfile) + s.disk.logs[db.logfile];
  }

  lemma LogEditDisk(s: State, s': State)
    requires Inv(s) && LogEdit(s, s')
    ensures DiskOk(s'.disk, s'.hist, s'.diskView, s'.limit)
    ensures ManifestOk(s'.disk, s'.diskView, s'.db.value)
  {
    ReplayAppend(s.disk.manifests[s.disk.current], s.db.value.job.value.edit);
    EndMonotone(s.hist, s.acked, |s.hist|);
    LastLog(s);
  }

  lemma JobLogged(disk: Disk, disk': Disk, hist: seq<Batch>, db: Db, j: Job)
    requires JobOk(disk, hist, db, j) && j.stage.Prepared? && disk' == disk.(manifests := disk'.manifests)
    ensures JobOk(disk', hist, db.(job := Some(j.(stage := Logged))), j.(stage := Logged))
  {
  }

  lemma LogEditKeepsInv(s: State, s': State)
    requires Inv(s) && LogEdit(s, s')
    ensures Inv(s')
  {
    LogEditDisk(s, s');
    JobLogged(s.disk, s'.disk, s.hist, s.db.value, s.db.value.job.value);
  }

  lemma InstallVersionKeepsInv(s: State, s': State)
    requires Inv(s) && InstallVersion(s, s')
    ensures Inv(s')
  {
    var db, db', j := s.db.value, s'.db.value, s.db.value.job.value;
    assert PreparedOk(s.disk, s.hist, db, j);
    assert SnapshotsOk(db', j.view.floor);
    assert MemtablesOk(s'.disk, s'.hist, s'.limit, db');
  }

  // ---- Obsolete files ----

  lemma RemoveTableKeepsInv(s: State, s': State, n: nat)
    requires Inv(s) && RemoveTable(s, s', n)
    ensures Inv(s')
  {
    var db, tables' := s.db.value, s'.disk.tables;
    UnusedFileGone(s.disk.tables, n, db.v, db.nextFile);
    UnusedFileGone(s.disk.tables, n, db.v, Replay(s.disk.manifests[s.disk.current]).nextFile);
    forall r | r in db.readers
      ensures ReaderOk(tables', s.hist, db.last, db.nextFile, r)
    {
      assert ReaderOk(s.disk.tables, s.hist, db.last, db.nextFile, r);
      UnusedFileGone(s.disk.tables, n, r.v, db.nextFile);
    }
  }

  lemma UnusedFileGone(tables: map<nat, seq<Entry>>, n: nat, v: Version, next: nat)
    requires FilesOnDisk(tables, v, next) && forall l, f :: At(v, l, f) ==> f.number != n
    ensures FilesOnDisk(tables - {n}, v, next)
  {
  }

  lemma RemoveLogKeepsInv(s: State, s': State, n: nat)
    requires Inv(s) && RemoveLog(s, s', n)
    ensures Inv(s')
  {
    var ms := Replay(s.disk.manifests[s.disk.current]);
    LogNumberBound(s);
    TailLocal(s.disk.logs, s'.disk.logs, ms.logNumber, s.limit);
    if s.db.value.job.Some? {
      assert JobOk(s'.disk, s'.hist, s'.db.value, s.db.value.job.value);
    }
  }

  lemma RemoveManifestKeepsInv(s: State, s': State, n: nat)
    requires Inv(s) && RemoveManifest(s, s', n)
    ensures Inv(s')
  {
    assert s'.disk.manifests[s.disk.current] == s.disk.manifests[s.disk.current];
    if s.db.value.job.Some? {
      assert JobOk(s'.disk, s'.hist, s'.db.value, s.db.value.job.value);
    }
  }

  lemma WriteOrphanTableKeepsInv(s: State, s': State, n: nat, t: seq<Entry>)
    requires Inv(s) && WriteOrphanTable(s, s', n, t)
    ensures Inv(s')
  {
    var next := if s.db.Some? then s.db.value.nextFile else Replay(s.disk.manifests[s.disk.current]).nextFile;
    var tables' := s'.disk.tables;
    DiskStays(s.disk, tables', s.hist, s.diskView, s.limit, next);
    if s.db.Some? {
      var db := s.db.value;
      FilesStay(s.disk.tables, tables', db.v, next, next, next);
      ReadersStay(s.disk.tables, tables', s.hist, db.last, next, db.readers, next);
      if db.job.Some? {
        JobStays(s.disk, tables', s.hist, db, db.job.value);
      }
    }
  }

  lemma JobStays(disk: Disk, tables': map<nat, seq<Entry>>, hist: seq<Batch>, db: Db, j: Job)
    requires JobOk(disk, hist, db, j) && KeepsBelow(disk.tables, tables', db.nextFile)
    ensures JobOk(disk.(tables := tables'), hist, db, j)
  {
    FilesStay(disk.tables, tables', j.v, db.nextFile, db.nextFile, db.nextFile);
    if !j.stage.Built? {
      FilesStay(disk.tables, tables', j.v, j.edit.nextFile.value, db.nextFile, j.edit.nextFile.value);
    }
  }

  lemma WriteOrphanLogKeepsInv(s: State, s': State, n: nat)
    requires Inv(s) && WriteOrphanLog(s, s', n)
    ensures Inv(s')
  {
    SwitchDisk(s.disk, s.hist, s.diskView, s.limit, n);
  }

  lemma WriteOrphanManifestKeepsInv(s: State, s': State, n: nat, edits: seq<Edit>)
    requires Inv(s) && WriteOrphanManifest(s, s', n, edits)
    ensures Inv(s')
  {
    assert s'.disk.manifests[s.disk.current] == s.disk.manifests[s.disk.current];
  }
}
