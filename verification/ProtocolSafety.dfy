/** The invariant of the protocol and its preservation by every step. */
module ProtocolSafety {
  import opened DbFormat
  import opened History
  import opened SortedRuns
  import opened Versions
  import opened InputSelection
  import opened Compaction
  import opened CompactionMeaning
  import opened Installing
  import opened FlushInside
  import opened VersionBuilder
  import opened GroupLog
  import opened Protocol

  // ---- Invariant ----

  /** Every file of v has its table on disk, under a number below next. */
  ghost predicate FilesOnDisk(tables: map<nat, seq<Entry>>, v: Version, next: nat) {
    forall l, f :: At(v, l, f) ==> f.number in tables && tables[f.number] == f.table && f.number < next
  }

  /** v is well formed, holds only facts of the covered groups, and reads like them. */
  ghost predicate ViewOk(hist: seq<Batch>, v: Version, view: View) {
    && view.covered <= |hist|
    && WellFormed(v)
    && VersionContents(v) <= Facts(hist, 0, view.covered)
    && ReadsAlike(VersionContents(v), Facts(hist, 0, view.covered), view.floor)
  }

  ghost predicate HistOk(hist: seq<Batch>) {
    Consecutive(hist) && End(hist, |hist|) < MAX_SEQUENCE
  }

  /** What recovery needs to find on disk. */
  ghost predicate DiskOk(disk: Disk, hist: seq<Batch>, view: View, limit: nat) {
    && disk.current in disk.manifests
    && (forall n :: n in disk.logs ==> n < limit)
    && var ms := Replay(disk.manifests[disk.current]);
       && ViewOk(hist, ms.v, view)
       && FilesOnDisk(disk.tables, ms.v, ms.nextFile)
       && disk.current < ms.nextFile && ms.logNumber <= limit
       && Tail(disk.logs, ms.logNumber, limit) == hist[view.covered..]
       && End(hist, view.covered) <= ms.lastSequence <= End(hist, |hist|)
       && view.floor <= ms.lastSequence
  }

  /** The group in flight: logged, it is the one unacknowledged group of the history, and part of
      it is in the memtable; not yet logged, it has left no trace. */
  ghost predicate InflightOk(hist: seq<Batch>, acked: nat, db: Db, w: Inflight)
    requires db.switched <= acked <= |hist|
  {
    if w.appended then
      && |hist| == acked + 1 && hist[acked] == w.batch && w.inserted <= |w.batch.ops|
      && db.mem == Facts(hist, db.switched, acked) + Inserted(w)
    else
      && |hist| == acked && w.inserted == 0 && db.mem == Facts(hist, db.switched, acked)
      && w.batch.first == db.last + 1 && db.last + |w.batch.ops| < MAX_SEQUENCE
  }

  ghost function Inserted(w: Inflight): set<Entry> {
    set k | 0 <= k < w.inserted && k < |w.batch.ops| :: BatchEntry(w.batch, k)
  }

  ghost predicate WriterOk(hist: seq<Batch>, acked: nat, db: Db) {
    && db.switched <= acked <= |hist|
    && db.last == End(hist, acked)
    && (db.inflight.None? ==> |hist| == acked && db.mem == Facts(hist, db.switched, acked))
    && (db.inflight.Some? ==> InflightOk(hist, acked, db, db.inflight.value))
  }

  ghost predicate MemtablesOk(disk: Disk, hist: seq<Batch>, limit: nat, db: Db) {
    && db.view.covered <= db.switched <= |hist|
    && (db.imm.None? ==> db.view.covered == db.switched)
    && (db.imm.Some? ==> db.imm.value == Facts(hist, db.view.covered, db.switched))
    && db.logfile in disk.logs && disk.logs[db.logfile] == hist[db.switched..]
    && limit == db.logfile + 1 && db.logNumber <= db.logfile < db.nextFile
  }

  /** The layers a reader searches in order: memtable, immutable memtable, version. */
  ghost predicate Layered(mem: set<Entry>, imm: set<Entry>, v: Version) {
    && WellFormed(v)
    && Consistent(mem + imm + VersionContents(v))
    && Above(mem, imm + VersionContents(v)) && Above(imm, VersionContents(v))
  }

  ghost function ReaderContents(r: Reader): set<Entry> {
    r.mem + r.imm + VersionContents(r.v)
  }

  ghost predicate ReaderOk(tables: map<nat, seq<Entry>>, hist: seq<Batch>, last: nat, nextFile: nat, r: Reader) {
    && r.at <= last
    && Layered(r.mem, r.imm, r.v)
    && FilesOnDisk(tables, r.v, nextFile)
    && ReaderContents(r) <= Facts(hist, 0, |hist|)
    && (forall e :: e in r.imm + VersionContents(r.v) ==> e.num <= last)
    && forall k :: Read(ReaderContents(r), k, r.at) == Read(Facts(hist, 0, |hist|), k, r.at)
  }

  ghost predicate ReadersOk(tables: map<nat, seq<Entry>>, hist: seq<Batch>, last: nat, nextFile: nat, readers: seq<Reader>) {
    forall r :: r in readers ==> ReaderOk(tables, hist, last, nextFile, r)
  }

  /** Readers of the current memtable hold what it holds. */
  ghost predicate SharedOk(mem: set<Entry>, readers: seq<Reader>) {
    forall r :: r in readers && r.shared ==> r.mem == mem
  }

  ghost predicate SnapshotsOk(db: Db, floor: nat) {
    && floor <= db.last
    && (forall i :: 0 <= i < |db.snapshots| ==> floor <= db.snapshots[i] <= db.last)
    && (forall i, j :: 0 <= i < j < |db.snapshots| ==> db.snapshots[i] <= db.snapshots[j])
  }

  ghost predicate JobOk(disk: Disk, hist: seq<Batch>, db: Db, j: Job) {
    && ViewOk(hist, j.v, j.view)
    && FilesOnDisk(disk.tables, j.v, db.nextFile)
    && |db.v| == NUM_LEVELS && j.v == ApplyEdit(db.v, j.edit)
    && j.view.covered == (if j.flush then db.switched else db.view.covered)
    && (j.flush ==> db.imm.Some?)
    && SnapshotsOk(db, j.view.floor)
    && (!j.stage.Built? ==> PreparedOk(disk, hist, db, j))
  }

  ghost predicate PreparedOk(disk: Disk, hist: seq<Batch>, db: Db, j: Job)
    requires j.view.covered <= |hist|
  {
    && j.edit.logNumber == Some(if j.flush then db.logfile else db.logNumber)
    && j.edit.nextFile.Some? && j.edit.nextFile.value <= db.nextFile
    && FilesOnDisk(disk.tables, j.v, j.edit.nextFile.value)
    && disk.current < j.edit.nextFile.value
    && j.edit.lastSequence.Some? && j.edit.lastSequence.value <= db.last
    && j.view.floor <= j.edit.lastSequence.value
    && End(hist, j.view.covered) <= j.edit.lastSequence.value
  }

  /** How the current MANIFEST relates to the state in memory. */
  ghost predicate ManifestOk(disk: Disk, diskView: View, db: Db)
    requires disk.current in disk.manifests
  {
    var ms := Replay(disk.manifests[disk.current]);
    && disk.current < ms.nextFile <= db.nextFile
    && if db.job.Some? && db.job.value.stage.Logged? then
         var j := db.job.value;
         ms.v == j.v && diskView == j.view && ms.logNumber == j.edit.logNumber.GetOr(0)
       else
         ms.v == db.v && diskView == db.view && ms.logNumber == db.logNumber
  }

  ghost predicate UpOk(s: State, db: Db)
    requires s.disk.current in s.disk.manifests
  {
    && WriterOk(s.hist, s.acked, db)
    && MemtablesOk(s.disk, s.hist, s.limit, db)
    && ViewOk(s.hist, db.v, db.view)
    && FilesOnDisk(s.disk.tables, db.v, db.nextFile)
    && SnapshotsOk(db, db.view.floor)
    && ManifestOk(s.disk, s.diskView, db)
    && ReadersOk(s.disk.tables, s.hist, db.last, db.nextFile, db.readers)
    && SharedOk(db.mem, db.readers)
    && (db.job.Some? ==> JobOk(s.disk, s.hist, db, db.job.value))
  }

  ghost predicate Inv(s: State) {
    && HistOk(s.hist)
    && s.acked <= |s.hist| <= s.acked + 1
    && DiskOk(s.disk, s.hist, s.diskView, s.limit)
    && (s.db.Some? ==> UpOk(s, s.db.value))
  }

  // ---- Growing history ----

  lemma ViewGrows(hist: seq<Batch>, b: Batch, v: Version, view: View)
    requires ViewOk(hist, v, view)
    ensures ViewOk(hist + [b], v, view)
  {
    FactsPrefix(hist, [b], 0, view.covered);
  }

  /** A new group, numbered after the others, is invisible to readers at or before the end. */
  lemma GroupInvisible(hist: seq<Batch>, b: Batch, k: UserKey, at: nat)
    requires Consecutive(hist + [b]) && at <= End(hist, |hist|)
    ensures Read(Facts(hist + [b], 0, |hist| + 1), k, at) == Read(Facts(hist, 0, |hist|), k, at)
  {
    var h := hist + [b];
    FactsSplit(h, 0, |hist|, |hist| + 1);
    FactsPrefix(hist, [b], 0, |hist|);
    FactsConsistent(h, 0, |h|);
    EndPrefix(hist, [b], |hist|);
    forall e | e in Facts(h, |hist|, |h|)
      ensures e.num > at
    {
      FactRange(h, |hist|, |h|, e);
    }
    ReadIgnoresNewer(Facts(hist, 0, |hist|), Facts(h, |hist|, |h|), k, at);
  }

  lemma ConsecutiveAppend(hist: seq<Batch>, b: Batch)
    requires Consecutive(hist) && b.first == End(hist, |hist|) + 1
    ensures Consecutive(hist + [b])
    ensures End(hist + [b], |hist| + 1) == End(hist, |hist|) + |b.ops|
  {
    EndPrefix(hist, [b], |hist|);
    forall i | 0 <= i < |hist + [b]|
      ensures FollowsOn(hist + [b], i)
    {
      FollowsOnAppend(hist, b, i);
    }
  }

  lemma FollowsOnAppend(hist: seq<Batch>, b: Batch, i: nat)
    requires i <= |hist| && b.first == End(hist, |hist|) + 1
    requires i < |hist| ==> FollowsOn(hist, i)
    ensures FollowsOn(hist + [b], i)
  {
    EndPrefix(hist, [b], i);
  }

  // ---- Steps that only touch memory ----

  /** A job does not depend on the memtable, the readers or the writer in flight. */
  lemma JobFrame(disk: Disk, hist: seq<Batch>, db: Db, db': Db, j: Job)
    requires JobOk(disk, hist, db, j)
    requires db' == db.(mem := db'.mem, inflight := db'.inflight, last := db'.last, snapshots := db'.snapshots,
                        readers := db'.readers, job := db'.job)
    requires db.last <= db'.last && SnapshotsOk(db', j.view.floor)
    ensures JobOk(disk, hist, db', j)
  {
  }

  lemma ReadersFrame(tables: map<nat, seq<Entry>>, hist: seq<Batch>, last: nat, nextFile: nat, readers: seq<Reader>,
                     last': nat, nextFile': nat)
    requires ReadersOk(tables, hist, last, nextFile, readers) && last <= last' && nextFile <= nextFile'
    ensures ReadersOk(tables, hist, last', nextFile', readers)
  {
    forall r | r in readers
      ensures ReaderOk(tables, hist, last', nextFile', r)
    {
      assert ReaderOk(tables, hist, last, nextFile, r);
    }
  }

  /** Later snapshots are at the last sequence number; dropping some keeps the order. */
  lemma SnapshotsGrow(db: Db, db': Db, floor: nat)
    requires SnapshotsOk(db, floor) && db'.snapshots == db.snapshots + [db.last] && db'.last == db.last
    ensures SnapshotsOk(db', floor)
  {
  }

  lemma SnapshotsShrink(db: Db, db': Db, floor: nat, i: nat)
    requires SnapshotsOk(db, floor) && i < |db.snapshots| && db'.last == db.last
    requires db'.snapshots == db.snapshots[..i] + db.snapshots[i + 1..]
    ensures SnapshotsOk(db', floor)
  {
    forall a | 0 <= a < |db'.snapshots|
      ensures db'.snapshots[a] == db.snapshots[if a < i then a else a + 1]
    {
    }
  }

  lemma BeginWriteKeepsInv(s: State, s': State, ops: seq<(UserKey, Op)>)
    requires Inv(s) && BeginWrite(s, s', ops)
    ensures Inv(s')
  {
  }

  lemma InsertNextWriter(hist: seq<Batch>, acked: nat, db: Db, db': Db, w: Inflight)
    requires WriterOk(hist, acked, db) && db.inflight == Some(w) && w.appended && w.inserted < |w.batch.ops|
    requires db' == db.(mem := db.mem + {BatchEntry(w.batch, w.inserted)}, readers := db'.readers, inflight := Some(w.(inserted := w.inserted + 1)))
    ensures WriterOk(hist, acked, db')
  {
    assert Inserted(w.(inserted := w.inserted + 1)) == Inserted(w) + {BatchEntry(w.batch, w.inserted)};
  }

  /** The entry inserted is one of the history, and newer than all a reader may see. */
  lemma InsertedIsNewer(hist: seq<Batch>, acked: nat, db: Db, w: Inflight)
    requires Consecutive(hist) && WriterOk(hist, acked, db) && db.inflight == Some(w) && w.appended && w.inserted < |w.batch.ops|
    ensures BatchEntry(w.batch, w.inserted) in Facts(hist, 0, |hist|) && BatchEntry(w.batch, w.inserted).num > db.last
  {
    assert FollowsOn(hist, acked);
    assert BatchEntry(w.batch, w.inserted) in GroupFacts(hist[acked]);
    assert Facts(hist, 0, acked + 1) == Facts(hist, 0, acked) + GroupFacts(hist[acked]);
  }

  /** A reader does not notice that the memtable it searches takes a newer entry. */
  lemma ReaderTakesEntry(tables: map<nat, seq<Entry>>, hist: seq<Batch>, last: nat, nextFile: nat, r: Reader, e: Entry)
    requires ReaderOk(tables, hist, last, nextFile, r) && Consecutive(hist) && e in Facts(hist, 0, |hist|) && e.num > last
    ensures ReaderOk(tables, hist, last, nextFile, r.(mem := r.mem + {e}))
  {
    var r' := r.(mem := r.mem + {e});
    FactsConsistent(hist, 0, |hist|);
    assert ReaderContents(r') == ReaderContents(r) + {e};
    SubsetConsistent(ReaderContents(r'), Facts(hist, 0, |hist|));
    forall k
      ensures Read(ReaderContents(r'), k, r.at) == Read(Facts(hist, 0, |hist|), k, r.at)
    {
      ReadIgnoresNewer(ReaderContents(r), {e}, k, r.at);
    }
  }

  lemma ReadersTakeEntry(tables: map<nat, seq<Entry>>, hist: seq<Batch>, last: nat, nextFile: nat, readers: seq<Reader>,
                         mem: set<Entry>, e: Entry)
    requires ReadersOk(tables, hist, last, nextFile, readers) && SharedOk(mem, readers)
    requires Consecutive(hist) && e in Facts(hist, 0, |hist|) && e.num > last
    ensures ReadersOk(tables, hist, last, nextFile, Refilled(readers, mem + {e}))
    ensures SharedOk(mem + {e}, Refilled(readers, mem + {e}))
  {
    forall q | q in Refilled(readers, mem + {e})
      ensures ReaderOk(tables, hist, last, nextFile, q) && (q.shared ==> q.mem == mem + {e})
    {
      var r :| r in readers && q == if r.shared then r.(mem := mem + {e}) else r;
      assert ReaderOk(tables, hist, last, nextFile, r);
      if r.shared {
        ReaderTakesEntry(tables, hist, last, nextFile, r, e);
      }
    }
  }

  lemma InsertNextUp(s: State, s': State)
    requires Inv(s) && InsertNext(s, s')
    ensures UpOk(s', s'.db.value)
  {
    var db, db', w := s.db.value, s'.db.value, s.db.value.inflight.value;
    if db.job.Some? {
      JobFrame(s.disk, s.hist, db, db', db.job.value);
    }
    InsertNextWriter(s.hist, s.acked, db, db', w);
    InsertedIsNewer(s.hist, s.acked, db, w);
    ReadersTakeEntry(s.disk.tables, s.hist, db.last, db.nextFile, db.readers, db.mem, BatchEntry(w.batch, w.inserted));
  }

  lemma InsertNextKeepsInv(s: State, s': State)
    requires Inv(s) && InsertNext(s, s')
    ensures Inv(s')
  {
    InsertNextUp(s, s');
  }

  /** With all its entries inserted, the group is one of the memtable's groups. */
  lemma AcknowledgeWriter(hist: seq<Batch>, acked: nat, db: Db, db': Db, w: Inflight)
    requires WriterOk(hist, acked, db) && db.inflight == Some(w) && w.appended && w.inserted == |w.batch.ops|
    requires db' == db.(last := db.last + |w.batch.ops|, inflight := None)
    ensures WriterOk(hist, acked + 1, db')
  {
    assert Inserted(w) == GroupFacts(hist[acked]);
    assert Facts(hist, db.switched, acked + 1) == Facts(hist, db.switched, acked) + GroupFacts(hist[acked]);
  }

  lemma AcknowledgeUp(s: State, s': State)
    requires s.disk.current in s.disk.manifests && Acknowledge(s, s') && UpOk(s, s.db.value)
    ensures UpOk(s', s'.db.value)
  {
    var db, db' := s.db.value, s'.db.value;
    AcknowledgeWriter(s.hist, s.acked, db, db', db.inflight.value);
    ReadersFrame(s.disk.tables, s.hist, db.last, db.nextFile, db.readers, db'.last, db'.nextFile);
    if db.job.Some? {
      AcknowledgeJob(s.disk, s.hist, db, db', db.job.value);
    }
  }

  lemma AcknowledgeJob(disk: Disk, hist: seq<Batch>, db: Db, db': Db, j: Job)
    requires JobOk(disk, hist, db, j) && db.last <= db'.last && db' == db.(last := db'.last, inflight := db'.inflight)
    ensures JobOk(disk, hist, db', j)
  {
    JobFrame(disk, hist, db, db', j);
  }

  lemma AcknowledgeKeepsInv(s: State, s': State)
    requires Inv(s) && Acknowledge(s, s')
    ensures Inv(s')
  {
    AcknowledgeUp(s, s');
  }

  lemma TakeSnapshotKeepsInv(s: State, s': State)
    requires Inv(s) && TakeSnapshot(s, s')
    ensures Inv(s')
  {
    var db, db' := s.db.value, s'.db.value;
    SnapshotsGrow(db, db', db.view.floor);
    if db.job.Some? {
      SnapshotsGrow(db, db', db.job.value.view.floor);
      JobFrame(s.disk, s.hist, db, db', db.job.value);
    }
  }

  lemma ReleaseSnapshotKeepsInv(s: State, s': State, i: nat)
    requires Inv(s) && ReleaseSnapshot(s, s', i)
    ensures Inv(s')
  {
    var db, db' := s.db.value, s'.db.value;
    SnapshotsShrink(db, db', db.view.floor, i);
    if db.job.Some? {
      SnapshotsShrink(db, db', db.job.value.view.floor, i);
      JobFrame(s.disk, s.hist, db, db', db.job.value);
    }
  }

  /** Nothing but the readers themselves depends on the readers. */
  lemma ReadersReplaced(s: State, s': State)
    requires Inv(s) && s.db.Some? && s'.db.Some? && s' == s.(db := Some(s.db.value.(readers := s'.db.value.readers)))
    requires ReadersOk(s.disk.tables, s.hist, s.db.value.last, s.db.value.nextFile, s'.db.value.readers)
    requires SharedOk(s.db.value.mem, s'.db.value.readers)
    ensures Inv(s')
  {
    if s.db.value.job.Some? {
      JobFrame(s.disk, s.hist, s.db.value, s'.db.value, s.db.value.job.value);
    }
  }

  lemma CloseReaderKeepsInv(s: State, s': State, i: nat)
    requires Inv(s) && CloseReader(s, s', i)
    ensures Inv(s')
  {
    assert forall r :: r in s'.db.value.readers ==> r in s.db.value.readers;
    ReadersReplaced(s, s');
  }

  lemma GiveUpCompactionKeepsInv(s: State, s': State)
    requires Inv(s) && GiveUpCompaction(s, s')
    ensures Inv(s')
  {
    if s.db.value.job.Some? {
      assert JobOk(s'.disk, s'.hist, s'.db.value, s.db.value.job.value);
    }
  }

  lemma PrepareEditKeepsInv(s: State, s': State)
    requires Inv(s) && PrepareEdit(s, s')
    ensures Inv(s')
  {
    var db, j, j' := s.db.value, s.db.value.job.value, s'.db.value.job.value;
    EndMonotone(s.hist, j.view.covered, s.acked);
    SameFiles(db.v, j.edit, j'.edit);
    assert PreparedOk(s'.disk, s'.hist, s'.db.value, j');
  }

  /** Only the file part of an edit matters for the version. */
  lemma SameFiles(v: Version, e: Edit, e': Edit)
    requires |v| == NUM_LEVELS && e.deleted == e'.deleted && e.added == e'.added
    ensures ApplyEdit(v, e) == ApplyEdit(v, e')
  {
    forall l | 0 <= l < NUM_LEVELS
      ensures ApplyEdit(v, e)[l] == ApplyEdit(v, e')[l]
    {
      assert LevelAfter(FilesOf(v[l]), e, l) == LevelAfter(FilesOf(v[l]), e', l);
    }
  }

  lemma CrashKeepsInv(s: State, s': State)
    requires Inv(s) && Crash(s, s')
    ensures Inv(s')
  {
  }

  // ---- Steps on the log ----

  lemma TailAppend(logs: map<nat, seq<Batch>>, lo: nat, n: nat, b: Batch)
    requires n in logs && lo <= n
    ensures Tail(logs[n := logs[n] + [b]], lo, n + 1) == Tail(logs, lo, n + 1) + [b]
  {
    TailLocal(logs, logs[n := logs[n] + [b]], lo, n);
  }

  lemma LogNumberBound(s: State)
    requires Inv(s) && s.db.Some?
    ensures s.db.value.logNumber <= Replay(s.disk.manifests[s.disk.current]).logNumber <= s.db.value.logfile
  {
  }

  lemma SuffixAppend(hist: seq<Batch>, b: Batch, c: nat)
    requires c <= |hist|
    ensures (hist + [b])[c..] == hist[c..] + [b]
  {
  }

  lemma AppendDisk(disk: Disk, hist: seq<Batch>, view: View, n: nat, b: Batch)
    requires DiskOk(disk, hist, view, n + 1) && HistOk(hist + [b])
    requires n in disk.logs && Replay(disk.manifests[disk.current]).logNumber <= n
    ensures DiskOk(disk.(logs := disk.logs[n := disk.logs[n] + [b]]), hist + [b], view, n + 1)
  {
    var ms := Replay(disk.manifests[disk.current]);
    TailAppend(disk.logs, ms.logNumber, n, b);
    ViewGrows(hist, b, ms.v, view);
    EndPrefix(hist, [b], view.covered);
    EndPrefix(hist, [b], |hist|);
    EndMonotone(hist + [b], |hist|, |hist + [b]|);
    SuffixAppend(hist, b, view.covered);
  }

  lemma AppendWriter(hist: seq<Batch>, acked: nat, db: Db, w: Inflight)
    requires WriterOk(hist, acked, db) && db.inflight == Some(w) && !w.appended
    ensures WriterOk(hist + [w.batch], acked, db.(inflight := Some(w.(appended := true))))
  {
    EndPrefix(hist, [w.batch], acked);
    FactsPrefix(hist, [w.batch], db.switched, acked);
    assert Inserted(w.(appended := true)) == {};
  }

  lemma AppendMemtables(disk: Disk, hist: seq<Batch>, limit: nat, db: Db, b: Batch, inflight: Option<Inflight>)
    requires MemtablesOk(disk, hist, limit, db)
    ensures MemtablesOk(disk.(logs := disk.logs[db.logfile := disk.logs[db.logfile] + [b]]), hist + [b], limit, db.(inflight := inflight))
  {
    FactsPrefix(hist, [b], db.view.covered, db.switched);
    SuffixAppend(hist, b, db.switched);
  }

  lemma JobGrows(disk: Disk, disk': Disk, hist: seq<Batch>, b: Batch, db: Db, db': Db, j: Job)
    requires JobOk(disk, hist, db, j)
    requires disk' == disk.(logs := disk'.logs)
    requires db' == db.(inflight := db'.inflight)
    ensures JobOk(disk', hist + [b], db', j)
  {
    ViewGrows(hist, b, j.v, j.view);
    EndPrefix(hist, [b], j.view.covered);
  }

  lemma ReadersGrow(tables: map<nat, seq<Entry>>, hist: seq<Batch>, b: Batch, last: nat, nextFile: nat, readers: seq<Reader>)
    requires ReadersOk(tables, hist, last, nextFile, readers) && Consecutive(hist + [b]) && last <= End(hist, |hist|)
    ensures ReadersOk(tables, hist + [b], last, nextFile, readers)
  {
    forall r | r in readers
      ensures ReaderOk(tables, hist + [b], last, nextFile, r)
    {
      assert ReaderOk(tables, hist, last, nextFile, r);
      FactsPrefix(hist, [b], 0, |hist|);
      forall k
        ensures Read(ReaderContents(r), k, r.at) == Read(Facts(hist + [b], 0, |hist + [b]|), k, r.at)
      {
        GroupInvisible(hist, b, k, r.at);
      }
    }
  }

  lemma AppendDiskStep(s: State, s': State)
    requires Inv(s) && AppendRecord(s, s') && HistOk(s'.hist)
    ensures DiskOk(s'.disk, s'.hist, s'.diskView, s'.limit)
  {
    AppendDisk(s.disk, s.hist, s.diskView, s.db.value.logfile, s.db.value.inflight.value.batch);
  }

  lemma AppendUp(s: State, s': State)
    requires Inv(s) && AppendRecord(s, s') && HistOk(s'.hist)
    ensures s'.disk.current in s'.disk.manifests && UpOk(s', s'.db.value)
  {
    var db, db' := s.db.value, s'.db.value;
    var b := db.inflight.value.batch;
    AppendWriter(s.hist, s.acked, db, db.inflight.value);
    AppendMemtables(s.disk, s.hist, s.limit, db, b, db'.inflight);
    ViewGrows(s.hist, b, db.v, db.view);
    ReadersGrow(s.disk.tables, s.hist, b, db.last, db.nextFile, db.readers);
    if db.job.Some? {
      JobGrows(s.disk, s'.disk, s.hist, b, db, db', db.job.value);
    }
  }

  lemma AppendRecordKeepsInv(s: State, s': State)
    requires Inv(s) && AppendRecord(s, s')
    ensures Inv(s')
  {
    ConsecutiveAppend(s.hist, s.db.value.inflight.value.batch);
    AppendDiskStep(s, s');
    AppendUp(s, s');
  }

  /** A new empty log beyond all others adds no records. */
  lemma TailSkipsEmpty(logs: map<nat, seq<Batch>>, lo: nat, limit: nat, n: nat)
    requires lo <= limit <= n && forall m :: m in logs ==> m < limit
    ensures Tail(logs[n := []], lo, n + 1) == Tail(logs, lo, limit)
  {
    var logs' := logs[n := []];
    TailSplit(logs', lo, limit, n + 1);
    TailEmpty(logs', limit, n + 1);
    TailLocal(logs, logs', lo, limit);
  }

  lemma SwitchDisk(disk: Disk, hist: seq<Batch>, view: View, limit: nat, n: nat)
    requires DiskOk(disk, hist, view, limit) && n >= limit
    ensures DiskOk(disk.(logs := disk.logs[n := []]), hist, view, n + 1)
  {
    TailSkipsEmpty(disk.logs, Replay(disk.manifests[disk.current]).logNumber, limit, n);
  }

  lemma JobSwitched(disk: Disk, disk': Disk, hist: seq<Batch>, db: Db, db': Db, j: Job)
    requires JobOk(disk, hist, db, j) && !j.flush && disk' == disk.(logs := disk'.logs)
    requires db' == db.(mem := db'.mem, imm := db'.imm, switched := db'.switched, readers := db'.readers, logfile := db'.logfile, nextFile := db'.nextFile)
    requires db.nextFile <= db'.nextFile
    ensures JobOk(disk', hist, db', j)
  {
  }

  lemma SwitchMemtables(s: State, s': State)
    requires Inv(s) && SwitchMemtable(s, s')
    ensures MemtablesOk(s'.disk, s'.hist, s'.limit, s'.db.value)
    ensures WriterOk(s'.hist, s'.acked, s'.db.value)
  {
    assert s.hist[s.acked..] == [];
  }

  lemma ReadersFreeze(tables: map<nat, seq<Entry>>, hist: seq<Batch>, last: nat, nextFile: nat, readers: seq<Reader>)
    requires ReadersOk(tables, hist, last, nextFile, readers)
    ensures ReadersOk(tables, hist, last, nextFile, Frozen(readers)) && SharedOk({}, Frozen(readers))
  {
    forall q | q in Frozen(readers)
      ensures ReaderOk(tables, hist, last, nextFile, q) && !q.shared
    {
      var r :| r in readers && q == r.(shared := false);
      assert ReaderOk(tables, hist, last, nextFile, r);
      assert ReaderContents(q) == ReaderContents(r);
    }
  }

  lemma SwitchMemtableUp(s: State, s': State)
    requires Inv(s) && SwitchMemtable(s, s')
    ensures UpOk(s', s'.db.value)
  {
    var db, db' := s.db.value, s'.db.value;
    SwitchMemtables(s, s');
    ReadersFreeze(s.disk.tables, s.hist, db.last, db.nextFile, db.readers);
    ReadersFrame(s.disk.tables, s.hist, db.last, db.nextFile, db'.readers, db'.last, db'.nextFile);
    if db.job.Some? {
      JobSwitched(s.disk, s'.disk, s.hist, db, db', db.job.value);
    }
  }

  lemma SwitchMemtableKeepsInv(s: State, s': State)
    requires Inv(s) && SwitchMemtable(s, s')
    ensures Inv(s')
  {
    SwitchDisk(s.disk, s.hist, s.diskView, s.limit, s.db.value.nextFile);
    SwitchMemtableUp(s, s');
  }

  // ---- Opening a reader ----

  lemma MemWithinHistory(s: State)
    requires Inv(s) && s.db.Some?
    ensures var db := s.db.value;
      && db.mem <= Facts(s.hist, db.switched, |s.hist|)
      && Facts(s.hist, db.switched, s.acked) <= db.mem
      && db.imm.GetOr({}) == Facts(s.hist, db.view.covered, db.switched)
      && forall e :: e in db.mem && e !in Facts(s.hist, db.switched, s.acked) ==> e.num > db.last
  {
    var db := s.db.value;
    if db.inflight.Some? && db.inflight.value.appended {
      var w := db.inflight.value;
      FactsSplit(s.hist, db.switched, s.acked, |s.hist|);
      assert Facts(s.hist, s.acked, s.acked + 1) == Facts(s.hist, s.acked, s.acked) + GroupFacts(s.hist[s.acked]);
      assert Inserted(w) <= GroupFacts(w.batch);
      assert FollowsOn(s.hist, s.acked);
    }
  }

  lemma LayersOfDb(s: State)
    requires Inv(s) && s.db.Some?
    ensures var db := s.db.value; Layered(db.mem, db.imm.GetOr({}), db.v)
  {
    var db := s.db.value;
    var (c, m, n) := (db.view.covered, db.switched, |s.hist|);
    MemWithinHistory(s);
    LaterIsAbove(s.hist, 0, c, m);
    LaterIsAbove(s.hist, 0, m, n);
    FactsSplit(s.hist, 0, c, m);
    FactsSplit(s.hist, 0, m, n);
    FactsConsistent(s.hist, 0, n);
    SubsetConsistent(db.mem + db.imm.GetOr({}) + VersionContents(db.v), Facts(s.hist, 0, n));
  }

  /** Facts after the last acknowledged group cannot be seen at or before it. */
  lemma UnacknowledgedInvisible(hist: seq<Batch>, acked: nat, k: UserKey, at: nat)
    requires Consecutive(hist) && acked <= |hist| && at <= End(hist, acked)
    ensures Read(Facts(hist, 0, |hist|), k, at) == Read(Facts(hist, 0, acked), k, at)
  {
    FactsSplit(hist, 0, acked, |hist|);
    FactsConsistent(hist, 0, |hist|);
    forall e | e in Facts(hist, acked, |hist|)
      ensures e.num > at
    {
      FactRange(hist, acked, |hist|, e);
    }
    ReadIgnoresNewer(Facts(hist, 0, acked), Facts(hist, acked, |hist|), k, at);
  }

  /** The version with the facts logged after it reads like the history. */
  lemma VersionPlusTail(hist: seq<Batch>, v: Version, view: View, n: nat)
    requires Consecutive(hist) && ViewOk(hist, v, view) && view.covered <= n <= |hist|
    ensures ReadsAlike(Facts(hist, view.covered, n) + VersionContents(v), Facts(hist, 0, n), view.floor)
    ensures Consistent(Facts(hist, view.covered, n) + VersionContents(v))
  {
    var c := view.covered;
    FactsSplit(hist, 0, c, n);
    FactsConsistent(hist, 0, n);
    LaterIsAbove(hist, 0, c, n);
    assert Facts(hist, c, n) + VersionContents(v) <= Facts(hist, 0, n);
    SubsetConsistent(Facts(hist, c, n) + VersionContents(v), Facts(hist, 0, n));
    assert Facts(hist, c, n) + Facts(hist, 0, c) == Facts(hist, 0, n);
    AlikeUnderLayer(VersionContents(v), Facts(hist, 0, c), Facts(hist, c, n), view.floor);
  }

  /** What a reader captures reads like the history at its sequence number. */
  lemma CapturedReads(s: State, k: UserKey, at: nat)
    requires Inv(s) && s.db.Some? && s.db.value.view.floor <= at <= s.db.value.last
    ensures var db := s.db.value;
      Read(db.mem + db.imm.GetOr({}) + VersionContents(db.v), k, at) == Read(Facts(s.hist, 0, |s.hist|), k, at)
  {
    var db := s.db.value;
    var (c, m, a) := (db.view.covered, db.switched, s.acked);
    var E := db.mem + db.imm.GetOr({}) + VersionContents(db.v);
    var S := Facts(s.hist, c, a) + VersionContents(db.v);
    MemWithinHistory(s);
    LayersOfDb(s);
    FactsSplit(s.hist, c, m, a);
    assert S + E == E;
    forall e | e in E - S
      ensures e.num > at
    {
    }
    assert S + (E - S) == E;
    ReadIgnoresNewer(S, E - S, k, at);
    VersionPlusTail(s.hist, db.v, db.view, a);
    UnacknowledgedInvisible(s.hist, a, k, at);
  }

  lemma ReadersAdd(tables: map<nat, seq<Entry>>, hist: seq<Batch>, last: nat, nextFile: nat, readers: seq<Reader>, r: Reader)
    requires ReadersOk(tables, hist, last, nextFile, readers) && ReaderOk(tables, hist, last, nextFile, r)
    ensures ReadersOk(tables, hist, last, nextFile, readers + [r])
  {
    forall q | q in readers + [r]
      ensures ReaderOk(tables, hist, last, nextFile, q)
    {
      assert q == r || q in readers;
    }
  }

  /** What a reader captures is part of the history, and below its memtable lies nothing newer than
      the last acknowledged group. */
  lemma CapturedWithin(s: State)
    requires Inv(s) && s.db.Some?
    ensures var db := s.db.value;
      && db.mem + db.imm.GetOr({}) + VersionContents(db.v) <= Facts(s.hist, 0, |s.hist|)
      && forall e :: e in db.imm.GetOr({}) + VersionContents(db.v) ==> e.num <= db.last
  {
    var db := s.db.value;
    MemWithinHistory(s);
    FactsSplit(s.hist, 0, db.view.covered, db.switched);
    FactsSplit(s.hist, 0, db.switched, |s.hist|);
    EndMonotone(s.hist, db.switched, s.acked);
    forall e | e in db.imm.GetOr({}) + VersionContents(db.v)
      ensures e.num <= db.last
    {
      FactRange(s.hist, 0, db.switched, e);
    }
  }

  lemma CapturedOk(s: State, at: nat)
    requires Inv(s) && s.db.Some? && s.db.value.view.floor <= at <= s.db.value.last
    ensures var db := s.db.value;
      ReaderOk(s.disk.tables, s.hist, db.last, db.nextFile, Reader(at, db.mem, true, db.imm.GetOr({}), db.v))
  {
    LayersOfDb(s);
    CapturedWithin(s);
    forall k
      ensures var db := s.db.value;
        Read(db.mem + db.imm.GetOr({}) + VersionContents(db.v), k, at) == Read(Facts(s.hist, 0, |s.hist|), k, at)
    {
      CapturedReads(s, k, at);
    }
  }

  lemma OpenReaderKeepsInv(s: State, s': State, at: nat)
    requires Inv(s) && OpenReader(s, s', at)
    ensures Inv(s')
  {
    var db, db' := s.db.value, s'.db.value;
    var r := Reader(at, db.mem, true, db.imm.GetOr({}), db.v);
    CapturedOk(s, at);
    ReadersAdd(s.disk.tables, s.hist, db.last, db.nextFile, db.readers, r);
    ReadersReplaced(s, s');
  }
}
