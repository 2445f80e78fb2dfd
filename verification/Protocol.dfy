/** The database as a protocol over its disk and memory state (db/db_impl.cc, db/version_set.cc):
    write groups, memtable switches, flushes, moves, compactions, snapshots, readers, removal of
    obsolete files, process crashes and recovery. */
module Protocol {
  import opened DbFormat
  import opened History
  import opened SortedRuns
  import opened Versions
  import opened InputSelection
  import opened Compaction
  import opened CompactionMeaning
  import opened Installing
  import opened FlushInside
  import opened VersionBuilder
  import opened GroupLog

  // ---- State ----

  /** Log files hold whole records only: a torn last record reads as absent. */
  datatype Disk = Disk(logs: map<nat, seq<Batch>>, tables: map<nat, seq<Entry>>,
                       manifests: map<nat, seq<Edit>>, current: nat)

  /** What a version stands for: the first covered groups, as read from sequence number floor on. */
  datatype View = View(covered: nat, floor: nat)

  /** The write group a leader is working on. */
  datatype Inflight = Inflight(batch: Batch, appended: bool, inserted: nat)

  datatype Stage = Built | Prepared | Logged

  /** A version change on its way: output tables built, edit prepared under the mutex, record
      appended to the MANIFEST. */
  datatype Job = Job(edit: Edit, v: Version, view: View, flush: bool, stage: Stage)

  /** A Get or an iterator: the memtables and the version it captured, and its sequence number.
      shared says that mem is the memtable writes still go to: what they insert, the reader has. */
  datatype Reader = Reader(at: nat, mem: set<Entry>, shared: bool, imm: set<Entry>, v: Version)

  /** The open database. */
  datatype Db = Db(mem: set<Entry>, imm: Option<set<Entry>>, switched: nat, logfile: nat, logNumber: nat,
                   nextFile: nat, last: nat, v: Version, view: View, inflight: Option<Inflight>,
                   snapshots: seq<nat>, readers: seq<Reader>, job: Option<Job>, compacted: Option<Compacted>)

  /** hist lists the groups whose log record is complete; the first acked of them were
      acknowledged.  limit is above every log number.  diskView belongs to the current MANIFEST. */
  datatype State = State(disk: Disk, hist: seq<Batch>, acked: nat, limit: nat, diskView: View, db: Option<Db>)

  // ---- Steps ----

  /** NewDB: MANIFEST 1 with one record. */
  ghost predicate Init(s: State) {
    && s.disk == Disk(map[], map[], map[1 := [Edit(Some(0), Some(2), Some(0), {}, [])]], 1)
    && s.hist == [] && s.acked == 0 && s.limit == 0 && s.diskView == View(0, 0) && s.db == None
  }

  /** DBImpl::Write: the leader numbers its group. */
  ghost predicate BeginWrite(s: State, s': State, ops: seq<(UserKey, Op)>) {
    && s.db.Some? && s.db.value.inflight.None?
    && s.db.value.last + |ops| < MAX_SEQUENCE
    && s' == s.(db := Some(s.db.value.(inflight := Some(Inflight(Batch(s.db.value.last + 1, ops), false, 0)))))
  }

  /** log_->AddRecord returns. */
  ghost predicate AppendRecord(s: State, s': State) {
    && s.db.Some? && s.db.value.inflight.Some? && !s.db.value.inflight.value.appended
    && s.db.value.logfile in s.disk.logs
    && var db := s.db.value;
       var b := db.inflight.value.batch;
       s' == s.(disk := s.disk.(logs := s.disk.logs[db.logfile := s.disk.logs[db.logfile] + [b]]),
                hist := s.hist + [b],
                db := Some(db.(inflight := Some(db.inflight.value.(appended := true)))))
  }

  /** The readers of the current memtable see it change. */
  function Refilled(readers: seq<Reader>, mem: set<Entry>): seq<Reader> {
    seq(|readers|, i requires 0 <= i < |readers| => if readers[i].shared then readers[i].(mem := mem) else readers[i])
  }

  /** The readers keep a memtable that writes no longer go to. */
  function Frozen(readers: seq<Reader>): seq<Reader> {
    seq(|readers|, i requires 0 <= i < |readers| => readers[i].(shared := false))
  }

  /** InsertInto adds the next entry of the group to the memtable. */
  ghost predicate InsertNext(s: State, s': State) {
    && s.db.Some? && s.db.value.inflight.Some? && s.db.value.inflight.value.appended
    && var db := s.db.value;
       var w := db.inflight.value;
       && w.inserted < |w.batch.ops|
       && var mem := db.mem + {BatchEntry(w.batch, w.inserted)};
          s' == s.(db := Some(db.(mem := mem, readers := Refilled(db.readers, mem), inflight := Some(w.(inserted := w.inserted + 1)))))
  }

  /** SetLastSequence; the writers of the group are told. */
  ghost predicate Acknowledge(s: State, s': State) {
    && s.db.Some? && s.db.value.inflight.Some? && s.db.value.inflight.value.appended
    && var db := s.db.value;
       var w := db.inflight.value;
       && w.inserted == |w.batch.ops|
       && s' == s.(acked := s.acked + 1, db := Some(db.(last := db.last + |w.batch.ops|, inflight := None)))
  }

  /** MakeRoomForWrite switches to a new log and memtable. */
  ghost predicate SwitchMemtable(s: State, s': State) {
    && s.db.Some? && s.db.value.inflight.None? && s.db.value.imm.None?
    && var db := s.db.value;
       s' == s.(disk := s.disk.(logs := s.disk.logs[db.nextFile := []]), limit := db.nextFile + 1,
                db := Some(db.(imm := Some(db.mem), mem := {}, switched := s.acked, readers := Frozen(db.readers),
                               logfile := db.nextFile, nextFile := db.nextFile + 1)))
  }

  ghost predicate TakeSnapshot(s: State, s': State) {
    && s.db.Some?
    && s' == s.(db := Some(s.db.value.(snapshots := s.db.value.snapshots + [s.db.value.last])))
  }

  ghost predicate ReleaseSnapshot(s: State, s': State, i: nat) {
    && s.db.Some? && i < |s.db.value.snapshots|
    && var t := s.db.value.snapshots;
       s' == s.(db := Some(s.db.value.(snapshots := t[..i] + t[i + 1..])))
  }

  /** Get or NewIterator, at the latest sequence number or at a live snapshot. */
  ghost predicate OpenReader(s: State, s': State, at: nat) {
    && s.db.Some?
    && var db := s.db.value;
       && (at == db.last || at in db.snapshots)
       && s' == s.(db := Some(db.(readers := db.readers + [Reader(at, db.mem, true, db.imm.GetOr({}), db.v)])))
  }

  ghost predicate CloseReader(s: State, s': State, i: nat) {
    && s.db.Some? && i < |s.db.value.readers|
    && var t := s.db.value.readers;
       s' == s.(db := Some(s.db.value.(readers := t[..i] + t[i + 1..])))
  }

  function FilesEdit(deleted: set<(int, nat)>, added: seq<(int, File)>): Edit {
    Edit(None, None, None, deleted, added)
  }

  /** CompactMemTable writes the immutable memtable to a table; an empty one gives no file. */
  ghost predicate StartFlush(s: State, s': State, level: nat, f: File) {
    && s.db.Some? && s.db.value.imm.Some? && s.db.value.job.None?
    && var db := s.db.value;
       var edit := FilesEdit({}, if db.imm.value == {} then [] else [(level, f)]);
       && |db.v| == NUM_LEVELS
       && (db.imm.value != {} ==> ValidFile(f) && TableSet(f) == db.imm.value && f.number == db.nextFile && GoodFlushLevel(db.v, level, f))
       && s' == s.(disk := if db.imm.value == {} then s.disk else s.disk.(tables := s.disk.tables[f.number := f.table]),
                   db := Some(db.(nextFile := db.nextFile + 1,
                                  job := Some(Job(edit, ApplyEdit(db.v, edit), View(db.switched, db.view.floor), true, Built)))))
  }

  /** BackgroundCompaction moves one file to the next level. */
  ghost predicate StartMove(s: State, s': State, level: nat, f: File) {
    && s.db.Some? && s.db.value.imm.None? && s.db.value.job.None? && s.db.value.compacted.None?
    && var db := s.db.value;
       var edit := FilesEdit({(level as int, f.number)}, [(level as int + 1, f)]);
       && |db.v| == NUM_LEVELS && GoodInputs(db.v, level, [f], [])
       && s' == s.(db := Some(db.(job := Some(Job(edit, ApplyEdit(db.v, edit), db.view, false, Built)))))
  }

  function SmallestSnapshot(db: Db): nat {
    if db.snapshots == [] then db.last else db.snapshots[0]
  }

  function Additions(level: nat, outs: seq<File>): seq<(int, File)> {
    if outs == [] then [] else [(level as int + 1, outs[0])] + Additions(level, outs[1..])
  }

  ghost predicate TablesAdded(tables: map<nat, seq<Entry>>, outs: seq<File>, tables': map<nat, seq<Entry>>) {
    && (forall f :: f in outs ==> f.number in tables' && tables'[f.number] == f.table)
    && (forall n :: n in tables && (forall f :: f in outs ==> f.number != n) ==> n in tables' && tables'[n] == tables[n])
  }

  /** DoCompactionWork: merge, drop, write the output tables.  NoResurrection is the condition
      under which the drop rule preserves reads (CompactionPreservesReads).  The numbers of the
      outputs are taken at once; only level 0 ever looks at their order. */
  ghost predicate StartCompaction(s: State, s': State, p: Compacted) {
    && s.db.Some? && s.db.value.imm.None? && s.db.value.job.None? && s.db.value.compacted.None?
    && var db := s.db.value;
       && p.base == db.v && p.snap == SmallestSnapshot(db) && Done(p)
       && NoResurrection(p.base, p.level, p.in1, p.input, p.snap)
       && s'.db.Some?
       && (forall f :: f in p.outs ==> db.nextFile <= f.number < s'.db.value.nextFile)
       && db.nextFile <= s'.db.value.nextFile
       && TablesAdded(s.disk.tables, p.outs, s'.disk.tables)
       && s' == s.(disk := s.disk.(tables := s'.disk.tables),
                   db := Some(db.(nextFile := s'.db.value.nextFile, compacted := Some(p))))
  }

  /** InstallCompactionResults makes the edit, for the version of this moment: memtables may have been
      flushed since the compaction started.  OutputsFit is the condition under which the outcome fits
      (WellFormedExactlyIfFits); for the inputs of PickCompaction it always holds (NoGapFits). */
  ghost predicate FinishCompaction(s: State, s': State) {
    && s.db.Some? && s.db.value.job.None? && s.db.value.compacted.Some?
    && var db := s.db.value;
       var p := db.compacted.value;
       var edit := FilesEdit(InputDeletions(p.level, p.in0, p.in1), Additions(p.level, p.outs));
       && |db.v| == NUM_LEVELS && OutputsFit(p, db.v)
       && s' == s.(db := Some(db.(compacted := None,
                                  job := Some(Job(edit, ApplyEdit(db.v, edit), View(db.view.covered, Max(db.view.floor, p.snap)), false, Built)))))
  }

  /** An I/O error or a shutdown ends the compaction: its outputs are no longer pending. */
  ghost predicate GiveUpCompaction(s: State, s': State) {
    && s.db.Some? && s.db.value.compacted.Some?
    && s' == s.(db := Some(s.db.value.(compacted := None)))
  }

  /** LogAndApply fills in the counters while the mutex is held. */
  ghost predicate PrepareEdit(s: State, s': State) {
    && s.db.Some? && s.db.value.job.Some? && s.db.value.job.value.stage.Built?
    && var db := s.db.value;
       var j := db.job.value;
       s' == s.(db := Some(db.(job := Some(j.(stage := Prepared,
               edit := j.edit.(logNumber := Some(if j.flush then db.logfile else db.logNumber),
                               nextFile := Some(db.nextFile), lastSequence := Some(db.last)))))))
  }

  /** The record reaches the MANIFEST, with the mutex released. */
  ghost predicate LogEdit(s: State, s': State) {
    && s.db.Some? && s.db.value.job.Some? && s.db.value.job.value.stage.Prepared?
    && s.disk.current in s.disk.manifests
    && var db := s.db.value;
       var j := db.job.value;
       s' == s.(disk := s.disk.(manifests := s.disk.manifests[s.disk.current := s.disk.manifests[s.disk.current] + [j.edit]]),
                diskView := j.view, db := Some(db.(job := Some(j.(stage := Logged)))))
  }

  /** The new version becomes current; after a flush the immutable memtable goes. */
  ghost predicate InstallVersion(s: State, s': State) {
    && s.db.Some? && s.db.value.job.Some? && s.db.value.job.value.stage.Logged?
    && var db := s.db.value;
       var j := db.job.value;
       s' == s.(db := Some(db.(v := j.v, view := j.view, logNumber := j.edit.logNumber.GetOr(db.logNumber),
                               imm := if j.flush then None else db.imm, job := None)))
  }

  /** A file of the current version, of the version of a reader, or one of the pending outputs. */
  ghost predicate InUse(db: Db, n: nat) {
    || (exists l, f :: At(db.v, l, f) && f.number == n)
    || (exists r, l, f :: r in db.readers && At(r.v, l, f) && f.number == n)
    || (db.compacted.Some? && exists f :: f in db.compacted.value.outs && f.number == n)
  }

  /** RemoveObsoleteFiles, one file at a time. */
  ghost predicate RemoveTable(s: State, s': State, n: nat) {
    && s.db.Some? && s.db.value.job.None? && !InUse(s.db.value, n)
    && s' == s.(disk := s.disk.(tables := s.disk.tables - {n}))
  }

  ghost predicate RemoveLog(s: State, s': State, n: nat) {
    && s.db.Some? && n < s.db.value.logNumber
    && s' == s.(disk := s.disk.(logs := s.disk.logs - {n}))
  }

  ghost predicate RemoveManifest(s: State, s': State, n: nat) {
    && s.db.Some? && n < s.disk.current
    && s' == s.(disk := s.disk.(manifests := s.disk.manifests - {n}))
  }

  /** A table that is being written, or was left by an interrupted flush, compaction or recovery. */
  ghost predicate WriteOrphanTable(s: State, s': State, n: nat, t: seq<Entry>) {
    && s.disk.current in s.disk.manifests
    && n >= (if s.db.Some? then s.db.value.nextFile else Replay(s.disk.manifests[s.disk.current]).nextFile)
    && s' == s.(disk := s.disk.(tables := s.disk.tables[n := t]))
  }

  /** An interrupted recovery may leave an empty log and an unused MANIFEST behind. */
  ghost predicate WriteOrphanLog(s: State, s': State, n: nat) {
    && s.db.None? && n >= s.limit
    && s' == s.(disk := s.disk.(logs := s.disk.logs[n := []]), limit := n + 1)
  }

  ghost predicate WriteOrphanManifest(s: State, s': State, n: nat, edits: seq<Edit>) {
    && s.db.None? && s.disk.current in s.disk.manifests
    && n >= Replay(s.disk.manifests[s.disk.current]).nextFile
    && s' == s.(disk := s.disk.(manifests := s.disk.manifests[n := edits]))
  }

  /** The process dies: memory is gone, the disk stays. */
  ghost predicate Crash(s: State, s': State) {
    s.db.Some? && s' == s.(db := None)
  }

  /** Level-0 files made of the records of the logs, oldest first. */
  ghost predicate RecoveredFiles(facts: set<Entry>, first: nat, fs: seq<File>) {
    && (forall f :: f in fs ==> ValidFile(f) && f.number >= first)
    && Contents(fs) == facts
    && (forall i, j {:trigger Precedes(fs[i], fs[j])} :: 0 <= i < j < |fs| ==> Precedes(fs[i], fs[j]))
  }

  /** f was written before g, from older records. */
  ghost predicate Precedes(f: File, g: File) {
    f.number < g.number && forall x, y :: x in f.table && y in g.table ==> x.num < y.num
  }

  function Level0Additions(fs: seq<File>): seq<(int, File)> {
    if fs == [] then [] else Level0Additions(fs[..|fs| - 1]) + [(0, fs[|fs| - 1])]
  }

  /** WriteSnapshot: the whole version as one edit. */
  function LevelAdditions(l: int, fs: seq<File>): seq<(int, File)> {
    if fs == [] then [] else LevelAdditions(l, fs[..|fs| - 1]) + [(l, fs[|fs| - 1])]
  }

  function SnapshotAdditions(v: Version, n: nat): seq<(int, File)>
    requires n <= |v|
  {
    if n == 0 then [] else SnapshotAdditions(v, n - 1) + LevelAdditions(n - 1, v[n - 1])
  }

  function Max(a: nat, b: nat): nat {
    if a < b then b else a
  }

  /** max_sequence of RecoverLogFile: the largest last sequence number of the records. */
  function MaxSequence(records: seq<Batch>): nat {
    if records == [] then 0
    else
      var b := records[|records| - 1];
      Max(MaxSequence(records[..|records| - 1]), if b.first + |b.ops| > 0 then b.first + |b.ops| - 1 else 0)
  }

  /** All entries of the logged records. */
  ghost function RecordFacts(records: seq<Batch>): set<Entry> {
    Facts(records, 0, |records|)
  }

  /** DB::Open on an existing database: VersionSet::Recover, RecoverLogFile for every log not
      older than the MANIFEST's log number, a new log, a new MANIFEST, and CURRENT switched. */
  ghost predicate Recover(s: State, s': State, fs: seq<File>, newLog: nat) {
    && s.db.None? && s.disk.current in s.disk.manifests
    && RecoverFrom(s, s', fs, newLog, ManifestRead(s.disk.manifests[s.disk.current]))
  }

  /** ... where ms is what was read from the MANIFEST. */
  ghost predicate RecoverFrom(s: State, s': State, fs: seq<File>, newLog: nat, ms: ManifestState)
    requires |ms.v| == NUM_LEVELS
  {
    && s.db.None?
    && var records := Tail(s.disk.logs, ms.logNumber, s.limit);
       var last := Max(ms.lastSequence, MaxSequence(records));
       var edit := Edit(Some(newLog), Some(newLog + 1), Some(last), {}, Level0Additions(fs));
       var v := ApplyEdit(ms.v, edit);
       && (forall l, f :: At(ms.v, l, f) ==> f.number in s.disk.tables)
       && RecoveredFiles(RecordFacts(records), ms.nextFile + 1, fs)
       && newLog >= s.limit && newLog > ms.nextFile && (forall f :: f in fs ==> f.number < newLog)
       && TablesAdded(s.disk.tables, fs, s'.disk.tables)
       && s' == State(Disk(s.disk.logs[newLog := []], s'.disk.tables,
                           s.disk.manifests[ms.nextFile := [FilesEdit({}, SnapshotAdditions(ms.v, NUM_LEVELS)), edit]], ms.nextFile),
                      s.hist, |s.hist|, newLog + 1, View(|s.hist|, s.diskView.floor),
                      Some(Db({}, None, |s.hist|, newLog, newLog, newLog + 1, last, v, View(|s.hist|, s.diskView.floor),
                              None, [], [], None, None)))
  }

  ghost predicate WriterStep(s: State, s': State) {
    || (exists ops :: BeginWrite(s, s', ops))
    || AppendRecord(s, s') || InsertNext(s, s') || Acknowledge(s, s') || SwitchMemtable(s, s')
  }

  ghost predicate ReaderStep(s: State, s': State) {
    || TakeSnapshot(s, s') || (exists i :: ReleaseSnapshot(s, s', i))
    || (exists at :: OpenReader(s, s', at)) || (exists i :: CloseReader(s, s', i))
  }

  ghost predicate BackgroundStep(s: State, s': State) {
    || (exists level, f :: StartFlush(s, s', level, f))
    || (exists level, f :: StartMove(s, s', level, f))
    || (exists p :: StartCompaction(s, s', p)) || FinishCompaction(s, s') || GiveUpCompaction(s, s')
    || PrepareEdit(s, s') || LogEdit(s, s') || InstallVersion(s, s')
  }

  ghost predicate FileStep(s: State, s': State) {
    || (exists n :: RemoveTable(s, s', n)) || (exists n :: RemoveLog(s, s', n)) || (exists n :: RemoveManifest(s, s', n))
    || (exists n, t :: WriteOrphanTable(s, s', n, t)) || (exists n :: WriteOrphanLog(s, s', n))
    || (exists n, edits :: WriteOrphanManifest(s, s', n, edits))
  }

  ghost predicate ProcessStep(s: State, s': State) {
    Crash(s, s') || (exists fs, newLog :: Recover(s, s', fs, newLog))
  }

  ghost predicate Next(s: State, s': State) {
    WriterStep(s, s') || ReaderStep(s, s') || BackgroundStep(s, s') || FileStep(s, s') || ProcessStep(s, s')
  }

  /** A run: every state follows from the one before by a step. */
  ghost predicate Run(states: seq<State>) {
    && states != [] && Init(states[0])
    && forall i {:trigger StepAt(states, i)} :: 0 <= i < |states| - 1 ==> StepAt(states, i)
  }

  ghost predicate StepAt(states: seq<State>, i: nat)
    requires i + 1 < |states|
  {
    Next(states[i], states[i + 1])
  }
}
