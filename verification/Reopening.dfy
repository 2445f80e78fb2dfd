/** DB::Open on a database that was left by a crash at any time: every part of recovery is run, and
    what comes out is the recovery step of the protocol (db/db_impl.cc DB::Open, Recover;
    db/version_set.cc Recover). */
module Reopening {
  import opened DbFormat
  import opened History
  import opened SortedRuns
  import opened Versions
  import opened VersionBuilder
  import opened GroupLog
  import opened Protocol
  import opened ProtocolSafety
  import opened ProtocolJobs
  import opened ProtocolRecovery
  import opened ProtocolManifest
  import opened ProtocolTheorems
  import opened LogRecovery

  lemma ReplayNextRecord(edits: seq<Edit>, i: nat)
    requires i < |edits|
    ensures var before, e, after := Replay(edits[..i]), edits[i], Replay(edits[..i + 1]);
      && after.logNumber == e.logNumber.GetOr(before.logNumber)
      && after.nextFile == e.nextFile.GetOr(before.nextFile)
      && after.lastSequence == e.lastSequence.GetOr(before.lastSequence)
  {
    assert edits[..i + 1] == edits[..i] + [edits[i]];
    ReplayAppend(edits[..i], edits[i]);
  }

  /** VersionSet::Recover on the records: the last counters, one builder, one save. */
  method ReadManifest(edits: seq<Edit>) returns (ms: ManifestState)
    requires Written(edits)
    ensures ms == ManifestRead(edits) == Replay(edits)
  {
    var logNumber, nextFile, lastSequence := 0, 0, 0;
    var builder := new Builder(EMPTY_VERSION);
    assert edits[..0] == [];
    for i := 0 to |edits|
      invariant fresh(builder) && TakenIn(builder, EMPTY_VERSION, edits, i)
      invariant var m := Replay(edits[..i]);
        logNumber == m.logNumber && nextFile == m.nextFile && lastSequence == m.lastSequence
    {
      var e := edits[i];
      ReplayNextRecord(edits, i);
      TakeInEdit(builder, EMPTY_VERSION, edits, i, e);
      logNumber, nextFile, lastSequence := e.logNumber.GetOr(logNumber), e.nextFile.GetOr(nextFile), e.lastSequence.GetOr(lastSequence);
    }
    assert edits[..|edits|] == edits;
    var v := SaveAll(builder, EMPTY_VERSION, edits);
    ms := ManifestState(v, logNumber, nextFile, lastSequence);
    ManifestReadIsReplay(edits);
  }

  /** LogAndApply's version for the edit of recovery. */
  method ApplyOne(v: Version, e: Edit) returns (v': Version)
    requires WellFormed(v) && EditLevelsOk(e)
    requires forall l :: 0 <= l < NUM_LEVELS ==> DistinctNumbers(AddedAt(e.added, l)) && NumbersOf(AddedAt(e.added, l)) !! NumbersOf(FilesOf(v[l]))
    ensures v' == ApplyEdit(v, e)
  {
    assert [e][..0] == [];
    forall l {:trigger AddedOnce(FilesOf(v[l]), [e], l)} | 0 <= l < NUM_LEVELS
      ensures AddedOnce(FilesOf(v[l]), [e], l)
    {
      LevelsDistinct(v, l);
      assert AddedOnce(FilesOf(v[l]), [], l);
      assert FilesOf(v[l]) + AddedBy([], l) == FilesOf(v[l]);
    }
    v' := SaveOnce(v, [e]);
    assert ApplyAll(v, [e]) == ApplyEdit(ApplyAll(v, []), e);
  }

  /** The tables recovery writes. */
  method WriteTables(tables: map<nat, seq<Entry>>, fs: seq<File>) returns (r: map<nat, seq<Entry>>)
    requires DistinctNumbers(FilesOf(fs))
    ensures TablesAdded(tables, fs, r)
  {
    r := tables;
    for i := 0 to |fs|
      invariant forall j :: 0 <= j < i ==> fs[j].number in r && r[fs[j].number] == fs[j].table
      invariant forall n :: n in tables && (forall f :: f in fs ==> f.number != n) ==> n in r && r[n] == tables[n]
    {
      forall j | 0 <= j < i
        ensures fs[j].number == fs[i].number ==> fs[j] == fs[i]
      {
        assert fs[j] in FilesOf(fs) && fs[i] in FilesOf(fs);
      }
      assert fs[i] in fs;
      r := r[fs[i].number := fs[i].table];
    }
  }

  /** What recovery found, against what the protocol asks of the step. */
  lemma RecoveredEditOk(v: Version, fs: seq<File>, next: nat, e: Edit)
    requires WellFormed(v) && e.added == Level0Additions(fs) && e.deleted == {} && DistinctNumbers(FilesOf(fs))
    requires (forall l, f :: At(v, l, f) ==> f.number < next) && forall f :: f in fs ==> f.number >= next
    ensures EditLevelsOk(e)
    ensures forall l :: 0 <= l < NUM_LEVELS ==> DistinctNumbers(AddedAt(e.added, l)) && NumbersOf(AddedAt(e.added, l)) !! NumbersOf(FilesOf(v[l]))
  {
    Level0AdditionsAt(fs);
    forall l | 0 <= l < NUM_LEVELS
      ensures DistinctNumbers(AddedAt(e.added, l)) && NumbersOf(AddedAt(e.added, l)) !! NumbersOf(FilesOf(v[l]))
    {
      Level0AddedAt(fs, l);
      forall f | f in FilesOf(v[l])
        ensures f.number < next
      {
        assert At(v, l, f);
      }
    }
  }

  /** What Inv and RecordsOk say of a closed database, for recovery. */
  lemma ClosedDatabase(s: State, ms: ManifestState)
    requires Inv(s) && RecordsOk(s) && ms == Replay(s.disk.manifests[s.disk.current])
    ensures HistOk(s.hist) && s.diskView.covered <= |s.hist| && ms.logNumber <= s.limit
    ensures Tail(s.disk.logs, ms.logNumber, s.limit) == s.hist[s.diskView.covered..]
    ensures WellFormed(ms.v) && forall l, f :: At(ms.v, l, f) ==> f.number in s.disk.tables && f.number < ms.nextFile
    ensures s.limit > 0 ==> s.limit - 1 in s.disk.logs && ms.logNumber <= s.limit - 1
  {
  }

  /** After every run that ends with the database closed, opening it succeeds: the parts of
      recovery, run one after the other, make a recovery step, and the run goes on. */
  method Reopen(s: State, bufferSize: nat, usage: seq<Entry> -> nat, ghost states: seq<State>)
    returns (s': State, fs: seq<File>, newLog: nat)
    requires Run(states) && s == states[|states| - 1] && s.db.None?
    ensures Recover(s, s', fs, newLog) && Run(states + [s'])
  {
    RunInv(states, |states| - 1);
    var ms := ReadManifest(s.disk.manifests[s.disk.current]);
    ClosedDatabase(s, ms);
    var maxSequence;
    fs, newLog, maxSequence := RecoverLogs(s.disk.logs, ms.logNumber, s.limit, bufferSize, usage, ms.nextFile + 1,
                                           s.hist, s.diskView.covered);
    ghost var records := Tail(s.disk.logs, ms.logNumber, s.limit);
    RecoveredNumbersDistinct(RecordFacts(records), ms.nextFile + 1, fs);
    var tables := WriteTables(s.disk.tables, fs);
    var last := Max(ms.lastSequence, maxSequence);
    var edit := Edit(Some(newLog), Some(newLog + 1), Some(last), {}, Level0Additions(fs));
    RecoveredEditOk(ms.v, fs, ms.nextFile + 1, edit);
    var v := ApplyOne(ms.v, edit);
    var view := View(|s.hist|, s.diskView.floor);
    s' := State(Disk(s.disk.logs[newLog := []], tables,
                     s.disk.manifests[ms.nextFile := [FilesEdit({}, SnapshotAdditions(ms.v, NUM_LEVELS)), edit]], ms.nextFile),
                s.hist, |s.hist|, newLog + 1, view,
                Some(Db({}, None, |s.hist|, newLog, newLog, newLog + 1, last, v, view, None, [], [], None, None)));
    assert RecoverFrom(s, s', fs, newLog, ms);
    RunGoesOn(states, s', fs, newLog);
  }

  lemma RunGoesOn(states: seq<State>, s': State, fs: seq<File>, newLog: nat)
    requires Run(states) && Recover(states[|states| - 1], s', fs, newLog)
    ensures Run(states + [s'])
  {
    var longer := states + [s'];
    forall i {:trigger StepAt(longer, i)} | 0 <= i < |longer| - 1
      ensures StepAt(longer, i)
    {
      if i < |states| - 1 {
        assert StepAt(states, i);
      } else {
        assert ProcessStep(longer[i], longer[i + 1]);
      }
    }
  }
}
