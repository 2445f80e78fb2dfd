/** Recovery keeps the invariant: VersionSet::Recover, RecoverLogFile, the new MANIFEST. */
module ProtocolRecovery {
  import opened DbFormat
  import opened History
  import opened SortedRuns
  import opened Versions
  import opened Installing
  import opened VersionBuilder
  import opened GroupLog
  import opened Protocol
  import opened ProtocolSafety
  import opened ProtocolJobs

  // ---- The records the logs hold ----

  /** Numbering groups from the c-th on instead of from the first. */
  lemma {:induction false} FactsShift(hist: seq<Batch>, c: nat, n: nat)
    requires c + n <= |hist|
    ensures Facts(hist[c..], 0, n) == Facts(hist, c, c + n)
    decreases n
  {
    if n > 0 {
      FactsShift(hist, c, n - 1);
    }
  }

  lemma RecordsAreFacts(hist: seq<Batch>, c: nat)
    requires c <= |hist|
    ensures RecordFacts(hist[c..]) == Facts(hist, c, |hist|)
  {
    FactsShift(hist, c, |hist| - c);
  }

  /** The largest sequence number seen while replaying the groups from c on. */
  lemma {:induction false} MaxSequenceIsEnd(hist: seq<Batch>, c: nat, n: nat)
    requires Consecutive(hist) && c <= n <= |hist|
    ensures c < n ==> MaxSequence(hist[c..n]) == End(hist, n)
    ensures c == n ==> MaxSequence(hist[c..n]) == 0
    decreases n
  {
    if c < n {
      MaxSequenceIsEnd(hist, c, n - 1);
      assert hist[c..n][..n - c - 1] == hist[c..n - 1];
      assert FollowsOn(hist, n - 1);
    }
  }

  /** The last sequence number recovery computes. */
  lemma RecoveredLast(hist: seq<Batch>, c: nat, last: nat)
    requires Consecutive(hist) && c <= |hist| && End(hist, c) <= last <= End(hist, |hist|)
    ensures Max(last, MaxSequence(hist[c..])) == End(hist, |hist|)
  {
    MaxSequenceIsEnd(hist, c, |hist|);
    assert hist[c..] == hist[c..|hist|];
  }

  // ---- The recovered version ----

  lemma {:induction false} Level0AdditionsAt(fs: seq<File>)
    ensures forall p :: p in Level0Additions(fs) <==> p.0 == 0 && p.1 in fs
  {
    if fs != [] {
      Level0AdditionsAt(fs[..|fs| - 1]);
      assert fs == fs[..|fs| - 1] + [fs[|fs| - 1]];
    }
  }

  lemma {:induction false} LevelAdditionsAt(l: int, fs: seq<File>)
    ensures forall p :: p in LevelAdditions(l, fs) <==> p.0 == l && p.1 in fs
  {
    if fs != [] {
      LevelAdditionsAt(l, fs[..|fs| - 1]);
      assert fs == fs[..|fs| - 1] + [fs[|fs| - 1]];
    }
  }

  lemma {:induction false} SnapshotAdditionsAt(v: Version, n: nat)
    requires n <= |v|
    ensures forall p :: p in SnapshotAdditions(v, n) <==> 0 <= p.0 < n && p.1 in v[p.0]
  {
    if n > 0 {
      SnapshotAdditionsAt(v, n - 1);
      LevelAdditionsAt(n - 1, v[n - 1]);
    }
  }

  /** The pairs of a recovery edit. */
  ghost function Recovered(fs: seq<File>): set<(int, File)> {
    set f | f in fs :: (0, f)
  }

  lemma RecoveredNumbersDistinct(facts: set<Entry>, first: nat, fs: seq<File>)
    requires RecoveredFiles(facts, first, fs)
    ensures DistinctNumbers(FilesOf(fs))
  {
    forall f, g | f in FilesOf(fs) && g in FilesOf(fs) && f.number == g.number
      ensures f == g
    {
      RecoveredPair(facts, first, fs, f, g);
    }
  }

  lemma Level0AddedAt(fs: seq<File>, l: int)
    ensures AddedAt(Level0Additions(fs), l) <= FilesOf(fs)
  {
    Level0AdditionsAt(fs);
  }

  lemma RecoveredDistinct(v: Version, fs: seq<File>, next: nat, l: nat)
    requires WellFormed(v) && l < NUM_LEVELS
    requires forall m, g :: At(v, m, g) ==> g.number < next
    requires forall f :: f in fs ==> f.number >= next
    requires DistinctNumbers(FilesOf(fs))
    ensures DistinctNumbers(FilesOf(v[l]) + AddedAt(Level0Additions(fs), l))
  {
    Level0AddedAt(fs, l);
    LevelsDistinct(v, l);
    forall f | f in FilesOf(v[l])
      ensures f.number < next
    {
      assert At(v, l, f);
    }
  }

  lemma RecoveredArePairs(fs: seq<File>, e: Edit)
    requires e.added == Level0Additions(fs)
    ensures AddedPairs(e) == Recovered(fs)
  {
    Level0AdditionsAt(fs);
    forall p: (int, File) | p.0 == 0 && p.1 in fs
      ensures p in Recovered(fs)
    {
      assert p == (0, p.1);
    }
  }

  lemma RecoveredApplied(v: Version, fs: seq<File>, next: nat, e: Edit)
    requires WellFormed(v) && e.deleted == {} && e.added == Level0Additions(fs)
    requires forall m, g :: At(v, m, g) ==> g.number < next
    requires forall f :: f in fs ==> f.number >= next
    requires DistinctNumbers(FilesOf(fs))
    ensures Applied(v, {}, Recovered(fs), ApplyEdit(v, e))
  {
    forall l | 0 <= l < NUM_LEVELS
      ensures DistinctNumbers(FilesOf(v[l]) + AddedAt(e.added, l))
    {
      RecoveredDistinct(v, fs, next, l);
    }
    Level0AdditionsAt(fs);
    ApplyEditApplied(v, e);
    RecoveredArePairs(fs, e);
  }

  /** A recovered level-0 file next to the other recovered files and the old version. */
  lemma RecoveredFits(hist: seq<Batch>, v: Version, c: nat, fs: seq<File>, next: nat, v': Version, f: File)
    requires Consecutive(hist) && WellFormed(v) && c <= |hist| && VersionContents(v) <= Facts(hist, 0, c)
    requires forall m, g :: At(v, m, g) ==> g.number < next
    requires RecoveredFiles(Facts(hist, c, |hist|), next, fs) && f in fs
    requires Applied(v, {}, Recovered(fs), v')
    ensures Fits(v', 0, f)
  {
    forall m, g | At(v', m, g)
      ensures PairOk(0, f, m, g) && PairOk(m, g, 0, f)
    {
      if m == 0 && g in fs {
        RecoveredPair(Facts(hist, c, |hist|), next, fs, f, g);
      } else {
        assert At(v, m, g);
        RecoveredAboveOld(hist, v, c, fs, next, f, m, g);
      }
    }
  }

  lemma RecoveredPair(facts: set<Entry>, next: nat, fs: seq<File>, f: File, g: File)
    requires RecoveredFiles(facts, next, fs) && f in fs && g in fs
    ensures f.number == g.number ==> f == g
    ensures f.number > g.number ==> Above(TableSet(f), TableSet(g))
    ensures g.number > f.number ==> Above(TableSet(g), TableSet(f))
  {
    var i :| 0 <= i < |fs| && fs[i] == f;
    var j :| 0 <= j < |fs| && fs[j] == g;
    assert i < j ==> Precedes(fs[i], fs[j]);
    assert j < i ==> Precedes(fs[j], fs[i]);
  }

  lemma RecoveredAboveOld(hist: seq<Batch>, v: Version, c: nat, fs: seq<File>, next: nat, f: File, m: int, g: File)
    requires Consecutive(hist) && c <= |hist| && VersionContents(v) <= Facts(hist, 0, c)
    requires RecoveredFiles(Facts(hist, c, |hist|), next, fs) && f in fs && At(v, m, g)
    ensures Above(TableSet(f), TableSet(g))
  {
    LaterIsAbove(hist, 0, c, |hist|);
    forall a, b | a in TableSet(f) && b in TableSet(g) && a.user == b.user
      ensures a.num > b.num
    {
      assert a in Contents(fs);
      InContents(v, m, g, b);
    }
  }

  lemma RecoveredContents(v: Version, fs: seq<File>, v': Version)
    requires Applied(v, {}, Recovered(fs), v')
    ensures VersionContents(v') == VersionContents(v) + Contents(fs)
  {
    forall e
      ensures e in VersionContents(v') <==> e in VersionContents(v) || e in Contents(fs)
    {
      if e in VersionContents(v') {
        var l, g := WhereInContents(v', e);
        if !At(v, l, g) {
          assert (l, g) in Recovered(fs);
        } else {
          InContents(v, l, g, e);
        }
      }
      if e in VersionContents(v) {
        var l, g := WhereInContents(v, e);
        InContents(v', l, g, e);
      }
      if e in Contents(fs) {
        var f :| f in fs && e in f.table;
        assert (0, f) in Recovered(fs);
        InContents(v', 0, f, e);
      }
    }
  }

  /** The recovered version stands for the whole history. */
  lemma RecoveredView(hist: seq<Batch>, v: Version, view: View, next: nat, fs: seq<File>, e: Edit)
    requires HistOk(hist) && ViewOk(hist, v, view)
    requires forall m, g :: At(v, m, g) ==> g.number < next
    requires RecoveredFiles(Facts(hist, view.covered, |hist|), next, fs)
    requires e.deleted == {} && e.added == Level0Additions(fs)
    ensures ViewOk(hist, ApplyEdit(v, e), View(|hist|, view.floor))
  {
    var v' := ApplyEdit(v, e);
    RecoveredNumbersDistinct(Facts(hist, view.covered, |hist|), next, fs);
    RecoveredApplied(v, fs, next, e);
    forall l, f | (l, f) in Recovered(fs)
      ensures Fits(v', l, f)
    {
      RecoveredFits(hist, v, view.covered, fs, next, v', f);
    }
    InstallKeepsWellFormed(v, {}, Recovered(fs), v');
    RecoveredContents(v, fs, v');
    FactsSplit(hist, 0, view.covered, |hist|);
    VersionPlusTail(hist, v, view, |hist|);
    assert VersionContents(v') == Facts(hist, view.covered, |hist|) + VersionContents(v);
  }

  lemma RecoveredOnDisk(tables: map<nat, seq<Entry>>, tables': map<nat, seq<Entry>>, v: Version, next: nat,
                        fs: seq<File>, e: Edit, next': nat)
    requires WellFormed(v) && FilesOnDisk(tables, v, next) && next < next'
    requires forall f :: f in fs ==> next <= f.number < next'
    requires DistinctNumbers(FilesOf(fs))
    requires e.deleted == {} && e.added == Level0Additions(fs)
    requires TablesAdded(tables, fs, tables')
    ensures FilesOnDisk(tables', ApplyEdit(v, e), next')
  {
    var v' := ApplyEdit(v, e);
    RecoveredApplied(v, fs, next, e);
    forall l, f | At(v', l, f)
      ensures f.number in tables' && tables'[f.number] == f.table && f.number < next'
    {
      assert (l, f) in Recovered(fs) || At(v, l, f);
    }
  }

  /** The snapshot record at the head of a new MANIFEST rebuilds the version it was taken of. */
  lemma SnapshotRecord(v: Version)
    requires WellFormed(v)
    ensures ApplyEdit(EMPTY_VERSION, FilesEdit({}, SnapshotAdditions(v, NUM_LEVELS))) == v
  {
    var e := FilesEdit({}, SnapshotAdditions(v, NUM_LEVELS));
    SnapshotAdditionsAt(v, NUM_LEVELS);
    forall l | 0 <= l < NUM_LEVELS
      ensures ApplyEdit(EMPTY_VERSION, e)[l] == v[l]
    {
      SnapshotLevel(v, e, l);
      ListingIs(FilesOf(v[l]), v[l]);
    }
  }

  lemma SnapshotLevel(v: Version, e: Edit, l: nat)
    requires |v| == NUM_LEVELS && l < NUM_LEVELS
    requires forall p :: p in e.added <==> 0 <= p.0 < NUM_LEVELS && p.1 in v[p.0]
    ensures LevelAfter(FilesOf(EMPTY_VERSION[l]), e, l) == FilesOf(v[l])
  {
    forall f | f in v[l]
      ensures f in AddedAt(e.added, l)
    {
      assert (l as int, f) in e.added;
    }
    assert EMPTY_VERSION[l] == [];
  }

  /** Replaying the new MANIFEST gives the recovered version and its counters. */
  lemma NewManifest(v: Version, e: Edit)
    requires WellFormed(v) && e.logNumber.Some? && e.nextFile.Some? && e.lastSequence.Some?
    ensures Replay([FilesEdit({}, SnapshotAdditions(v, NUM_LEVELS)), e])
         == ManifestState(ApplyEdit(v, e), e.logNumber.value, e.nextFile.value, e.lastSequence.value)
  {
    var first := FilesEdit({}, SnapshotAdditions(v, NUM_LEVELS));
    assert [first] == [] + [first] && [first, e] == [first] + [e];
    ReplayAppend([], first);
    ReplayAppend([first], e);
    SnapshotRecord(v);
  }

  // ---- The step ----

  /** What Inv says of a closed database, taken apart. */
  lemma RecoveryInputs(s: State, ms: ManifestState, records: seq<Batch>)
    requires Inv(s) && ms == Replay(s.disk.manifests[s.disk.current])
    requires records == Tail(s.disk.logs, ms.logNumber, s.limit)
    ensures RecordFacts(records) == Facts(s.hist, s.diskView.covered, |s.hist|)
    ensures Max(ms.lastSequence, MaxSequence(records)) == End(s.hist, |s.hist|)
  {
    RecordsAreFacts(s.hist, s.diskView.covered);
    RecoveredLast(s.hist, s.diskView.covered, ms.lastSequence);
  }

  /** The state recovery leaves: a new empty log, a new MANIFEST, everything in the version. */
  ghost predicate FreshState(s': State, v: Version, next: nat, floor: nat) {
    && HistOk(s'.hist) && s'.acked == |s'.hist| && s'.db.Some?
    && s'.disk.current in s'.disk.manifests && s'.disk.current < next
    && s'.limit == next && s'.limit >= 1 && (s'.limit - 1) in s'.disk.logs && s'.disk.logs[s'.limit - 1] == []
    && (forall n :: n in s'.disk.logs ==> n < s'.limit)
    && s'.diskView == View(|s'.hist|, floor) && floor <= End(s'.hist, |s'.hist|)
    && s'.db.value == Db({}, None, |s'.hist|, s'.limit - 1, s'.limit - 1, next, End(s'.hist, |s'.hist|), v,
                         View(|s'.hist|, floor), None, [], [], None, None)
  }

  lemma FreshStateInv(s': State, v: Version, next: nat, floor: nat)
    requires FreshState(s', v, next, floor)
    requires Replay(s'.disk.manifests[s'.disk.current]) == ManifestState(v, s'.limit - 1, next, End(s'.hist, |s'.hist|))
    requires ViewOk(s'.hist, v, View(|s'.hist|, floor)) && FilesOnDisk(s'.disk.tables, v, next)
    ensures Inv(s')
  {
    var log := s'.limit - 1;
    assert Tail(s'.disk.logs, log, log) == [];
    assert Tail(s'.disk.logs, log, s'.limit) == Tail(s'.disk.logs, log, log) + s'.disk.logs[log];
    assert s'.hist[|s'.hist|..] == [];
  }

  /** The edit recovery builds. */
  function RecoveryEdit(hist: seq<Batch>, fs: seq<File>, newLog: nat): Edit {
    Edit(Some(newLog), Some(newLog + 1), Some(End(hist, |hist|)), {}, Level0Additions(fs))
  }

  lemma RecoveredVersion(s: State, s': State, fs: seq<File>, newLog: nat, ms: ManifestState)
    requires Inv(s) && ms == Replay(s.disk.manifests[s.disk.current]) && RecoverFrom(s, s', fs, newLog, ms)
    ensures var v := ApplyEdit(ms.v, RecoveryEdit(s.hist, fs, newLog));
      && ViewOk(s.hist, v, View(|s.hist|, s.diskView.floor))
      && FilesOnDisk(s'.disk.tables, v, newLog + 1)
  {
    var edit := RecoveryEdit(s.hist, fs, newLog);
    RecoveryInputs(s, ms, Tail(s.disk.logs, ms.logNumber, s.limit));
    RecoveredView(s.hist, ms.v, s.diskView, ms.nextFile + 1, fs, edit);
    RecoveredNumbersDistinct(Facts(s.hist, s.diskView.covered, |s.hist|), ms.nextFile + 1, fs);
    RecoveredOnDisk(s.disk.tables, s'.disk.tables, ms.v, ms.nextFile + 1, fs, edit, newLog + 1);
  }

  lemma RecoveredState(s: State, s': State, fs: seq<File>, newLog: nat, ms: ManifestState)
    requires Inv(s) && ms == Replay(s.disk.manifests[s.disk.current]) && RecoverFrom(s, s', fs, newLog, ms)
    ensures FreshState(s', ApplyEdit(ms.v, RecoveryEdit(s.hist, fs, newLog)), newLog + 1, s.diskView.floor)
    ensures s'.disk.manifests[s'.disk.current] == [FilesEdit({}, SnapshotAdditions(ms.v, NUM_LEVELS)), RecoveryEdit(s.hist, fs, newLog)]
  {
    RecoveryInputs(s, ms, Tail(s.disk.logs, ms.logNumber, s.limit));
  }

  lemma RecoverKeepsInv(s: State, s': State, fs: seq<File>, newLog: nat)
    requires Inv(s) && RecoverFrom(s, s', fs, newLog, Replay(s.disk.manifests[s.disk.current]))
    ensures Inv(s')
  {
    var ms := Replay(s.disk.manifests[s.disk.current]);
    var edit := RecoveryEdit(s.hist, fs, newLog);
    RecoveredState(s, s', fs, newLog, ms);
    RecoveredVersion(s, s', fs, newLog, ms);
    NewManifest(ms.v, edit);
    FreshStateInv(s', ApplyEdit(ms.v, edit), newLog + 1, s.diskView.floor);
  }

  // ---- The start ----

  lemma EmptyVersionWellFormed()
    ensures WellFormed(EMPTY_VERSION) && VersionContents(EMPTY_VERSION) == {}
  {
    forall l, f
      ensures !At(EMPTY_VERSION, l, f)
    {
      if 0 <= l < NUM_LEVELS {
        assert EMPTY_VERSION[l] == [];
      }
    }
    forall e
      ensures e !in VersionContents(EMPTY_VERSION)
    {
      if e in VersionContents(EMPTY_VERSION) {
        var l, f := WhereInContents(EMPTY_VERSION, e);
        assert false;
      }
    }
  }

  lemma InitInv(s: State)
    requires Init(s)
    ensures Inv(s)
  {
    var e := Edit(Some(0), Some(2), Some(0), {}, []);
    EmptyVersionWellFormed();
    ApplyNothing(EMPTY_VERSION);
    SameFiles(EMPTY_VERSION, e, FilesEdit({}, []));
    assert [e] == [] + [e];
    ReplayAppend([], e);
  }
}
