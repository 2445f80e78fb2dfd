/** What an iterator of the database runs over: the memtables and the files of a version, merged
    (db/db_impl.cc NewInternalIterator, NewIterator; db/version_set.cc AddIterators). */
module InternalIterators {
  import opened DbFormat
  import opened History
  import opened SortedRuns
  import opened Versions
  import opened CompactionRun
  import opened MergingIterators
  import opened DbIterator
  import opened GroupLog
  import opened Protocol
  import opened ProtocolSafety
  import opened ProtocolTheorems

  // ---- Runs ----

  /** The entries of some runs. */
  ghost function RunsSet(ts: seq<seq<Entry>>): set<Entry> {
    set i, e | 0 <= i < |ts| && e in ts[i] :: e
  }

  ghost predicate NoCommonKey(A: set<Entry>, B: set<Entry>) {
    forall x, y {:trigger KeyOf(x), KeyOf(y)} :: x in A && y in B ==> KeyOf(x) != KeyOf(y)
  }

  lemma AppendRuns(a: seq<seq<Entry>>, b: seq<seq<Entry>>)
    requires MergeableRuns(a) && MergeableRuns(b) && NoCommonKey(RunsSet(a), RunsSet(b))
    ensures MergeableRuns(a + b) && RunsSet(a + b) == RunsSet(a) + RunsSet(b)
  {
    var c := a + b;
    forall i, j | 0 <= i < j < |c|
      ensures DisjointKeys(c[i], c[j])
    {
      if i < |a| <= j {
        forall x, y | x in c[i] && y in c[j]
          ensures KeyOf(x) != KeyOf(y)
        {
          assert x in a[i] && y in b[j - |a|];
          assert x in RunsSet(a) && y in RunsSet(b);
        }
      } else if i >= |a| {
        assert DisjointKeys(b[i - |a|], b[j - |a|]);
      }
    }
    forall e
      ensures e in RunsSet(c) <==> e in RunsSet(a) + RunsSet(b)
    {
      if e in RunsSet(c) {
        var i :| 0 <= i < |c| && e in c[i];
        assert i < |a| ==> e in a[i];
        assert i >= |a| ==> e in b[i - |a|];
      }
      if i :| 0 <= i < |a| && e in a[i] {
        assert e in c[i];
      }
      if i :| 0 <= i < |b| && e in b[i] {
        assert e in c[i + |a|];
      }
    }
  }

  lemma OneRun(t: seq<Entry>)
    requires Sorted(t)
    ensures MergeableRuns([t]) && RunsSet([t]) == SetOf(t)
  {
    forall e
      ensures e in RunsSet([t]) <==> e in SetOf(t)
    {
      if e in t {
        assert e in [t][0];
      }
    }
  }

  // ---- The concatenating iterator of a level ----

  /** NewConcatenatingIterator yields the files of a level one after the other. */
  function Concatenation(fs: seq<File>): seq<Entry> {
    if fs == [] then [] else fs[0].table + Concatenation(fs[1..])
  }

  lemma {:induction false} ConcatenationElements(fs: seq<File>, e: Entry)
    ensures e in Concatenation(fs) <==> e in Contents(fs)
  {
    if fs != [] {
      ConcatenationElements(fs[1..], e);
      assert e in Contents(fs) <==> e in fs[0].table || e in Contents(fs[1..]) by {
        assert fs == [fs[0]] + fs[1..];
      }
    }
  }

  /** On a disjoint sorted level that is one sorted run. */
  lemma {:induction false} ConcatenationSorted(fs: seq<File>)
    requires ValidFiles(fs) && DisjointSorted(fs)
    ensures Sorted(Concatenation(fs))
  {
    if fs != [] {
      var t, rest := fs[0].table, Concatenation(fs[1..]);
      assert ValidFile(fs[0]) by {
        assert fs[0] in fs;
      }
      ConcatenationSorted(fs[1..]);
      forall x, y | x in t && y in rest
        ensures Less(KeyOf(x), KeyOf(y))
      {
        ConcatenationElements(fs[1..], y);
        FileBeforeRest(fs, x, y);
      }
      SortedConcat(t, rest);
    }
  }

  lemma FileBeforeRest(fs: seq<File>, x: Entry, y: Entry)
    requires ValidFiles(fs) && DisjointSorted(fs) && fs != [] && x in fs[0].table && y in Contents(fs[1..])
    ensures Less(KeyOf(x), KeyOf(y))
  {
    var g :| g in fs[1..] && y in g.table;
    var j :| 0 <= j < |fs[1..]| && fs[1..][j] == g;
    assert Less(fs[0].largest, fs[j + 1].smallest);
    InBounds(fs[0], x);
    InBounds(g, y);
  }

  lemma SortedConcat(a: seq<Entry>, b: seq<Entry>)
    requires Sorted(a) && Sorted(b)
    requires forall x, y {:trigger KeyOf(x), KeyOf(y)} :: x in a && y in b ==> Less(KeyOf(x), KeyOf(y))
    ensures Sorted(a + b)
  {
    var c := a + b;
    forall i, j | 0 <= i < j < |c|
      ensures Less(KeyOf(c[i]), KeyOf(c[j]))
    {
      if i < |a| <= j {
        assert c[i] in a && c[j] == b[j - |a|];
      } else if i >= |a| {
        assert c[i] == b[i - |a|] && c[j] == b[j - |a|];
      }
    }
  }

  // ---- AddIterators ----

  /** One run for every non-empty level from l on. */
  function LevelRuns(v: Version, l: nat): seq<seq<Entry>>
    decreases |v| - l
  {
    if l >= |v| then [] else (if v[l] == [] then [] else [Concatenation(v[l])]) + LevelRuns(v, l + 1)
  }

  /** The entries of the levels from l on. */
  ghost function DeepContents(v: Version, l: nat): set<Entry> {
    set m, f, e | l <= m < |v| && f in v[m] && e in f.table :: e
  }

  lemma DeepSplit(v: Version, l: nat)
    requires l < |v|
    ensures DeepContents(v, l) == Contents(v[l]) + DeepContents(v, l + 1)
  {
    forall e
      ensures e in DeepContents(v, l) <==> e in Contents(v[l]) + DeepContents(v, l + 1)
    {
      if e in DeepContents(v, l) {
        var m, f :| l <= m < |v| && f in v[m] && e in f.table;
        assert m == l || e in DeepContents(v, l + 1);
      }
    }
  }

  lemma LevelsShareNoKey(v: Version, l: nat)
    requires WellFormed(v) && Consistent(VersionContents(v)) && l < NUM_LEVELS
    ensures NoCommonKey(Contents(v[l]), DeepContents(v, l + 1))
  {
    forall x, y {:trigger KeyOf(x), KeyOf(y)} | x in Contents(v[l]) && y in DeepContents(v, l + 1)
      ensures KeyOf(x) != KeyOf(y)
    {
      var f :| f in v[l] && x in f.table;
      var m, g :| l + 1 <= m < |v| && g in v[m] && y in g.table;
      assert At(v, l, f) && At(v, m, g);
      FilesHaveDisjointKeys(v, l, f, m, g);
    }
  }

  lemma {:induction false} LevelRunsMergeable(v: Version, l: nat)
    requires WellFormed(v) && Consistent(VersionContents(v)) && 1 <= l <= NUM_LEVELS
    ensures MergeableRuns(LevelRuns(v, l)) && RunsSet(LevelRuns(v, l)) == DeepContents(v, l)
    decreases NUM_LEVELS - l
  {
    if l < NUM_LEVELS {
      LevelRunsMergeable(v, l + 1);
      DeepSplit(v, l);
      if v[l] == [] {
        assert Contents(v[l]) == {};
        assert [] + LevelRuns(v, l + 1) == LevelRuns(v, l + 1);
      } else {
        var t := Concatenation(v[l]);
        LevelsDisjointSorted(v, l);
        ConcatenationSorted(v[l]);
        OneRun(t);
        SetOfConcatenation(v[l]);
        LevelsShareNoKey(v, l);
        AppendRuns([t], LevelRuns(v, l + 1));
      }
    }
  }

  lemma SetOfConcatenation(fs: seq<File>)
    ensures SetOf(Concatenation(fs)) == Contents(fs)
  {
    forall e
      ensures e in SetOf(Concatenation(fs)) <==> e in Contents(fs)
    {
      ConcatenationElements(fs, e);
    }
  }

  /** The runs of a version: a table iterator for each level-0 file, one run per deeper level. */
  function VersionRuns(v: Version): seq<seq<Entry>>
    requires |v| > 0
  {
    Tables(v[0]) + LevelRuns(v, 1)
  }

  lemma Level0Runs(v: Version)
    requires WellFormed(v) && Consistent(VersionContents(v))
    requires forall i, j :: 0 <= i < j < |v[0]| ==> v[0][i] != v[0][j]
    ensures MergeableRuns(Tables(v[0])) && RunsSet(Tables(v[0])) == Contents(v[0])
  {
    LevelFilesValid(v, 0);
    var ts := Tables(v[0]);
    forall i | 0 <= i < |ts|
      ensures Sorted(ts[i])
    {
      assert v[0][i] in v[0] && ValidFile(v[0][i]);
    }
    forall i, j | 0 <= i < j < |ts|
      ensures DisjointKeys(ts[i], ts[j])
    {
      assert At(v, 0, v[0][i]) && At(v, 0, v[0][j]);
      FilesHaveDisjointKeys(v, 0, v[0][i], 0, v[0][j]);
    }
    forall e
      ensures e in RunsSet(ts) <==> e in Contents(v[0])
    {
      TablesCover(v[0], e);
    }
  }

  lemma VersionRunsMergeable(v: Version)
    requires WellFormed(v) && Consistent(VersionContents(v))
    ensures MergeableRuns(VersionRuns(v)) && RunsSet(VersionRuns(v)) == VersionContents(v)
  {
    assert forall i, j :: 0 <= i < j < |v[0]| ==> BySmallest(v[0][i], v[0][j]);
    Level0Runs(v);
    LevelRunsMergeable(v, 1);
    LevelsShareNoKey(v, 0);
    AppendRuns(Tables(v[0]), LevelRuns(v, 1));
    DeepSplit(v, 0);
    assert DeepContents(v, 0) == VersionContents(v);
  }

  // ---- NewInternalIterator ----

  /** Layers in which a shallower one only holds newer entries have no key in common. */
  lemma AboveShareNoKey(A: set<Entry>, B: set<Entry>)
    requires Above(A, B)
    ensures NoCommonKey(A, B)
  {
    forall x, y {:trigger KeyOf(x), KeyOf(y)} | x in A && y in B
      ensures KeyOf(x) != KeyOf(y)
    {
      if x.user == y.user {
        assert x.num > y.num;
      }
    }
  }

  /** The children in the order they are collected. */
  function Children(mem: seq<Entry>, imm: Option<seq<Entry>>, v: Version): seq<seq<Entry>>
    requires |v| > 0
  {
    [mem] + ((if imm.Some? then [imm.value] else []) + VersionRuns(v))
  }

  ghost function ImmSet(imm: Option<seq<Entry>>): set<Entry> {
    if imm.Some? then SetOf(imm.value) else {}
  }

  /** The children have no key in common, and together hold what the reader captured. */
  lemma ChildrenMergeable(mem: seq<Entry>, imm: Option<seq<Entry>>, v: Version)
    requires Sorted(mem) && (imm.Some? ==> Sorted(imm.value)) && Layered(SetOf(mem), ImmSet(imm), v)
    ensures MergeableRuns(Children(mem, imm, v))
    ensures RunsSet(Children(mem, imm, v)) == SetOf(mem) + ImmSet(imm) + VersionContents(v)
  {
    var V := VersionContents(v);
    SubsetConsistent(V, SetOf(mem) + ImmSet(imm) + V);
    VersionRunsMergeable(v);
    var below := (if imm.Some? then [imm.value] else []) + VersionRuns(v);
    if imm.Some? {
      OneRun(imm.value);
      AboveShareNoKey(ImmSet(imm), V);
      AppendRuns([imm.value], VersionRuns(v));
    } else {
      assert below == VersionRuns(v);
    }
    OneRun(mem);
    AboveShareNoKey(SetOf(mem), ImmSet(imm) + V);
    assert RunsSet(below) == ImmSet(imm) + V;
    AppendRuns([mem], below);
    assert SetOf(mem) + (ImmSet(imm) + V) == SetOf(mem) + ImmSet(imm) + V;
  }

  /** A new merging iterator over exactly the entries of the memtables and the version. */
  method NewInternalIterator(mem: seq<Entry>, imm: Option<seq<Entry>>, v: Version) returns (it: MergingIterator)
    requires Sorted(mem) && (imm.Some? ==> Sorted(imm.value)) && Layered(SetOf(mem), ImmSet(imm), v)
    ensures fresh(it) && fresh(it.children) && it.Valid() && !it.Positioned()
    ensures SetOf(it.merged) == SetOf(mem) + ImmSet(imm) + VersionContents(v)
  {
    var list := [mem];
    if imm.Some? {
      list := list + [imm.value];
    }
    list := list + VersionRuns(v);
    assert list == Children(mem, imm, v);
    var cursors := new Cursor[|list|](i requires 0 <= i < |list| => Cursor(list[i], None));
    ChildrenMergeable(mem, imm, v);
    MergeAllCorrect(list);
    MergesAll(list, cursors[..]);
    it := new MergingIterator(cursors, MergeAll(list));
  }

  lemma MergesAll(list: seq<seq<Entry>>, cs: seq<Cursor>)
    requires MergeableRuns(list) && |cs| == |list| && forall i :: 0 <= i < |cs| ==> cs[i] == Cursor(list[i], None)
    ensures Merges(MergeAll(list), cs) && SetOf(MergeAll(list)) == RunsSet(list)
  {
    MergeAllCorrect(list);
    forall i, j | 0 <= i < j < |cs|
      ensures DisjointKeys(cs[i].run, cs[j].run)
    {
      assert DisjointKeys(list[i], list[j]);
    }
    forall e | e in MergeAll(list)
      ensures exists i :: 0 <= i < |cs| && e in cs[i].run
    {
      var i :| 0 <= i < |list| && e in list[i];
      assert e in cs[i].run;
    }
  }

  // ---- Iterators see the history ----

  /** Stores with the same reads have the same least and greatest keys. */
  lemma SameReadsSameCursor(A: set<Entry>, B: set<Entry>, s: nat)
    requires forall k :: Read(A, k, s) == Read(B, k, s)
    ensures forall r, after, from :: Least(A, s, r, after, from) <==> Least(B, s, r, after, from)
    ensures forall r, before :: Greatest(A, s, r, before) <==> Greatest(B, s, r, before)
  {
  }

  /** Entries newer than the sequence number of a cursor change neither its reads nor its moves. */
  lemma NewerChangesNothing(E: set<Entry>, N: set<Entry>, s: nat)
    requires Consistent(E + N) && forall e :: e in N ==> e.num > s
    ensures forall k :: Read(E + N, k, s) == Read(E, k, s)
    ensures forall r, after, from :: Least(E + N, s, r, after, from) <==> Least(E, s, r, after, from)
    ensures forall r, before :: Greatest(E + N, s, r, before) <==> Greatest(E, s, r, before)
  {
    forall k
      ensures Read(E + N, k, s) == Read(E, k, s)
    {
      ReadIgnoresNewer(E, N, k, s);
    }
    SameReadsSameCursor(E + N, E, s);
  }

  /** DBImpl::NewIterator in any run and at any moment of it: the cursor moves over the keys of the
      first n write groups, those up to its sequence number.  N are newer entries that the memtable
      under it may have taken since, or be taking. */
  lemma IteratorSeesHistory(states: seq<State>, i: nat, r: Reader, N: set<Entry>, merged: seq<Entry>)
    returns (n: nat)
    requires Run(states) && i < |states| && states[i].db.Some? && r in states[i].db.value.readers
    requires SetOf(merged) == ReaderContents(r) + N && Consistent(SetOf(merged)) && forall e :: e in N ==> e.num > r.at
    ensures n <= states[i].acked <= |states[i].hist| && r.at == End(states[i].hist, n)
    ensures var H := Facts(states[i].hist, 0, n);
      && (forall k, after, from :: Least(SetOf(merged), r.at, k, after, from) <==> Least(H, r.at, k, after, from))
      && (forall k, before :: Greatest(SetOf(merged), r.at, k, before) <==> Greatest(H, r.at, k, before))
  {
    n := ReadersSeeWholeGroups(states, i, r);
    NewerChangesNothing(ReaderContents(r), N, r.at);
    SameReadsSameCursor(ReaderContents(r), Facts(states[i].hist, 0, n), r.at);
  }
}
