/** What the drop rule of a compaction preserves (db/db_impl.cc:938-973). */
module CompactionMeaning {
  import opened DbFormat
  import opened History
  import opened SortedRuns
  import opened Versions
  import opened InputSelection
  import opened Compaction

  /** The merged input holds exactly the entries of the input files, in key order. */
  ghost predicate MergedInput(input: seq<Entry>, in0: seq<File>, in1: seq<File>) {
    Sorted(input) && forall e :: e in input <==> e in Contents(in0) || e in Contents(in1)
  }

  ghost function DroppedSet(v: Version, level: nat, input: seq<Entry>, snap: nat): set<Entry> {
    set i | 0 <= i < |input| && Dropped(v, level, input, snap, i) :: input[i]
  }

  ghost predicate IsLeftover(v: Version, level: nat, in1: seq<File>, f: File) {
    At(v, level + 1, f) && f !in in1
  }

  /** Entries of the output level that are not part of the compaction. */
  ghost function Leftover(v: Version, level: nat, in1: seq<File>): set<Entry> {
    set f, e | level + 1 < |v| && f in v[level + 1] && f !in in1 && e in f.table :: e
  }

  /** No deletion marker that the base-level rule drops was hiding a value kept by an unselected
      file of the output level.  A caller can check this before the compaction runs. */
  ghost predicate NoResurrection(v: Version, level: nat, in1: seq<File>, input: seq<Entry>, snap: nat) {
    forall k, e :: IsNewest(VersionContents(v), k, snap, e) && e.op.Del? && e in input && BaseLevel(v, level, k)
      ==> Read(Leftover(v, level, in1), k, e.num) == None
  }

  ghost predicate CompactionSetup(v: Version, level: nat, in0: seq<File>, in1: seq<File>, input: seq<Entry>) {
    && WellFormed(v)
    && Consistent(VersionContents(v))
    && GoodInputs(v, level, in0, in1)
    && MergedInput(input, in0, in1)
  }

  /** The entry just before j has the same user key and is no newer than an earlier entry i. */
  lemma NeighbourOf(input: seq<Entry>, i: nat, j: nat)
    requires Sorted(input) && i < j < |input| && input[i].user == input[j].user
    ensures input[j - 1].user == input[j].user && input[j - 1].num <= input[i].num
  {
    assert Less(KeyOf(input[j - 1]), KeyOf(input[j]));
    assert i < j - 1 ==> Less(KeyOf(input[i]), KeyOf(input[j - 1]));
  }

  /** Each merged entry comes from an input file of one of the two levels. */
  lemma SourceOf(v: Version, level: nat, in0: seq<File>, in1: seq<File>, input: seq<Entry>, e: Entry)
    returns (l: int, f: File)
    requires CompactionSetup(v, level, in0, in1, input) && e in input
    ensures At(v, l, f) && e in f.table && e in VersionContents(v)
    ensures (l == level && f in in0) || (l == level + 1 && f in in1)
  {
    if e in Contents(in0) {
      f :| f in in0 && e in f.table;
      l := level;
    } else {
      f :| f in in1 && e in f.table;
      l := level + 1;
    }
    InContents(v, l, f, e);
  }

  /** Whatever lies above the compaction and is not part of it only holds newer entries of a
      user key that the input holds. */
  lemma OlderThanOutside(v: Version, level: nat, in0: seq<File>, in1: seq<File>, input: seq<Entry>,
                         e: Entry, m: int, g: File, x: Entry)
    requires CompactionSetup(v, level, in0, in1, input)
    requires e in input && At(v, m, g) && x in g.table && x.user == e.user
    requires m <= level && !(m == level && g in in0)
    ensures x.num > e.num
  {
    var l, f := SourceOf(v, level, in0, in1, input, e);
    assert x in TableSet(g) && e in TableSet(f);
    if m == l {
      assert Above(TableSet(g), TableSet(f));
    } else {
      assert PairOk(m, g, l, f);
    }
  }

  /** Below the output level everything is older. */
  lemma NewerThanBelow(v: Version, level: nat, in0: seq<File>, in1: seq<File>, input: seq<Entry>,
                       e: Entry, m: int, g: File, x: Entry)
    requires CompactionSetup(v, level, in0, in1, input)
    requires e in input && At(v, m, g) && x in g.table && x.user == e.user && m >= level + 2
    ensures x.num < e.num
  {
    var l, f := SourceOf(v, level, in0, in1, input, e);
    assert x in TableSet(g) && e in TableSet(f) && PairOk(l, f, m, g);
  }

  /** The newest entry a reader sees is never hidden by rule (A). */
  lemma NewestIsNotHidden(v: Version, level: nat, in0: seq<File>, in1: seq<File>, input: seq<Entry>,
                          snap: nat, k: UserKey, s: nat, i: nat)
    requires CompactionSetup(v, level, in0, in1, input) && snap <= s && i < |input|
    requires IsNewest(VersionContents(v), k, s, input[i])
    ensures !(i > 0 && input[i - 1].user == input[i].user && input[i - 1].num <= snap)
  {
    assert Candidate(VersionContents(v), k, s, input[i]);
    if i > 0 && input[i - 1].user == input[i].user && input[i - 1].num <= snap {
      var l, f := SourceOf(v, level, in0, in1, input, input[i - 1]);
      assert Less(KeyOf(input[i - 1]), KeyOf(input[i]));
      assert Candidate(VersionContents(v), k, s, input[i - 1]);
    }
  }

  /** Input entries below a marker at or below the snapshot all go by rule (A). */
  lemma OlderInputIsDropped(v: Version, level: nat, input: seq<Entry>, snap: nat, i: nat, j: nat)
    requires Sorted(input) && i < |input| && j < |input|
    requires input[i].num <= snap && input[j].user == input[i].user && input[j].num < input[i].num
    ensures Dropped(v, level, input, snap, j)
  {
    assert j < i ==> Less(KeyOf(input[j]), KeyOf(input[i]));
    if i < j {
      NeighbourOf(input, i, j);
    }
  }

  /** Below a dropped deletion marker only unselected output-level files keep older entries. */
  lemma OlderSurvivorIsLeftover(v: Version, level: nat, in0: seq<File>, in1: seq<File>, input: seq<Entry>,
                                snap: nat, i: nat, x: Entry)
    requires CompactionSetup(v, level, in0, in1, input) && i < |input|
    requires input[i].num <= snap && BaseLevel(v, level, input[i].user)
    requires x in VersionContents(v) && x !in DroppedSet(v, level, input, snap)
    requires x.user == input[i].user && x.num < input[i].num
    ensures x in Leftover(v, level, in1)
  {
    if j :| 0 <= j < |input| && input[j] == x {
      OlderInputIsDropped(v, level, input, snap, i, j);
    }
    var m, g := WhereInContents(v, x);
    OutsideInput(input, in0, in1, x, g);
    if m <= level {
      OlderThanOutside(v, level, in0, in1, input, input[i], m, g, x);
    } else if m >= level + 2 {
      InBounds(g, x);
      assert Covers(g, x.user);
    }
  }

  lemma OutsideInput(input: seq<Entry>, in0: seq<File>, in1: seq<File>, x: Entry, g: File)
    requires MergedInput(input, in0, in1) && x !in input && x in g.table
    ensures g !in in0 && g !in in1
  {
    assert g in in0 ==> x in Contents(in0);
    assert g in in1 ==> x in Contents(in1);
  }

  /** Nothing unselected is ever dropped. */
  lemma LeftoverSurvives(v: Version, level: nat, in0: seq<File>, in1: seq<File>, input: seq<Entry>, snap: nat, x: Entry)
    requires CompactionSetup(v, level, in0, in1, input)
    requires x in Leftover(v, level, in1)
    ensures x in VersionContents(v) && x !in DroppedSet(v, level, input, snap)
  {
    var g :| At(v, level + 1, g) && g !in in1 && x in g.table;
    InContents(v, level + 1, g, x);
    if x in input {
      var l, f := SourceOf(v, level, in0, in1, input, x);
      SharedEntry(v, l, f, level + 1, g, x);
    }
  }

  /** Two files of a well-formed version never hold the same entry. */
  lemma SharedEntry(v: Version, l: int, f: File, m: int, g: File, x: Entry)
    requires WellFormed(v) && At(v, l, f) && At(v, m, g) && x in f.table && x in g.table
    ensures l == m && f == g
  {
    assert x in TableSet(f) && x in TableSet(g);
    assert PairOk(l, f, m, g) && PairOk(m, g, l, f);
    if l == m && f != g && l > 0 {
      InBounds(f, x);
      InBounds(g, x);
    }
  }

  /** Dropping an obsolete marker e, which was the newest entry a reader at s saw, uncovers
      exactly what the unselected output-level files hold below it. */
  lemma WhatDroppingUncovers(v: Version, level: nat, in0: seq<File>, in1: seq<File>, input: seq<Entry>,
                             snap: nat, k: UserKey, s: nat, i: nat)
    requires CompactionSetup(v, level, in0, in1, input) && snap <= s && i < |input|
    requires IsNewest(VersionContents(v), k, s, input[i])
    requires Dropped(v, level, input, snap, i)
    ensures input[i].op.Del? && input[i].num <= snap && BaseLevel(v, level, k)
    ensures Lookup(VersionContents(v) - DroppedSet(v, level, input, snap), k, s)
            == Lookup(Leftover(v, level, in1), k, input[i].num)
  {
    NewestIsNotHidden(v, level, in0, in1, input, snap, k, s, i);
    var E, L, e := VersionContents(v) - DroppedSet(v, level, input, snap), Leftover(v, level, in1), input[i];
    assert Candidate(VersionContents(v), k, s, e);
    assert e in DroppedSet(v, level, input, snap);
    forall x
      ensures Candidate(E, k, s, x) <==> Candidate(L, k, e.num, x)
    {
      if Candidate(E, k, s, x) {
        assert Candidate(VersionContents(v), k, s, x);
        assert x != e;
        OlderSurvivorIsLeftover(v, level, in0, in1, input, snap, i, x);
      }
      if Candidate(L, k, e.num, x) {
        LeftoverSurvives(v, level, in0, in1, input, snap, x);
      }
    }
    SameCandidates(E, L, k, s, e.num);
  }

  lemma SameCandidates(A: set<Entry>, B: set<Entry>, k: UserKey, s: nat, t: nat)
    requires Consistent(A) && Consistent(B)
    requires forall x :: Candidate(A, k, s, x) <==> Candidate(B, k, t, x)
    ensures Lookup(A, k, s) == Lookup(B, k, t)
  {
    if x :| Candidate(A, k, s, x) {
      var n := NewestExists(A, k, s, x);
      assert IsNewest(B, k, t, n);
      LookupIs(A, k, s, n);
      LookupIs(B, k, t, n);
    } else {
      LookupNone(A, k, s);
      LookupNone(B, k, t);
    }
  }

  /** Dropping other entries changes nothing for a reader whose newest entry stays. */
  lemma NewestKept(E: set<Entry>, D: set<Entry>, k: UserKey, s: nat, e: Entry)
    requires Consistent(E) && IsNewest(E, k, s, e) && e !in D
    ensures Lookup(E - D, k, s) == Lookup(E, k, s)
  {
    assert Candidate(E, k, s, e);
    forall x | Candidate(E - D, k, s, x)
      ensures x.num <= e.num
    {
      assert Candidate(E, k, s, x);
    }
    assert IsNewest(E - D, k, s, e);
    LookupIs(E, k, s, e);
    LookupIs(E - D, k, s, e);
  }

  /** Compaction preserves every read at or above smallest_snapshot exactly when no dropped
      deletion marker was hiding a value in an unselected file of the output level. */
  lemma CompactionPreservesReads(v: Version, level: nat, in0: seq<File>, in1: seq<File>, input: seq<Entry>, snap: nat)
    requires CompactionSetup(v, level, in0, in1, input)
    ensures ReadsAlike(VersionContents(v) - DroppedSet(v, level, input, snap), VersionContents(v), snap)
            <==> NoResurrection(v, level, in1, input, snap)
  {
    var E, D := VersionContents(v), DroppedSet(v, level, input, snap);
    if NoResurrection(v, level, in1, input, snap) {
      forall k, s: nat | s >= snap
        ensures Read(E - D, k, s) == Read(E, k, s)
      {
        ReadSurvives(v, level, in0, in1, input, snap, k, s);
      }
    }
    if ReadsAlike(E - D, E, snap) {
      forall k, e | IsNewest(E, k, snap, e) && e.op.Del? && e in input && BaseLevel(v, level, k)
        ensures Read(Leftover(v, level, in1), k, e.num) == None
      {
        assert Candidate(E, k, snap, e);
        var i :| 0 <= i < |input| && input[i] == e;
        assert Dropped(v, level, input, snap, i);
        WhatDroppingUncovers(v, level, in0, in1, input, snap, k, snap, i);
        LookupIs(E, k, snap, e);
        assert Read(E - D, k, snap) == Read(E, k, snap);
      }
    }
  }

  lemma ReadSurvives(v: Version, level: nat, in0: seq<File>, in1: seq<File>, input: seq<Entry>,
                     snap: nat, k: UserKey, s: nat)
    requires CompactionSetup(v, level, in0, in1, input) && snap <= s
    requires NoResurrection(v, level, in1, input, snap)
    ensures Read(VersionContents(v) - DroppedSet(v, level, input, snap), k, s) == Read(VersionContents(v), k, s)
  {
    var E, D := VersionContents(v), DroppedSet(v, level, input, snap);
    if x :| Candidate(E, k, s, x) {
      var e := NewestExists(E, k, s, x);
      if e !in D {
        NewestKept(E, D, k, s, e);
      } else {
        var i :| 0 <= i < |input| && input[i] == e && Dropped(v, level, input, snap, i);
        WhatDroppingUncovers(v, level, in0, in1, input, snap, k, s, i);
        LookupIs(E, k, s, e);
        NewestAtSnap(E, k, s, snap, e);
      }
    } else {
      LookupNone(E, k, s);
      forall x
        ensures !Candidate(E - D, k, s, x)
      {
        assert !Candidate(E, k, s, x);
      }
      LookupNone(E - D, k, s);
    }
  }

  lemma NewestAtSnap(E: set<Entry>, k: UserKey, s: nat, snap: nat, e: Entry)
    requires IsNewest(E, k, s, e) && e.num <= snap <= s
    ensures IsNewest(E, k, snap, e)
  {
    assert Candidate(E, k, s, e);
    forall x | Candidate(E, k, snap, x)
      ensures x.num <= e.num
    {
      assert Candidate(E, k, s, x);
    }
  }

  /** The simple sufficient precondition: no unselected output-level file holds an older entry
      of a user key present in the input. */
  lemma ClosedOutputLevelSuffices(v: Version, level: nat, in0: seq<File>, in1: seq<File>, input: seq<Entry>, snap: nat)
    requires CompactionSetup(v, level, in0, in1, input)
    requires forall x, e :: x in Leftover(v, level, in1) && e in input && x.user == e.user ==> x.num > e.num
    ensures NoResurrection(v, level, in1, input, snap)
  {
    forall k, e | IsNewest(VersionContents(v), k, snap, e) && e in input
      ensures Read(Leftover(v, level, in1), k, e.num) == None
    {
      assert Candidate(VersionContents(v), k, snap, e);
      LookupNone(Leftover(v, level, in1), k, e.num);
    }
  }

  function OneFile(number: nat, table: seq<Entry>): File
    requires table != []
  {
    File(number, 1, KeyOf(table[0]), KeyOf(table[|table| - 1]), table)
  }

  // The condition can fail.  A level-2 file ends with a deletion marker of a key whose older value
  // opens the next level-2 file; only the first of them meets the level-1 input.
  const TOP := Entry(1.0, 20, Put([]))
  const MIDDLE := Entry(1.0, 10, Put([]))
  const MARKER := Entry(2.0, 5, Del)
  const HIDDEN := Entry(2.0, 3, Put([7]))
  const SPLIT_VERSION: Version :=
    [[], [OneFile(1, [TOP])], [OneFile(2, [MIDDLE, MARKER]), OneFile(3, [HIDDEN])], [], [], [], []]

  lemma SplitVersionFiles()
    ensures forall l, x :: At(SPLIT_VERSION, l, x) <==>
      (l == 1 && x == OneFile(1, [TOP])) || (l == 2 && (x == OneFile(2, [MIDDLE, MARKER]) || x == OneFile(3, [HIDDEN])))
  {
  }

  lemma SplitFilesValid()
    ensures ValidFile(OneFile(1, [TOP])) && ValidFile(OneFile(2, [MIDDLE, MARKER])) && ValidFile(OneFile(3, [HIDDEN]))
  {
  }

  lemma SplitFilesInOrder()
    ensures Above(TableSet(OneFile(1, [TOP])), TableSet(OneFile(2, [MIDDLE, MARKER])))
    ensures Above(TableSet(OneFile(1, [TOP])), TableSet(OneFile(3, [HIDDEN])))
    ensures FilesApart(OneFile(2, [MIDDLE, MARKER]), OneFile(3, [HIDDEN]))
  {
    assert forall x :: x in TableSet(OneFile(1, [TOP])) ==> x == TOP;
    assert forall x :: x in TableSet(OneFile(2, [MIDDLE, MARKER])) ==> x == MIDDLE || x == MARKER;
    assert forall x :: x in TableSet(OneFile(3, [HIDDEN])) ==> x == HIDDEN;
  }

  lemma SplitLevelsSorted()
    ensures forall l :: 0 <= l < NUM_LEVELS ==> SortedBySmallest(SPLIT_VERSION[l])
  {
    assert forall l :: 0 <= l < NUM_LEVELS && l != 2 ==> |SPLIT_VERSION[l]| <= 1;
    assert SortedBySmallest(SPLIT_VERSION[2]);
  }

  lemma SplitVersionWellFormed()
    ensures WellFormed(SPLIT_VERSION)
  {
    SplitVersionFiles();
    SplitFilesValid();
    SplitLevelsSorted();
    forall l, m, x, y | At(SPLIT_VERSION, l, x) && At(SPLIT_VERSION, m, y)
      ensures PairOk(l, x, m, y)
    {
      SplitFilesInOrder();
    }
  }

  lemma SplitVersionContents()
    ensures VersionContents(SPLIT_VERSION) == {TOP, MIDDLE, MARKER, HIDDEN}
  {
    SplitVersionFiles();
    forall x
      ensures x in VersionContents(SPLIT_VERSION) <==> x in {TOP, MIDDLE, MARKER, HIDDEN}
    {
      var f, g, h := OneFile(1, [TOP]), OneFile(2, [MIDDLE, MARKER]), OneFile(3, [HIDDEN]);
      if x in VersionContents(SPLIT_VERSION) {
        var l, y := WhereInContents(SPLIT_VERSION, x);
      } else {
        assert At(SPLIT_VERSION, 1, f) && At(SPLIT_VERSION, 2, g) && At(SPLIT_VERSION, 2, h);
        assert TOP in f.table && MIDDLE in g.table && MARKER in g.table && HIDDEN in h.table;
      }
    }
  }

  /** On this version every compaction of level 1 has the same inputs. */
  lemma SplitInputs(in0: seq<File>, in1: seq<File>, input: seq<Entry>)
    requires CompactionSetup(SPLIT_VERSION, 1, in0, in1, input)
    ensures forall e :: e in input <==> e == TOP || e == MIDDLE || e == MARKER
  {
    var f, g, h := OneFile(1, [TOP]), OneFile(2, [MIDDLE, MARKER]), OneFile(3, [HIDDEN]);
    assert in0[0] in in0 && forall x :: x in in0 ==> x in SPLIT_VERSION[1];
    assert forall x :: x in in0 <==> x == f;
    var lo, hi :| Hull(in0, lo, hi) && forall x :: x in in1 <==> x in SPLIT_VERSION[2] && Overlaps(x, Some(lo), Some(hi));
    assert SPLIT_VERSION[2] == [g, h];
    assert forall x :: x in SPLIT_VERSION[2] <==> x == g || x == h;
    assert forall x :: x in in1 <==> x == g;
    assert f.table == [TOP] && g.table == [MIDDLE, MARKER];
    forall e
      ensures e in input <==> e == TOP || e == MIDDLE || e == MARKER
    {
      assert e in Contents(in0) <==> e in f.table;
      assert e in Contents(in1) <==> e in g.table;
    }
  }

  /** ... the marker is dropped, and the deleted value is back. */
  lemma DeletedValueComesBack(in0: seq<File>, in1: seq<File>, input: seq<Entry>)
    requires CompactionSetup(SPLIT_VERSION, 1, in0, in1, input)
    ensures Read(VersionContents(SPLIT_VERSION), 2.0, 20) == None
    ensures Read(VersionContents(SPLIT_VERSION) - DroppedSet(SPLIT_VERSION, 1, input, 20), 2.0, 20) == Some([7])
  {
    SplitInputs(in0, in1, input);
    SplitVersionContents();
    var E := VersionContents(SPLIT_VERSION);
    assert IsNewest(E, 2.0, 20, MARKER) by {
      assert Candidate(E, 2.0, 20, MARKER);
    }
    LookupIs(E, 2.0, 20, MARKER);
    assert BaseLevel(SPLIT_VERSION, 1, 2.0) by { SplitVersionFiles(); }
    assert MARKER in input && HIDDEN !in input;
    var i: nat :| i < |input| && input[i] == MARKER;
    assert Dropped(SPLIT_VERSION, 1, input, 20, i);
    var E' := E - DroppedSet(SPLIT_VERSION, 1, input, 20);
    assert IsNewest(E', 2.0, 20, HIDDEN) by {
      assert Candidate(E', 2.0, 20, HIDDEN);
    }
    LookupIs(E', 2.0, 20, HIDDEN);
  }
}
