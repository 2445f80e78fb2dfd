/** Installing a new version: a memtable flush, a trivial move or a compaction keeps the version
    well formed (db/db_impl.cc: WriteLevel0Table, BackgroundCompaction, InstallCompactionResults). */
module Installing {
  import opened DbFormat
  import opened History
  import opened SortedRuns
  import opened Versions
  import opened InputSelection
  import opened Compaction
  import opened CompactionMeaning
  import opened VersionBuilder

  /** v' is v without the deleted (level, number) pairs and with the added (level, file) pairs,
      every level in BySmallestKey order: what VersionSet::Builder saves. */
  ghost predicate Applied(v: Version, deleted: set<(int, nat)>, added: set<(int, File)>, v': Version) {
    && |v'| == NUM_LEVELS
    && (forall l :: 0 <= l < NUM_LEVELS ==> SortedBySmallest(v'[l]))
    && (forall l, f :: At(v', l, f) <==> (At(v, l, f) && (l, f.number) !in deleted) || (l, f) in added)
  }

  ghost function AddedPairs(e: Edit): set<(int, File)> {
    set p | p in e.added
  }

  /** What the builder saves for one edit is the deletions and additions, no more. */
  lemma ApplyEditApplied(v: Version, e: Edit)
    requires |v| == NUM_LEVELS && EditLevelsOk(e)
    requires forall l :: 0 <= l < NUM_LEVELS ==> DistinctNumbers(FilesOf(v[l]) + AddedAt(e.added, l))
    requires forall p :: p in e.added ==> (p.0, p.1.number) !in e.deleted
    ensures Applied(v, e.deleted, AddedPairs(e), ApplyEdit(v, e))
  {
    var v' := ApplyEdit(v, e);
    forall l | 0 <= l < NUM_LEVELS
      ensures IsListing(LevelAfter(FilesOf(v[l]), e, l), v'[l])
    {
      assert LevelAfter(FilesOf(v[l]), e, l) <= FilesOf(v[l]) + AddedAt(e.added, l);
      ListingExists(LevelAfter(FilesOf(v[l]), e, l));
    }
    forall l, f
      ensures At(v', l, f) <==> (At(v, l, f) && (l, f.number) !in e.deleted) || (l, f) in AddedPairs(e)
    {
      if 0 <= l < NUM_LEVELS {
        AppliedAt(v, e, l, f);
        assert f in v'[l] <==> f in LevelAfter(FilesOf(v[l]), e, l);
      } else {
        assert (l, f) in AddedPairs(e) ==> (l, f) in e.added;
      }
    }
  }

  lemma AppliedAt(v: Version, e: Edit, l: int, f: File)
    requires 0 <= l < |v|
    requires DistinctNumbers(FilesOf(v[l]) + AddedAt(e.added, l))
    requires forall p :: p in e.added ==> (p.0, p.1.number) !in e.deleted
    ensures f in LevelAfter(FilesOf(v[l]), e, l) <==> (f in v[l] && (l, f.number) !in e.deleted) || (l, f) in e.added
  {
    var A := AddedAt(e.added, l);
    assert f in A <==> (l, f) in e.added by {
      if f in A {
        var p :| p in e.added && p.0 == l && p.1 == f;
        assert p == (l, f);
      }
      if (l, f) in e.added {
        assert (l, f).0 == l;
      }
    }
    if f in v[l] && f.number in NumbersOf(A) {
      var g :| g in A && g.number == f.number;
      assert f in FilesOf(v[l]) && g == f;
    }
  }

  /** Everything WellFormed asks of one file of the version. */
  ghost predicate Fits(v: Version, l: int, f: File) {
    && 0 <= l < NUM_LEVELS
    && ValidFile(f)
    && (forall m, g {:trigger PairOk(l, f, m, g)} {:trigger PairOk(m, g, l, f)} :: At(v, m, g) ==> PairOk(l, f, m, g) && PairOk(m, g, l, f))
  }

  lemma InstallKeepsWellFormed(v: Version, deleted: set<(int, nat)>, added: set<(int, File)>, v': Version)
    requires WellFormed(v) && Applied(v, deleted, added, v')
    requires forall l, f :: (l, f) in added ==> Fits(v', l, f)
    ensures WellFormed(v')
  {
    forall l, f | At(v', l, f)
      ensures ValidFile(f)
    {
      assert (l, f) in added ==> Fits(v', l, f);
    }
    forall l, m, f, g | At(v', l, f) && At(v', m, g)
      ensures PairOk(l, f, m, g)
    {
      assert (l, f) in added ==> Fits(v', l, f);
      assert (m, g) in added ==> Fits(v', m, g);
    }
  }

  // ---- Flush ----

  /** Every entry of the file is newer than every entry of the version. */
  ghost predicate NewerThanVersion(f: File, v: Version) {
    forall e, x :: e in f.table && x in VersionContents(v) ==> e.num > x.num
  }

  /** The guarantee of PickLevelForMemTableOutput about the level it returns. */
  ghost predicate GoodFlushLevel(v: Version, level: nat, f: File) {
    && level <= MAX_MEM_COMPACT_LEVEL < |v|
    && (level > 0 ==> forall l :: 0 <= l <= level ==> !SomeOverlap(v[l], Some(f.smallest.user), Some(f.largest.user)))
  }

  lemma FlushKeepsWellFormed(v: Version, level: nat, f: File, v': Version)
    requires WellFormed(v) && ValidFile(f) && NewerThanVersion(f, v)
    requires forall l, g :: At(v, l, g) ==> g.number < f.number
    requires |v| == NUM_LEVELS && GoodFlushLevel(v, level, f)
    requires Applied(v, {}, {(level, f)}, v')
    ensures WellFormed(v')
    ensures VersionContents(v') == VersionContents(v) + TableSet(f)
  {
    forall m, g | At(v', m, g) && g != f
      ensures g.number < f.number && Above(TableSet(f), TableSet(g))
      ensures 0 < level && m <= level ==> FilesApart(f, g) && Above(TableSet(g), TableSet(f))
    {
      assert At(v, m, g);
      assert forall x :: x in TableSet(g) ==> x in VersionContents(v);
      if 0 < level && m <= level {
        assert !Overlaps(g, Some(f.smallest.user), Some(f.largest.user));
        assert ValidFile(g);
        BoundsOrdered(f);
        BoundsOrdered(g);
        UserApartIsAbove(g, f);
      }
    }
    assert !At(v, level, f) by { assert At(v, level, f) ==> f.number < f.number; }
    assert Fits(v', level, f);
    InstallKeepsWellFormed(v, {}, {(level, f)}, v');
    FlushContents(v, level, f, v');
  }

  lemma FlushContents(v: Version, level: nat, f: File, v': Version)
    requires Applied(v, {}, {(level, f)}, v')
    ensures VersionContents(v') == VersionContents(v) + TableSet(f)
  {
    forall e
      ensures e in VersionContents(v') <==> e in VersionContents(v) || e in TableSet(f)
    {
      if e in VersionContents(v') {
        var l, g := WhereInContents(v', e);
        assert At(v, l, g) || g == f;
      }
      if e in VersionContents(v) {
        var l, g := WhereInContents(v, e);
        InContents(v', l, g, e);
      }
      if e in TableSet(f) {
        InContents(v', level, f, e);
      }
    }
  }

  // ---- Trivial move ----

  lemma TrivialMoveKeepsWellFormed(v: Version, level: nat, f: File, v': Version)
    requires WellFormed(v) && GoodInputs(v, level, [f], [])
    requires Applied(v, {(level as int, f.number)}, {(level as int + 1, f)}, v')
    ensures WellFormed(v')
    ensures VersionContents(v') == VersionContents(v)
  {
    assert At(v, level, f) by { assert f in [f]; }
    forall m, g | At(v', m, g) && !(m == level + 1 && g == f)
      ensures At(v, m, g) && g.number != f.number
      ensures m == level ==> Above(TableSet(g), TableSet(f))
      ensures m == level + 1 ==> FilesApart(f, g)
      ensures m < level ==> Above(TableSet(g), TableSet(f))
      ensures m > level + 1 ==> Above(TableSet(f), TableSet(g))
    {
      assert At(v, m, g);
      assert PairOk(m, g, level, f) && PairOk(level, f, m, g);
      if m == level {
        assert g !in [f] && f in [f];
      }
      if m == level + 1 {
        NothingMeets(v, level, f, g);
      }
    }
    assert Fits(v', level + 1, f);
    InstallKeepsWellFormed(v, {(level, f.number)}, {(level + 1, f)}, v');
    MoveContents(v, level, f, v');
  }

  lemma MoveContents(v: Version, level: nat, f: File, v': Version)
    requires WellFormed(v) && At(v, level, f)
    requires Applied(v, {(level as int, f.number)}, {(level as int + 1, f)}, v')
    ensures VersionContents(v') == VersionContents(v)
  {
    forall e
      ensures e in VersionContents(v') <==> e in VersionContents(v)
    {
      if e in VersionContents(v') {
        var l, g := WhereInContents(v', e);
        InContents(v, if g == f then level else l, g, e);
      }
      if e in VersionContents(v) {
        var l, g := WhereInContents(v, e);
        assert PairOk(l, g, level, f);
        InContents(v', if g == f then level + 1 else l, g, e);
      }
    }
  }

  /** With no next-level input, no next-level file meets the moved file. */
  lemma NothingMeets(v: Version, level: nat, f: File, g: File)
    requires GoodInputs(v, level, [f], []) && At(v, level + 1, g) && ValidFile(f) && ValidFile(g)
    ensures FilesApart(f, g)
  {
    var lo, hi :| Hull([f], lo, hi) && forall x :: x in [] <==> x in v[level + 1] && Overlaps(x, Some(lo), Some(hi));
    assert f in [f] && !Overlaps(g, Some(lo), Some(hi));
    BoundsOrdered(f);
    BoundsOrdered(g);
  }

  // ---- Compaction ----

  /** The (level, number) pairs AddInputDeletions removes. */
  ghost function InputDeletions(level: nat, in0: seq<File>, in1: seq<File>): set<(int, nat)> {
    (set f | f in in0 :: (level as int, f.number)) + (set f | f in in1 :: (level as int + 1, f.number))
  }

  ghost function OutputAdditions(level: nat, outs: seq<File>): set<(int, File)> {
    set f | f in outs :: (level as int + 1, f)
  }

  /** The output files: consecutive pieces of the kept entries, under numbers not in use. */
  ghost predicate OutputFiles(v: Version, kept: seq<Entry>, outs: seq<File>) {
    && (forall f :: f in outs ==> ValidFile(f))
    && (forall i, j :: 0 <= i < j < |outs| ==> Less(outs[i].largest, outs[j].smallest) && outs[i].number != outs[j].number)
    && (forall f, l, g :: f in outs && At(v, l, g) ==> f.number != g.number)
    && (forall e :: e in kept <==> e in Contents(outs))
  }

  lemma {:induction false} KeptElements(v: Version, level: nat, input: seq<Entry>, snap: nat, n: nat)
    requires n <= |input|
    ensures forall e :: e in Kept(v, level, input, snap, n) <==>
              exists i :: 0 <= i < n && input[i] == e && !Dropped(v, level, input, snap, i)
  {
    if n > 0 {
      KeptElements(v, level, input, snap, n - 1);
    }
  }

  lemma {:induction false} KeptSorted(v: Version, level: nat, input: seq<Entry>, snap: nat, n: nat)
    requires n <= |input| && Sorted(input)
    ensures Sorted(Kept(v, level, input, snap, n))
  {
    if n > 0 {
      KeptSorted(v, level, input, snap, n - 1);
      KeptElements(v, level, input, snap, n - 1);
      var before := Kept(v, level, input, snap, n - 1);
      forall k | 0 <= k < |before|
        ensures Less(KeyOf(before[k]), KeyOf(input[n - 1]))
      {
        assert before[k] in before;
      }
    }
  }

  /** The kept entries are exactly the input without the dropped set. */
  lemma KeptIsInputMinusDropped(v: Version, level: nat, input: seq<Entry>, snap: nat)
    requires Sorted(input)
    ensures forall e :: e in Kept(v, level, input, snap, |input|) <==> e in input && e !in DroppedSet(v, level, input, snap)
  {
    KeptElements(v, level, input, snap, |input|);
    assert forall i, j :: 0 <= i < j < |input| ==> Less(KeyOf(input[i]), KeyOf(input[j]));
  }

  /** An unselected file of the output level lies entirely before or entirely after the input. */
  lemma LeftoverIsApart(v: Version, level: nat, in0: seq<File>, in1: seq<File>, g: File)
    requires WellFormed(v) && GoodInputs(v, level, in0, in1) && IsLeftover(v, level, in1, g)
    ensures (forall f :: f in in0 || f in in1 ==> Less(f.largest, g.smallest))
         || (forall f :: f in in0 || f in in1 ==> Less(g.largest, f.smallest))
  {
    var lo, hi :| Hull(in0, lo, hi) && forall f :: f in in1 <==> f in v[level + 1] && Overlaps(f, Some(lo), Some(hi));
    assert !Overlaps(g, Some(lo), Some(hi));
    BoundsOrdered(g);
    forall f | f in in0 || f in in1
      ensures hi < g.smallest.user ==> Less(f.largest, g.smallest)
      ensures hi >= g.smallest.user ==> Less(g.largest, f.smallest)
    {
      if f in in0 {
        assert Within(f, Some(lo), Some(hi));
      } else {
        assert At(v, level + 1, f) && At(v, level + 1, g) && PairOk(level + 1, f, level + 1, g) && Overlaps(f, Some(lo), Some(hi));
        BoundsOrdered(f);
      }
    }
  }

  /** The bounds of an output file are keys of input entries. */
  lemma OutputWithinInput(input: seq<Entry>, in0: seq<File>, in1: seq<File>, f: File)
    returns (a: File, b: File)
    requires MergedInput(input, in0, in1) && ValidFile(f) && forall e :: e in f.table ==> e in input
    requires forall x :: x in in0 || x in in1 ==> ValidFile(x)
    ensures (a in in0 || a in in1) && (b in in0 || b in in1)
    ensures !Less(f.smallest, a.smallest) && !Less(b.largest, f.largest)
  {
    var first, last := f.table[0], f.table[|f.table| - 1];
    assert first in f.table && last in f.table;
    if first in Contents(in0) { a :| a in in0 && first in a.table; } else { a :| a in in1 && first in a.table; }
    if last in Contents(in0) { b :| b in in0 && last in b.table; } else { b :| b in in1 && last in b.table; }
    InBounds(a, first);
    InBounds(b, last);
  }

  lemma LessTransitive(a: InternalKey, b: InternalKey, c: InternalKey)
    requires (Less(a, b) && !Less(c, b)) || (!Less(b, a) && Less(b, c))
    ensures Less(a, c)
  {
  }

  lemma OutputApartFromLeftover(v: Version, level: nat, in0: seq<File>, in1: seq<File>, input: seq<Entry>, f: File, g: File)
    requires CompactionSetup(v, level, in0, in1, input) && IsLeftover(v, level, in1, g)
    requires ValidFile(f) && forall e :: e in f.table ==> e in input
    ensures FilesApart(f, g)
  {
    assert forall x :: x in in0 ==> At(v, level, x);
    assert forall x :: x in in1 ==> At(v, level + 1, x);
    var a, b := OutputWithinInput(input, in0, in1, f);
    LeftoverIsApart(v, level, in0, in1, g);
    if Less(b.largest, g.smallest) {
      LessTransitive(f.largest, b.largest, g.smallest);
    } else {
      LessTransitive(g.largest, a.smallest, f.smallest);
    }
  }

  /** An output file fits between the untouched files above and below it. */
  lemma OutputInOrder(v: Version, level: nat, in0: seq<File>, in1: seq<File>, input: seq<Entry>, f: File, m: int, g: File)
    requires CompactionSetup(v, level, in0, in1, input) && At(v, m, g)
    requires forall e :: e in f.table ==> e in input
    ensures m <= level && !(m == level && g in in0) ==> Above(TableSet(g), TableSet(f))
    ensures m >= level + 2 ==> Above(TableSet(f), TableSet(g))
  {
    forall x, e | x in TableSet(g) && e in TableSet(f) && x.user == e.user
      ensures m <= level && !(m == level && g in in0) ==> x.num > e.num
      ensures m >= level + 2 ==> e.num > x.num
    {
      if m <= level && !(m == level && g in in0) {
        OlderThanOutside(v, level, in0, in1, input, e, m, g, x);
      }
      if m >= level + 2 {
        NewerThanBelow(v, level, in0, in1, input, e, m, g, x);
      }
    }
  }

  ghost predicate CompactionInstalled(v: Version, level: nat, in0: seq<File>, in1: seq<File>, input: seq<Entry>,
                                      snap: nat, outs: seq<File>, v': Version) {
    && CompactionSetup(v, level, in0, in1, input)
    && OutputFiles(v, Kept(v, level, input, snap, |input|), outs)
    && Applied(v, InputDeletions(level, in0, in1), OutputAdditions(level, outs), v')
  }

  /** The version to install an outcome in holds the inputs, and none of the output numbers. */
  ghost predicate Installable(v: Version, level: nat, in0: seq<File>, in1: seq<File>, outs: seq<File>) {
    && WellFormed(v)
    && (forall f :: f in in0 ==> At(v, level, f)) && (forall f :: f in in1 ==> At(v, level + 1, f))
    && (forall l, g, f :: At(v, l, g) && f in outs ==> g.number != f.number)
  }

  /** Apart from the outputs the new version holds the files that are not inputs. */
  lemma Remaining(v: Version, level: nat, in0: seq<File>, in1: seq<File>, outs: seq<File>, v': Version, m: int, g: File)
    requires Installable(v, level, in0, in1, outs)
    requires Applied(v, InputDeletions(level, in0, in1), OutputAdditions(level, outs), v')
    ensures At(v', m, g) && !(m == level + 1 && g in outs) <==>
            At(v, m, g) && !(m == level && g in in0) && !(m == level + 1 && g in in1)
  {
    assert (m, g) in OutputAdditions(level, outs) <==> m == level + 1 && g in outs;
    if At(v, m, g) {
      assert m == level + 1 ==> g !in outs;
      if (m, g.number) in InputDeletions(level, in0, in1) {
        var f :| (f in in0 && m == level && f.number == g.number) || (f in in1 && m == level + 1 && f.number == g.number);
        assert At(v, m, f) && PairOk(m, f, m, g);
      }
      if m == level && g in in0 {
        assert (level as int, g.number) in InputDeletions(level, in0, in1);
      }
      if m == level + 1 && g in in1 {
        assert (level as int + 1, g.number) in InputDeletions(level, in0, in1);
      }
    }
  }

  lemma UntouchedFile(v: Version, level: nat, in0: seq<File>, in1: seq<File>, input: seq<Entry>,
                      snap: nat, outs: seq<File>, v': Version, m: int, g: File)
    requires CompactionInstalled(v, level, in0, in1, input, snap, outs, v')
    ensures At(v', m, g) && !(m == level + 1 && g in outs) <==>
            At(v, m, g) && !(m == level && g in in0) && !(m == level + 1 && g in in1)
  {
    Remaining(v, level, in0, in1, outs, v', m, g);
  }

  lemma OutputFits(v: Version, level: nat, in0: seq<File>, in1: seq<File>, input: seq<Entry>,
                   snap: nat, outs: seq<File>, v': Version, f: File)
    requires CompactionInstalled(v, level, in0, in1, input, snap, outs, v') && f in outs
    ensures Fits(v', level + 1, f)
  {
    forall m, g | At(v', m, g)
      ensures PairOk(level + 1, f, m, g) && PairOk(m, g, level + 1, f)
    {
      if m == level + 1 && g in outs {
        OutputsApart(outs, f);
      } else {
        OutputVersusUntouched(v, level, in0, in1, input, snap, outs, v', f, m, g);
      }
    }
  }

  lemma OutputVersusUntouched(v: Version, level: nat, in0: seq<File>, in1: seq<File>, input: seq<Entry>,
                              snap: nat, outs: seq<File>, v': Version, f: File, m: int, g: File)
    requires CompactionInstalled(v, level, in0, in1, input, snap, outs, v') && f in outs
    requires At(v', m, g) && !(m == level + 1 && g in outs)
    ensures g.number != f.number
    ensures m == level + 1 ==> FilesApart(f, g)
    ensures m <= level ==> Above(TableSet(g), TableSet(f))
    ensures m >= level + 2 ==> Above(TableSet(f), TableSet(g))
  {
    KeptIsInputMinusDropped(v, level, input, snap);
    assert forall e :: e in f.table ==> e in Contents(outs) && e in input;
    UntouchedFile(v, level, in0, in1, input, snap, outs, v', m, g);
    OutputInOrder(v, level, in0, in1, input, f, m, g);
    if m == level + 1 {
      OutputApartFromLeftover(v, level, in0, in1, input, f, g);
    }
  }

  lemma CompactionKeepsWellFormed(v: Version, level: nat, in0: seq<File>, in1: seq<File>, input: seq<Entry>,
                                  snap: nat, outs: seq<File>, v': Version)
    requires CompactionInstalled(v, level, in0, in1, input, snap, outs, v')
    ensures WellFormed(v')
  {
    forall l, f | (l, f) in OutputAdditions(level, outs)
      ensures Fits(v', l, f)
    {
      OutputFits(v, level, in0, in1, input, snap, outs, v', f);
    }
    InstallKeepsWellFormed(v, InputDeletions(level, in0, in1), OutputAdditions(level, outs), v');
  }

  lemma OutputsApart(outs: seq<File>, f: File)
    requires f in outs
    requires forall i, j :: 0 <= i < j < |outs| ==> Less(outs[i].largest, outs[j].smallest) && outs[i].number != outs[j].number
    ensures forall g :: g in outs && g != f ==> FilesApart(f, g) && f.number != g.number
  {
    forall g | g in outs && g != f
      ensures FilesApart(f, g) && f.number != g.number
    {
      var i :| 0 <= i < |outs| && outs[i] == f;
      var j :| 0 <= j < |outs| && outs[j] == g;
    }
  }

  /** The new version holds the old contents without the dropped entries. */
  lemma CompactionContents(v: Version, level: nat, in0: seq<File>, in1: seq<File>, input: seq<Entry>,
                           snap: nat, outs: seq<File>, v': Version)
    requires CompactionInstalled(v, level, in0, in1, input, snap, outs, v')
    ensures VersionContents(v') == VersionContents(v) - DroppedSet(v, level, input, snap)
  {
    KeptIsInputMinusDropped(v, level, input, snap);
    forall e
      ensures e in VersionContents(v') <==> e in VersionContents(v) - DroppedSet(v, level, input, snap)
    {
      if e in VersionContents(v') {
        var m, g := WhereInContents(v', e);
        UntouchedFile(v, level, in0, in1, input, snap, outs, v', m, g);
        if m == level + 1 && g in outs {
          assert e in Contents(outs);
          var l, f := SourceOf(v, level, in0, in1, input, e);
        } else {
          InContents(v, m, g, e);
          if e in input {
            var l, f := SourceOf(v, level, in0, in1, input, e);
            SharedEntry(v, l, f, m, g, e);
          }
        }
      }
      if e in VersionContents(v) && e !in DroppedSet(v, level, input, snap) {
        if e in input {
          var f :| f in outs && e in f.table;
          assert (level as int + 1, f) in OutputAdditions(level, outs);
          InContents(v', level + 1, f, e);
        } else {
          var m, g := WhereInContents(v, e);
          OutsideInput(input, in0, in1, e, g);
          UntouchedFile(v, level, in0, in1, input, snap, outs, v', m, g);
          InContents(v', m, g, e);
        }
      }
    }
  }
}
