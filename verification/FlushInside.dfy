/** A memtable is flushed in the middle of a compaction, which then installs its outcome in a
    version that has grown meanwhile (db/db_impl.cc: DoCompactionWork, CompactMemTable,
    InstallCompactionResults). */
module FlushInside {
  import opened DbFormat
  import opened History
  import opened SortedRuns
  import opened Versions
  import opened InputSelection
  import opened Compaction
  import opened CompactionMeaning
  import opened Installing
  import opened GroupLog

  /** A compaction that has written its outputs; base is the version it was started on. */
  datatype Compacted = Compacted(base: Version, level: nat, in0: seq<File>, in1: seq<File>, input: seq<Entry>, snap: nat, outs: seq<File>)

  ghost predicate Done(p: Compacted) {
    && CompactionSetup(p.base, p.level, p.in0, p.in1, p.input)
    && OutputFiles(p.base, Kept(p.base, p.level, p.input, p.snap, |p.input|), p.outs)
  }

  ghost predicate IsInput(p: Compacted, f: File) {
    f in p.in0 || f in p.in1
  }

  /** A file flushed after the compaction started: it is newer than all of base, and deeper than the
      compacted level it meets no input. */
  ghost predicate LaterFile(p: Compacted, l: int, f: File) {
    && NewerThanVersion(f, p.base)
    && (l > p.level ==> forall g :: IsInput(p, g) ==> !Touch(g, f))
  }

  /** v is base with files flushed into it. */
  ghost predicate Flushed(p: Compacted, v: Version) {
    && Installable(v, p.level, p.in0, p.in1, p.outs) && Consistent(VersionContents(v))
    && (forall l, g :: At(p.base, l, g) ==> At(v, l, g))
    && (forall l, f :: At(v, l, f) ==> At(p.base, l, f) || LaterFile(p, l, f))
  }

  lemma NothingFlushed(p: Compacted)
    requires Done(p)
    ensures Flushed(p, p.base)
  {
  }

  lemma FlushMeetsNoInput(p: Compacted, v: Version, level: nat, f: File, g: File)
    requires Flushed(p, v) && ValidFile(f) && GoodFlushLevel(v, level, f) && level > p.level && IsInput(p, g)
    ensures !Touch(g, f)
  {
    var l: nat := if g in p.in0 then p.level else p.level + 1;
    assert At(v, l, g) && g in v[l] && ValidFile(g);
    assert !SomeOverlap(v[l], Some(f.smallest.user), Some(f.largest.user));
    BoundsOrdered(f);
    BoundsOrdered(g);
  }

  lemma FlushIsLater(p: Compacted, v: Version, level: nat, f: File)
    requires Flushed(p, v) && ValidFile(f) && NewerThanVersion(f, v) && GoodFlushLevel(v, level, f)
    ensures LaterFile(p, level, f)
  {
    forall e, x | e in f.table && x in VersionContents(p.base)
      ensures e.num > x.num
    {
      var l, g := WhereInContents(p.base, x);
      InContents(v, l, g, x);
    }
    if level > p.level {
      forall g | IsInput(p, g)
        ensures !Touch(g, f)
      {
        FlushMeetsNoInput(p, v, level, f, g);
      }
    }
  }

  /** One more flush, to the level PickLevelForMemTableOutput finds in the version of that moment. */
  lemma FlushedOnceMore(p: Compacted, v: Version, level: nat, f: File, v': Version)
    requires Flushed(p, v) && ValidFile(f) && NewerThanVersion(f, v)
    requires (forall l, g :: At(v, l, g) ==> g.number < f.number) && forall o :: o in p.outs ==> o.number != f.number
    requires GoodFlushLevel(v, level, f) && Applied(v, {}, {(level, f)}, v')
    requires Consistent(VersionContents(v) + TableSet(f))
    ensures Flushed(p, v')
  {
    FlushKeepsWellFormed(v, level, f, v');
    FlushIsLater(p, v, level, f);
  }

  // ---- When the outcome fits ----

  /** A file that was flushed to the level of the outputs since the compaction started. */
  ghost predicate FlushedSince(p: Compacted, v: Version, g: File) {
    At(v, p.level + 1, g) && !At(p.base, p.level + 1, g)
  }

  /** o begins before g and ends after it. */
  predicate Spans(o: File, g: File) {
    o.smallest.user < g.smallest.user && g.largest.user < o.largest.user
  }

  /** No output reaches across a file flushed meanwhile: what has to be looked at before the edit is logged. */
  ghost predicate OutputsFit(p: Compacted, v: Version) {
    forall g, o :: FlushedSince(p, v, g) && o in p.outs ==> !Spans(o, g)
  }

  ghost predicate Installed(p: Compacted, v: Version, v': Version) {
    && Done(p) && Flushed(p, v)
    && Applied(v, InputDeletions(p.level, p.in0, p.in1), OutputAdditions(p.level, p.outs), v')
  }

  lemma OutputsAreInput(p: Compacted)
    requires Done(p)
    ensures forall o, e :: o in p.outs && e in o.table ==> e in p.input && e in VersionContents(p.base)
  {
    KeptIsInputMinusDropped(p.base, p.level, p.input, p.snap);
    forall o, e | o in p.outs && e in o.table
      ensures e in p.input && e in VersionContents(p.base)
    {
      assert e in Contents(p.outs);
      var l, f := SourceOf(p.base, p.level, p.in0, p.in1, p.input, e);
    }
  }

  /** A file that meets no input has no user key in common with an output. */
  lemma NoInputNoKey(p: Compacted, f: File, o: File)
    requires Done(p) && ValidFile(f) && o in p.outs && forall g :: IsInput(p, g) ==> !Touch(g, f)
    ensures Above(TableSet(o), TableSet(f))
  {
    OutputsAreInput(p);
    forall a, b | a in TableSet(o) && b in TableSet(f)
      ensures a.user != b.user
    {
      var l, g := SourceOf(p.base, p.level, p.in0, p.in1, p.input, a);
      assert IsInput(p, g) && ValidFile(g);
      InBounds(g, a);
      InBounds(f, b);
    }
  }

  /** The bounds of an output are keys of inputs, which a file flushed to its level does not meet: the two
      are apart or the output spans the file. */
  lemma ApartExactlyIfNotSpanned(p: Compacted, v: Version, g: File, o: File)
    requires Done(p) && Flushed(p, v) && FlushedSince(p, v, g) && o in p.outs
    ensures FilesApart(o, g) <==> !Spans(o, g)
  {
    OutputsAreInput(p);
    InputsValid(p);
    BoundsOrdered(g);
    var a := BoundOfInput(p, o, o.table[0]);
    var b := BoundOfInput(p, o, o.table[|o.table| - 1]);
    assert !Touch(a, g) && !Touch(b, g);
    BoundsOrdered(o);
  }

  lemma BoundOfInput(p: Compacted, o: File, e: Entry) returns (f: File)
    requires Done(p) && o in p.outs && e in o.table
    ensures IsInput(p, f) && ValidFile(f) && f.smallest.user <= e.user <= f.largest.user
  {
    OutputsAreInput(p);
    InputsValid(p);
    var l;
    l, f := SourceOf(p.base, p.level, p.in0, p.in1, p.input, e);
    InBounds(f, e);
  }

  lemma FitsMeansApart(p: Compacted, v: Version, g: File, o: File)
    requires Done(p) && Flushed(p, v) && OutputsFit(p, v) && At(v, p.level + 1, g) && g !in p.in1 && o in p.outs
    ensures FilesApart(o, g)
  {
    OutputsAreInput(p);
    if At(p.base, p.level + 1, g) {
      OutputApartFromLeftover(p.base, p.level, p.in0, p.in1, p.input, o, g);
    } else {
      ApartExactlyIfNotSpanned(p, v, g, o);
    }
  }

  /** An output beside a file that stays. */
  lemma OutputBeside(p: Compacted, v: Version, o: File, m: int, g: File)
    requires Done(p) && Flushed(p, v) && OutputsFit(p, v) && o in p.outs
    requires At(v, m, g) && !(m == p.level && g in p.in0) && !(m == p.level + 1 && g in p.in1)
    ensures PairOk(p.level + 1, o, m, g) && PairOk(m, g, p.level + 1, o)
  {
    OutputsAreInput(p);
    if m == p.level + 1 {
      FitsMeansApart(p, v, g, o);
    }
    assert m <= p.level ==> Above(TableSet(g), TableSet(o)) by {
      if At(p.base, m, g) {
        OutputInOrder(p.base, p.level, p.in0, p.in1, p.input, o, m, g);
      }
    }
    assert m >= p.level + 2 ==> Above(TableSet(o), TableSet(g)) by {
      if At(p.base, m, g) {
        OutputInOrder(p.base, p.level, p.in0, p.in1, p.input, o, m, g);
      } else if m >= p.level + 2 {
        NoInputNoKey(p, g, o);
      }
    }
  }

  lemma OutputFitsIn(p: Compacted, v: Version, v': Version, o: File)
    requires Installed(p, v, v') && OutputsFit(p, v) && o in p.outs
    ensures Fits(v', p.level + 1, o)
  {
    forall m, g | At(v', m, g)
      ensures PairOk(p.level + 1, o, m, g) && PairOk(m, g, p.level + 1, o)
    {
      Remaining(v, p.level, p.in0, p.in1, p.outs, v', m, g);
      if m == p.level + 1 && g in p.outs {
        OutputsApart(p.outs, o);
      } else {
        OutputBeside(p, v, o, m, g);
      }
    }
  }

  lemma FitsThenWellFormed(p: Compacted, v: Version, v': Version)
    requires Installed(p, v, v') && OutputsFit(p, v)
    ensures WellFormed(v')
  {
    forall l, f | (l, f) in OutputAdditions(p.level, p.outs)
      ensures Fits(v', l, f)
    {
      OutputFitsIn(p, v, v', f);
    }
    InstallKeepsWellFormed(v, InputDeletions(p.level, p.in0, p.in1), OutputAdditions(p.level, p.outs), v');
  }

  lemma WellFormedThenFits(p: Compacted, v: Version, v': Version, g: File, o: File)
    requires Installed(p, v, v') && WellFormed(v')
    requires At(v, p.level + 1, g) && g !in p.in1 && o in p.outs
    ensures FilesApart(o, g)
  {
    Remaining(v, p.level, p.in0, p.in1, p.outs, v', p.level + 1, g);
    assert (p.level as int + 1, o) in OutputAdditions(p.level, p.outs);
    assert At(v', p.level + 1, o) && At(v', p.level + 1, g) && PairOk(p.level + 1, o, p.level + 1, g);
  }

  lemma WellFormedMeansFits(p: Compacted, v: Version, v': Version)
    requires Installed(p, v, v') && WellFormed(v')
    ensures OutputsFit(p, v)
  {
    forall g, o | FlushedSince(p, v, g) && o in p.outs
      ensures !Spans(o, g)
    {
      SinceIsNoInput(p, v, g);
      WellFormedThenFits(p, v, v', g, o);
      ApartExactlyIfNotSpanned(p, v, g, o);
    }
  }

  lemma SinceIsNoInput(p: Compacted, v: Version, g: File)
    requires Done(p) && FlushedSince(p, v, g)
    ensures g !in p.in1
  {
    assert forall x :: x in p.in1 ==> At(p.base, p.level + 1, x);
  }

  /** The version with the outcome installed is well formed exactly if no output spans a file that was
      flushed to its level meanwhile. */
  lemma WellFormedExactlyIfFits(p: Compacted, v: Version, v': Version)
    requires Installed(p, v, v')
    ensures WellFormed(v') <==> OutputsFit(p, v)
  {
    if OutputsFit(p, v) {
      FitsThenWellFormed(p, v, v');
    }
    if WellFormed(v') {
      WellFormedMeansFits(p, v, v');
    }
  }

  // ---- What the new version holds ----

  ghost function DroppedBy(p: Compacted): set<Entry> {
    DroppedSet(p.base, p.level, p.input, p.snap)
  }

  /** An entry of the input is in no file that stays. */
  lemma InputOnlyInInputs(p: Compacted, v: Version, m: int, g: File, e: Entry)
    requires Done(p) && Flushed(p, v) && At(v, m, g) && e in g.table && e in p.input
    ensures (m == p.level && g in p.in0) || (m == p.level + 1 && g in p.in1)
  {
    var l, f := SourceOf(p.base, p.level, p.in0, p.in1, p.input, e);
    SharedEntry(v, l, f, m, g, e);
  }

  lemma ContentsAfter(p: Compacted, v: Version, v': Version)
    requires Installed(p, v, v')
    ensures VersionContents(v') == VersionContents(v) - DroppedBy(p)
  {
    KeptIsInputMinusDropped(p.base, p.level, p.input, p.snap);
    forall e
      ensures e in VersionContents(v') <==> e in VersionContents(v) - DroppedBy(p)
    {
      if e in VersionContents(v') {
        StillThere(p, v, v', e);
      }
      if e in VersionContents(v) && e !in DroppedBy(p) {
        StaysThere(p, v, v', e);
      }
    }
  }

  lemma StillThere(p: Compacted, v: Version, v': Version, e: Entry)
    requires Installed(p, v, v') && e in VersionContents(v')
    ensures e in VersionContents(v) && e !in DroppedBy(p)
  {
    KeptIsInputMinusDropped(p.base, p.level, p.input, p.snap);
    var m, g := WhereInContents(v', e);
    Remaining(v, p.level, p.in0, p.in1, p.outs, v', m, g);
    if m == p.level + 1 && g in p.outs {
      assert e in Contents(p.outs);
      var l, f := SourceOf(p.base, p.level, p.in0, p.in1, p.input, e);
      InContents(v, l, f, e);
    } else {
      InContents(v, m, g, e);
      if e in p.input {
        InputOnlyInInputs(p, v, m, g, e);
      }
    }
  }

  lemma StaysThere(p: Compacted, v: Version, v': Version, e: Entry)
    requires Installed(p, v, v') && e in VersionContents(v) && e !in DroppedBy(p)
    ensures e in VersionContents(v')
  {
    if e in p.input {
      KeptStays(p, v, v', e);
    } else {
      var m, g := WhereInContents(v, e);
      OutsideInput(p.input, p.in0, p.in1, e, g);
      Remaining(v, p.level, p.in0, p.in1, p.outs, v', m, g);
      InContents(v', m, g, e);
    }
  }

  lemma KeptStays(p: Compacted, v: Version, v': Version, e: Entry)
    requires Installed(p, v, v') && e in p.input && e !in DroppedBy(p)
    ensures e in VersionContents(v')
  {
    var f := OutputWith(p, e);
    assert (p.level as int + 1, f) in OutputAdditions(p.level, p.outs);
    InContents(v', p.level + 1, f, e);
  }

  lemma OutputWith(p: Compacted, e: Entry) returns (f: File)
    requires Done(p) && e in p.input && e !in DroppedBy(p)
    ensures f in p.outs && e in f.table
  {
    KeptIsInputMinusDropped(p.base, p.level, p.input, p.snap);
    assert e in Contents(p.outs);
    f :| f in p.outs && e in f.table;
  }

  /** Reads from the smallest snapshot on are what they were just before the outcome was installed:
      what was flushed meanwhile is newer than all that the compaction dropped. */
  lemma ReadsAfter(p: Compacted, v: Version, v': Version)
    requires Installed(p, v, v') && NoResurrection(p.base, p.level, p.in1, p.input, p.snap)
    ensures ReadsAlike(VersionContents(v'), VersionContents(v), p.snap)
  {
    var E, D, V := VersionContents(p.base), DroppedBy(p), VersionContents(v);
    var N := V - E;
    ContentsAfter(p, v, v');
    CompactionPreservesReads(p.base, p.level, p.in0, p.in1, p.input, p.snap);
    LaterIsNewer(p, v);
    DroppedWasThere(p);
    assert N + E == V && N + (E - D) == V - D;
    SubsetConsistent(N + (E - D), V);
    AlikeUnderLayer(E - D, E, N, p.snap);
  }

  lemma LaterIsNewer(p: Compacted, v: Version)
    requires Done(p) && Flushed(p, v)
    ensures VersionContents(p.base) <= VersionContents(v)
    ensures Above(VersionContents(v) - VersionContents(p.base), VersionContents(p.base))
  {
    forall e | e in VersionContents(p.base)
      ensures e in VersionContents(v)
    {
      var l, f := WhereInContents(p.base, e);
      InContents(v, l, f, e);
    }
    forall e, x | e in VersionContents(v) - VersionContents(p.base) && x in VersionContents(p.base)
      ensures e.num > x.num
    {
      var l, f := WhereInContents(v, e);
      if At(p.base, l, f) {
        InContents(p.base, l, f, e);
      }
    }
  }

  lemma DroppedWasThere(p: Compacted)
    requires Done(p)
    ensures DroppedBy(p) <= VersionContents(p.base)
  {
    forall e | e in DroppedBy(p)
      ensures e in VersionContents(p.base)
    {
      var l, f := SourceOf(p.base, p.level, p.in0, p.in1, p.input, e);
    }
  }

  // ---- Inputs without gaps ----

  /** A flushed file that meets no input lies beside every output, if the inputs leave no gap. */
  lemma BesideWholeRange(p: Compacted, f: File, o: File)
    requires Done(p) && ValidFile(f) && o in p.outs && NoGap(p.in0 + p.in1) && forall g :: IsInput(p, g) ==> !Touch(g, f)
    ensures FilesApart(o, f)
  {
    OutputsAreInput(p);
    InputsValid(p);
    var a, b := OutputWithinInput(p.input, p.in0, p.in1, o);
    assert IsInput(p, a) && IsInput(p, b) && a in p.in0 + p.in1 && b in p.in0 + p.in1;
    BoundsOrdered(f);
    BoundsOrdered(a);
    BoundsOrdered(b);
    if a.smallest.user <= f.smallest.user <= b.largest.user {
      NoGapBetween(p.in0 + p.in1, f.smallest.user, a, b);
      var h :| h in p.in0 + p.in1 && Covers(h, f.smallest.user);
      assert IsInput(p, h) && Touch(h, f);
    }
  }

  lemma InputsValid(p: Compacted)
    requires Done(p)
    ensures forall g :: IsInput(p, g) ==> ValidFile(g)
  {
    forall g | IsInput(p, g)
      ensures ValidFile(g)
    {
      var l: int := if g in p.in0 then p.level else p.level + 1;
      assert At(p.base, l, g);
    }
  }

  /** Inputs without gaps, as PickCompaction chooses them: whatever is flushed meanwhile, the outcome
      fits. */
  lemma NoGapFits(p: Compacted, v: Version)
    requires Done(p) && Flushed(p, v) && NoGap(p.in0 + p.in1)
    ensures OutputsFit(p, v)
  {
    forall g, o | FlushedSince(p, v, g) && o in p.outs
      ensures !Spans(o, g)
    {
      BesideWholeRange(p, g, o);
      ApartExactlyIfNotSpanned(p, v, g, o);
    }
  }
}
