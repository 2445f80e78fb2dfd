/** A manual compaction may have inputs with a gap between them, into which a memtable is flushed
    while it runs: the outcome does not fit, and a value is lost (db/db_impl.cc:887-928, 500-542;
    db/version_set.cc:470-495, 1441-1472). */
module ManualCompaction {
  import opened DbFormat
  import opened History
  import opened SortedRuns
  import opened Versions
  import opened InputSelection
  import opened Compaction
  import opened CompactionMeaning
  import opened CompactionRun
  import opened Installing
  import opened FlushInside

  const LOW := Entry(1.0, 10, Put([]))
  const HIGH := Entry(9.0, 11, Put([]))
  const BETWEEN := Entry(5.0, 12, Put([7]))
  const TOP := Entry(20.0, 9, Put([]))

  /** Two files on level 1 with room between them, and one on level 2 above both. */
  const GAP_VERSION: Version := [[], [OneFile(1, [LOW]), OneFile(2, [HIGH])], [OneFile(3, [TOP])], [], [], [], []]

  lemma GapFiles()
    ensures forall l, x :: At(GAP_VERSION, l, x) <==>
              (l == 1 && (x == OneFile(1, [LOW]) || x == OneFile(2, [HIGH]))) || (l == 2 && x == OneFile(3, [TOP]))
  {
  }

  lemma GapVersionWellFormed()
    ensures WellFormed(GAP_VERSION)
  {
    GapFiles();
    var f, g := OneFile(1, [LOW]), OneFile(2, [HIGH]);
    assert FilesApart(f, g) && FilesApart(g, f);
    assert ValidFile(f) && ValidFile(g) && ValidFile(OneFile(3, [TOP]));
    forall l, m, x, y | At(GAP_VERSION, l, x) && At(GAP_VERSION, m, y)
      ensures PairOk(l, x, m, y)
    {
    }
    assert forall l :: 0 <= l < NUM_LEVELS && l != 1 && l != 2 ==> GAP_VERSION[l] == [];
    assert SortedBySmallest(GAP_VERSION[1]);
  }

  lemma GapVersionContents()
    ensures forall e :: e in VersionContents(GAP_VERSION) <==> e == LOW || e == HIGH || e == TOP
    ensures Consistent(VersionContents(GAP_VERSION))
  {
    GapFiles();
    forall e
      ensures e in VersionContents(GAP_VERSION) <==> e == LOW || e == HIGH || e == TOP
    {
      if e in VersionContents(GAP_VERSION) {
        var l, f := WhereInContents(GAP_VERSION, e);
      }
      InContents(GAP_VERSION, 1, OneFile(1, [LOW]), LOW);
      InContents(GAP_VERSION, 1, OneFile(2, [HIGH]), HIGH);
      InContents(GAP_VERSION, 2, OneFile(3, [TOP]), TOP);
    }
  }

  lemma GapLevels()
    ensures |GAP_VERSION| == NUM_LEVELS && GAP_VERSION[1] == [OneFile(1, [LOW]), OneFile(2, [HIGH])]
    ensures GAP_VERSION[0] == [] && GAP_VERSION[2] == [OneFile(3, [TOP])]
    ensures GAP_VERSION[3] == GAP_VERSION[4] == GAP_VERSION[5] == GAP_VERSION[6] == []
  {
  }

  // ---- The levels a manual compaction asks for ----

  /** The last level from 1 on with files of the range, or level 1. */
  ghost predicate LastLevelWithFiles(v: Version, begin: Option<UserKey>, end: Option<UserKey>, last: nat) {
    && |v| == NUM_LEVELS && 1 <= last < NUM_LEVELS
    && (last > 1 ==> SomeOverlap(v[last], begin, end))
    && forall l :: last < l < NUM_LEVELS ==> !SomeOverlap(v[l], begin, end)
  }

  /** DBImpl::CompactRange compacts the levels from 0 up to the one before the last with files of the
      range. */
  method LevelsToCompact(v: Version, begin: Option<UserKey>, end: Option<UserKey>) returns (last: nat)
    requires WellFormed(v)
    ensures LastLevelWithFiles(v, begin, end, last)
  {
    last := 1;
    for level := 1 to NUM_LEVELS
      invariant 1 <= last <= (if level == 1 then 1 else level - 1)
      invariant last > 1 ==> SomeOverlap(v[last], begin, end)
      invariant forall l :: last < l < level ==> !SomeOverlap(v[l], begin, end)
    {
      LevelsDisjointSorted(v, level);
      var found := SomeFileOverlapsRange(true, v[level], begin, end);
      if found {
        last := level;
      }
    }
  }

  /** Without ends, and in the version above, these are levels 0 and 1. */
  lemma GapAsksForLevel1(last: nat)
    requires LastLevelWithFiles(GAP_VERSION, None, None, last)
    ensures last == 2
  {
    GapLevels();
    assert OneFile(3, [TOP]) in GAP_VERSION[2] && Overlaps(OneFile(3, [TOP]), None, None);
  }

  lemma SizeOfOne(fs: seq<File>)
    requires |fs| == 1
    ensures TotalSize(fs) == fs[0].size
  {
    assert fs[1..] == [];
  }

  /** A range without ends starts from the whole of level 1. */
  lemma WholeStart(v: Version, start: seq<File>, f: File, g: File, maxFileSize: nat)
    requires |v| == NUM_LEVELS && v[1] == [f, g] && f.size == 1 && maxFileSize > 1
    requires RangeStart(v, 1, None, None, maxFileSize, start) && start != []
    ensures start == [f, g]
  {
    WholeLevel(v[1]);
    if |start| == 1 {
      SizeOfOne(start);
    }
  }

  lemma PrefixMembers(start: seq<File>, first: seq<File>)
    requires start <= first
    ensures forall x :: x in start ==> x in first
  {
    forall x | x in start
      ensures x in first
    {
      var i :| 0 <= i < |start| && start[i] == x;
      assert first[i] == x;
    }
  }

  lemma EmptyOrNot(fs: seq<File>)
    ensures fs == [] || fs[0] in fs
  {
  }

  /** ... and takes nothing from the levels below. */
  lemma WholeInputs(v: Version, c: Inputs, start: seq<File>, first: seq<File>, f: File, g: File, t: File, maxFileSize: nat)
    requires |v| == NUM_LEVELS && v[1] == [f, g] && v[2] == [t] && v[3] == [] && c.level == 1 && start == [f, g]
    requires f.largest.user < t.smallest.user && g.largest.user < t.smallest.user
    requires SetUpFrom(v, start, first, c, maxFileSize)
    ensures forall x :: x in c.in0 <==> x == f || x == g
    ensures c.in1 == [] && c.grandparents == []
  {
    PrefixMembers(start, first);
    assert start[0] in start && start[1] in start;
    EmptyOrNot(c.in1);
    EmptyOrNot(c.grandparents);
  }

  lemma {:induction false} WholeLevel(fs: seq<File>)
    ensures Overlapping(fs, None, None) == fs
  {
    if fs != [] {
      WholeLevel(fs[..|fs| - 1]);
    }
  }

  lemma {:induction false} GapMerged(in0: seq<File>, input: seq<Entry>)
    requires MergedInput(input, in0, [])
    requires forall f :: f in in0 <==> f == OneFile(1, [LOW]) || f == OneFile(2, [HIGH])
    ensures input == [LOW, HIGH]
  {
    var f, g := OneFile(1, [LOW]), OneFile(2, [HIGH]);
    assert f in in0 && g in in0 && f.table == [LOW] && g.table == [HIGH];
    forall e
      ensures e in input <==> e in [LOW, HIGH]
    {
      assert e in Contents(in0) <==> e in f.table || e in g.table;
    }
    SortedUnique(input, [LOW, HIGH]);
  }

  /** Nothing is dropped. */
  lemma BothKept(v: Version, level: nat, input: seq<Entry>, snap: nat)
    requires input == [LOW, HIGH]
    ensures Kept(v, level, input, snap, |input|) == [LOW, HIGH]
  {
    assert !Dropped(v, level, input, snap, 0) && !Dropped(v, level, input, snap, 1);
    assert Kept(v, level, input, snap, 0) == [] && Kept(v, level, input, snap, 1) == [LOW];
  }

  /** Without grandparents nothing calls for a new table. */
  lemma {:induction false} NothingStops(maxFileSize: nat, input: seq<Entry>, i: nat)
    requires i < |input|
    ensures BytesAt([], maxFileSize, input, i) == 0
  {
    var none: seq<File> := [];
    assert none[0..0] == [];
    if i > 0 {
      NothingStops(maxFileSize, input, i - 1);
    }
  }

  lemma {:induction false} PiecesAtMost(os: seq<seq<Entry>>)
    requires forall i :: 0 <= i < |os| ==> os[i] != []
    ensures |os| <= |Flatten(os)|
  {
    if os != [] {
      PiecesAtMost(os[..|os| - 1]);
    }
  }

  lemma OnePiece(os: seq<seq<Entry>>)
    requires |os| == 1
    ensures Flatten(os) == os[0]
  {
    assert os[..0] == [];
  }

  lemma TwoPieces(os: seq<seq<Entry>>)
    requires |os| == 2
    ensures Flatten(os) == os[0] + os[1]
  {
    assert os[..|os| - 1] == [os[0]];
    OnePiece([os[0]]);
  }

  /** Without grandparents a table with another behind it is big enough. */
  lemma NotLastIsBig(maxFileSize: nat, fileSize: seq<Entry> -> nat, input: seq<Entry>, os: seq<seq<Entry>>)
    requires GoodOutputs([], maxFileSize, fileSize, input, os) && |os| == 2
    ensures fileSize(os[0]) >= maxFileSize
  {
    assert os[1] in os && os[1] != [];
    assert ClosedAt([], maxFileSize, fileSize, input, os, 0);
    forall i: nat | i < |input|
      ensures !StopsAt([], maxFileSize, input, i)
    {
      NothingStops(maxFileSize, input, i);
    }
  }

  lemma HalfOfTwo(a: seq<Entry>, b: seq<Entry>)
    requires a + b == [LOW, HIGH] && a != [] && b != []
    ensures a == [LOW]
  {
    assert a[0] == (a + b)[0];
  }

  /** Both go to one table. */
  lemma OneOutput(maxFileSize: nat, fileSize: seq<Entry> -> nat, input: seq<Entry>, os: seq<seq<Entry>>)
    requires fileSize([LOW]) < maxFileSize && Flatten(os) == [LOW, HIGH]
    requires GoodOutputs([], maxFileSize, fileSize, input, os)
    ensures os == [[LOW, HIGH]]
  {
    assert forall i :: 0 <= i < |os| ==> os[i] in os;
    PiecesAtMost(os);
    if |os| == 1 {
      OnePiece(os);
    } else {
      TwoPieces(os);
      NotLastIsBig(maxFileSize, fileSize, input, os);
      HalfOfTwo(os[0], os[1]);
    }
  }

  /** The table the outcome consists of. */
  predicate IsWide(o: File) {
    o.table == [LOW, HIGH] && o.smallest == KeyOf(LOW) && o.largest == KeyOf(HIGH)
  }

  /** CompactRange without ends on level 1. */
  method ChooseAll(maxFileSize: nat) returns (c: Inputs)
    requires maxFileSize > 1
    ensures c.level == 1 && GoodInputs(GAP_VERSION, 1, c.in0, []) && c.in1 == [] && c.grandparents == []
    ensures forall x :: x in c.in0 <==> x == OneFile(1, [LOW]) || x == OneFile(2, [HIGH])
  {
    GapVersionWellFormed();
    GapVersionContents();
    GapLevels();
    var found := CompactRange(GAP_VERSION, 1, None, None, maxFileSize);
    assert OneFile(1, [LOW]) in GAP_VERSION[1];
    c := found.value;
    ghost var start, first :| RangeStart(GAP_VERSION, 1, None, None, maxFileSize, start) && GoodStart(GAP_VERSION, 1, start)
      && SetUpFrom(GAP_VERSION, start, first, c, maxFileSize);
    WholeStart(GAP_VERSION, start, OneFile(1, [LOW]), OneFile(2, [HIGH]), maxFileSize);
    WholeInputs(GAP_VERSION, c, start, first, OneFile(1, [LOW]), OneFile(2, [HIGH]), OneFile(3, [TOP]), maxFileSize);
  }

  /** The files of the version with the gap. */
  ghost predicate HasGap(v: Version) {
    forall l, x :: At(v, l, x) <==>
      (l == 1 && (x == OneFile(1, [LOW]) || x == OneFile(2, [HIGH]))) || (l == 2 && x == OneFile(3, [TOP]))
  }

  /** The outcome: one table across the gap. */
  ghost predicate WideOutcome(p: Compacted) {
    && Done(p) && HasGap(p.base) && p.level == 1 && p.in1 == []
    && (forall x :: x in p.in0 <==> x == OneFile(1, [LOW]) || x == OneFile(2, [HIGH]))
    && |p.outs| == 1 && IsWide(p.outs[0]) && p.outs[0].number == 4
  }

  lemma DoneWith(base: Version, in0: seq<File>, outs: seq<File>, input: seq<Entry>)
    requires CompactionSetup(base, 1, in0, [], input) && OutputFiles(base, Kept(base, 1, input, 11, |input|), outs)
    ensures Done(Compacted(base, 1, in0, [], input, 11, outs))
  {
  }

  /** What the work on these inputs comes to. */
  lemma {:induction false} GapDone(base: Version, in0: seq<File>, outs: seq<File>, input: seq<Entry>, maxFileSize: nat,
                                   fileSize: seq<Entry> -> nat)
    requires fileSize([LOW]) < maxFileSize && MergedInput(input, in0, [])
    requires forall x :: x in in0 <==> x == OneFile(1, [LOW]) || x == OneFile(2, [HIGH])
    requires Flatten(Tables(outs)) == Kept(base, 1, input, 11, |input|)
    requires GoodOutputs([], maxFileSize, fileSize, input, Tables(outs))
    requires forall i :: 0 <= i < |outs| ==> outs[i].table != [] && outs[i] == FileOf(4 + i, fileSize(outs[i].table), outs[i].table)
    ensures input == [LOW, HIGH] && |outs| == 1 && IsWide(outs[0]) && outs[0].number == 4
  {
    GapMerged(in0, input);
    BothKept(base, 1, input, 11);
    OneTable(outs, maxFileSize, fileSize, input);
  }

  lemma {:induction false} OneTable(outs: seq<File>, maxFileSize: nat, fileSize: seq<Entry> -> nat, input: seq<Entry>)
    requires fileSize([LOW]) < maxFileSize && Flatten(Tables(outs)) == [LOW, HIGH]
    requires GoodOutputs([], maxFileSize, fileSize, input, Tables(outs))
    requires forall i :: 0 <= i < |outs| ==> outs[i].table != [] && outs[i] == FileOf(4 + i, fileSize(outs[i].table), outs[i].table)
    ensures |outs| == 1 && IsWide(outs[0]) && outs[0].number == 4
  {
    OneOutput(maxFileSize, fileSize, input, Tables(outs));
    assert Tables(outs)[0] == outs[0].table;
  }

  /** The manual compaction of level 1: one output across the gap. */
  method CompactGap(maxFileSize: nat, fileSize: seq<Entry> -> nat) returns (p: Compacted)
    requires maxFileSize > 1 && fileSize([LOW]) < maxFileSize
    ensures WideOutcome(p) && p.base == GAP_VERSION
  {
    GapVersionReady();
    GapFiles();
    var c := ChooseAll(maxFileSize);
    var outs;
    ghost var input;
    outs, input := RunCompaction(GAP_VERSION, c, 11, 4, maxFileSize, fileSize);
    GapDone(GAP_VERSION, c.in0, outs, input, maxFileSize, fileSize);
    DoneWith(GAP_VERSION, c.in0, outs, input);
    p := Compacted(GAP_VERSION, 1, c.in0, [], [LOW, HIGH], 11, outs);
  }

  lemma GapVersionReady()
    ensures WellFormed(GAP_VERSION) && Consistent(VersionContents(GAP_VERSION))
    ensures forall l, g :: At(GAP_VERSION, l, g) ==> g.number < 4
  {
    GapVersionWellFormed();
    GapVersionContents();
    GapFiles();
  }

  // ---- A flush into the gap ----

  const FLUSHED: File := OneFile(5, [BETWEEN])

  /** The memtable with the key between the two files goes to level 2, where the outcome will go. */
  method PickGap(maxFileSize: nat) returns (level: nat)
    ensures level == 2 && GoodFlushLevel(GAP_VERSION, level, FLUSHED)
  {
    GapVersionWellFormed();
    GapLevels();
    level := PickLevelForMemTableOutput(GAP_VERSION, BETWEEN.user, BETWEEN.user, maxFileSize);
    assert !Overlaps(OneFile(3, [TOP]), Some(BETWEEN.user), Some(BETWEEN.user));
    EmptyOrNot(Overlapping(GAP_VERSION[2], Some(BETWEEN.user), Some(BETWEEN.user)));
    assert Overlapping(GAP_VERSION[3], Some(BETWEEN.user), Some(BETWEEN.user)) == [];
  }

  /** The flush itself is right. */
  lemma GapFlushed(p: Compacted, v: Version)
    requires WideOutcome(p) && NewerThanVersion(FLUSHED, p.base) && Consistent(VersionContents(p.base) + {BETWEEN})
    requires GoodFlushLevel(p.base, 2, FLUSHED) && Applied(p.base, {}, {(2, FLUSHED)}, v)
    ensures Flushed(p, v) && Read(VersionContents(v), 5.0, 12) == Some([7])
  {
    NothingFlushed(p);
    FlushContents(p.base, 2, FLUSHED, v);
    assert FLUSHED.table == [BETWEEN] && ValidFile(FLUSHED);
    assert TableSet(FLUSHED) == {BETWEEN};
    FlushedOnceMore(p, p.base, 2, FLUSHED, v);
    assert At(v, 2, FLUSHED);
    BetweenIsRead(v);
  }

  lemma FlushedIsNewer()
    ensures NewerThanVersion(FLUSHED, GAP_VERSION) && Consistent(VersionContents(GAP_VERSION) + {BETWEEN})
  {
    GapVersionContents();
    assert FLUSHED.table == [BETWEEN];
  }

  lemma BetweenIsRead(v: Version)
    requires Consistent(VersionContents(v)) && At(v, 2, FLUSHED)
    ensures Read(VersionContents(v), 5.0, 12) == Some([7])
  {
    assert FLUSHED.table == [BETWEEN];
    InContents(v, 2, FLUSHED, BETWEEN);
    assert IsNewest(VersionContents(v), 5.0, 12, BETWEEN) by {
      assert Candidate(VersionContents(v), 5.0, 12, BETWEEN);
    }
    LookupIs(VersionContents(v), 5.0, 12, BETWEEN);
  }

  lemma FilesWithFlushed(base: Version, v: Version)
    requires |base| == NUM_LEVELS && Applied(base, {}, {(2, FLUSHED)}, v)
    ensures forall l, x :: At(v, l, x) <==> At(base, l, x) || (l == 2 && x == FLUSHED)
  {
  }

  lemma InstalledAt(p: Compacted, v: Version, v': Version, l: int, f: File)
    requires WideOutcome(p) && Installed(p, v, v')
    requires forall l, x :: At(v, l, x) <==> At(p.base, l, x) || (l == 2 && x == FLUSHED)
    ensures At(v', l, f) <==> l == 2 && (f == FLUSHED || f == p.outs[0] || f == OneFile(3, [TOP]))
  {
    Remaining(v, p.level, p.in0, p.in1, p.outs, v', l, f);
    if l == 2 && f == p.outs[0] {
      assert f in p.outs && (2, f) in OutputAdditions(1, p.outs);
    }
  }

  lemma GapInstalledFiles(p: Compacted, v: Version, v': Version)
    requires WideOutcome(p) && Installed(p, v, v')
    requires Applied(p.base, {}, {(2, FLUSHED)}, v)
    ensures forall l, f :: At(v', l, f) <==> l == 2 && (f == FLUSHED || f == p.outs[0] || f == OneFile(3, [TOP]))
  {
    FilesWithFlushed(p.base, v);
    forall l, f
      ensures At(v', l, f) <==> l == 2 && (f == FLUSHED || f == p.outs[0] || f == OneFile(3, [TOP]))
    {
      InstalledAt(p, v, v', l, f);
    }
  }

  lemma Ahead(fs: seq<File>, f: File, g: File) returns (i: nat, j: nat)
    requires SortedBySmallest(fs) && f in fs && g in fs && BySmallest(f, g)
    ensures i < j < |fs| && fs[i] == f && fs[j] == g
  {
    i :| 0 <= i < |fs| && fs[i] == f;
    j :| 0 <= j < |fs| && fs[j] == g;
  }

  predicate OneOf(n: nat, i: nat, j: nat, k: nat) {
    n == i || n == j || n == k
  }

  lemma ThreeFiles(fs: seq<File>, f: File, g: File, h: File)
    requires SortedBySmallest(fs) && BySmallest(f, g) && BySmallest(g, h)
    requires forall x :: x in fs <==> x == f || x == g || x == h
    ensures fs == [f, g, h]
  {
    var i, j := Ahead(fs, f, g);
    var j', k := Ahead(fs, g, h);
    OncePresent(fs, j, j');
    forall n | 0 <= n < |fs|
      ensures OneOf(n, i, j, k)
    {
      assert fs[n] in fs;
      OncePresent(fs, n, if fs[n] == f then i else if fs[n] == g then j else k);
    }
    assert OneOf(0, i, j, k) && OneOf(1, i, j, k) && OneOf(2, i, j, k);
    assert |fs| <= 3 || OneOf(|fs| - 1, i, j, k);
  }

  lemma OncePresent(fs: seq<File>, i: nat, j: nat)
    requires SortedBySmallest(fs) && i < |fs| && j < |fs| && fs[i] == fs[j]
    ensures i == j
  {
  }

  /** The file that the search for the key on level 2 reads. */
  function FileRead(v: Version, key: InternalKey): Option<File>
    requires |v| > 2
  {
    var i := Bisect(v[2], key, 0, |v[2]|);
    if i < |v[2]| then Some(v[2][i]) else None
  }

  lemma WideIsRead(v': Version, o: File)
    requires |v'| > 2 && v'[2] == [o, FLUSHED, OneFile(3, [TOP])] && IsWide(o)
    ensures FileRead(v', SeekKey(5.0, 12)) == Some(o) && NoCandidate(o, 5.0, 12)
  {
    var key := SeekKey(5.0, 12);
    assert !Less(FLUSHED.largest, key) && !Less(o.largest, key);
    assert Bisect(v'[2], key, 0, 0) == 0;
    assert Bisect(v'[2], key, 0, 1) == 0;
    assert Bisect(v'[2], key, 0, 3) == 0;
  }

  /** The value is in the version, but the search on the one level with files reads a file that does
      not have the key. */
  ghost predicate MissesValue(v: Version) {
    && !WellFormed(v) && |v| == NUM_LEVELS && Read(VersionContents(v), 5.0, 12) == Some([7])
    && (forall l, f :: At(v, l, f) ==> l == 2)
    && FileRead(v, SeekKey(5.0, 12)).Some? && NoCandidate(FileRead(v, SeekKey(5.0, 12)).value, 5.0, 12)
  }

  ghost predicate FlushedThenInstalled(p: Compacted, level: nat, v: Version, v': Version) {
    && Applied(p.base, {}, {(level as int, FLUSHED)}, v)
    && Applied(v, InputDeletions(p.level, p.in0, p.in1), OutputAdditions(p.level, p.outs), v')
  }

  lemma OnLevelTwo(v: Version, f: File, g: File, h: File)
    requires |v| > 2 && forall l, x :: At(v, l, x) <==> l == 2 && (x == f || x == g || x == h)
    ensures forall x :: x in v[2] <==> x == f || x == g || x == h
  {
    assert forall x :: x in v[2] <==> At(v, 2, x);
  }

  lemma GapOverlaps(p: Compacted, v: Version, v': Version)
    requires WideOutcome(p) && Installed(p, v, v') && Applied(p.base, {}, {(2, FLUSHED)}, v)
    ensures !WellFormed(v')
  {
    assert p.outs[0] in p.outs && FlushedSince(p, v, FLUSHED) && Spans(p.outs[0], FLUSHED);
    WellFormedExactlyIfFits(p, v, v');
  }

  /** Installed, the outcome overlaps the flushed file; the search reads the outcome, where the key is
      not, though the value is in the version. */
  lemma GapOutcome(p: Compacted, v: Version, v': Version)
    requires WideOutcome(p) && Installed(p, v, v') && Applied(p.base, {}, {(2, FLUSHED)}, v)
    ensures MissesValue(v')
  {
    GapInstalledFiles(p, v, v');
    GapOverlaps(p, v, v');
    var o := p.outs[0];
    OnLevelTwo(v', FLUSHED, o, OneFile(3, [TOP]));
    ThreeFiles(v'[2], o, FLUSHED, OneFile(3, [TOP]));
    WideIsRead(v', o);
    ContentsAfter(p, v, v');
    BetweenIsRead(v');
  }

  /** The whole story, by the methods of the source: a manual compaction without ends compacts levels 0
      and 1; before the outcome is installed the value is read, afterwards the search misses it. */
  method LoseFlushedValue(maxFileSize: nat, fileSize: seq<Entry> -> nat) returns (p: Compacted, level: nat)
    requires maxFileSize > 1 && fileSize([LOW]) < maxFileSize
    ensures WellFormed(GAP_VERSION) && WideOutcome(p) && p.base == GAP_VERSION
    ensures LastLevelWithFiles(GAP_VERSION, None, None, p.level + 1)
    ensures GoodFlushLevel(GAP_VERSION, level, FLUSHED)
    ensures forall v, v' :: FlushedThenInstalled(p, level, v, v') ==>
              WellFormed(v) && Read(VersionContents(v), 5.0, 12) == Some([7]) && MissesValue(v')
  {
    GapVersionWellFormed();
    var last := LevelsToCompact(GAP_VERSION, None, None);
    GapAsksForLevel1(last);
    p := CompactGap(maxFileSize, fileSize);
    level := PickGap(maxFileSize);
    FlushedIsNewer();
    forall v, v' | FlushedThenInstalled(p, level, v, v')
      ensures WellFormed(v) && Read(VersionContents(v), 5.0, 12) == Some([7]) && MissesValue(v')
    {
      GapFlushed(p, v);
      GapOutcome(p, v, v');
    }
  }
}
