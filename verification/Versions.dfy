/** Table files, levels and searches over them (db/version_set.cc, class Version). */
module Versions {
  import opened DbFormat
  import opened History
  import opened SortedRuns

  /** FileMetaData together with the contents of the table file it names. */
  datatype File = File(number: nat, size: nat, smallest: InternalKey, largest: InternalKey, table: seq<Entry>)

  /** The file lists of the levels; levels[0] is the youngest. */
  type Version = seq<seq<File>>

  ghost predicate ValidFile(f: File) {
    && f.table != []
    && Sorted(f.table)
    && f.smallest == KeyOf(f.table[0])
    && f.largest == KeyOf(f.table[|f.table| - 1])
    && forall e :: e in f.table ==> e.num <= MAX_SEQUENCE
  }

  /** Entries of a valid file lie between its bounds. */
  lemma InBounds(f: File, e: Entry)
    requires ValidFile(f) && e in f.table
    ensures !Less(KeyOf(e), f.smallest) && !Less(f.largest, KeyOf(e))
    ensures f.smallest.user <= e.user <= f.largest.user
    ensures f.smallest.tag <= MAX_TAG && f.largest.tag <= MAX_TAG && !Less(f.largest, f.smallest)
  {
    var i :| 0 <= i < |f.table| && f.table[i] == e;
    assert f.table[0] in f.table && f.table[|f.table| - 1] in f.table;
    assert i == 0 || Less(KeyOf(f.table[0]), KeyOf(f.table[i]));
    assert i == |f.table| - 1 || Less(KeyOf(f.table[i]), KeyOf(f.table[|f.table| - 1]));
  }

  lemma BoundsOrdered(f: File)
    requires ValidFile(f)
    ensures f.smallest.user <= f.largest.user && !Less(f.largest, f.smallest)
    ensures f.smallest.tag <= MAX_TAG && f.largest.tag <= MAX_TAG
  {
    assert f.table[0] in f.table;
    InBounds(f, f.table[0]);
  }

  /** The entries of a list of files. */
  ghost function Contents(fs: seq<File>): set<Entry> {
    set f, e | f in fs && e in f.table :: e
  }

  /** A sorted level: every file ends before the next one starts. */
  ghost predicate DisjointSorted(fs: seq<File>) {
    forall i, j :: 0 <= i < j < |fs| ==> Less(fs[i].largest, fs[j].smallest)
  }

  ghost predicate ValidFiles(fs: seq<File>) {
    forall f :: f in fs ==> ValidFile(f)
  }

  /** On disjoint sorted files the largest keys increase too. */
  lemma LargestIncrease(fs: seq<File>, i: nat, j: nat)
    requires ValidFiles(fs) && DisjointSorted(fs) && i < j < |fs|
    ensures Less(fs[i].largest, fs[j].largest)
  {
    assert fs[j] in fs;
    BoundsOrdered(fs[j]);
    assert Less(fs[i].largest, fs[j].smallest);
  }

  /** The middle file decides for all files on one side of it. */
  lemma OneSideOfMiddle(files: seq<File>, mid: nat, key: InternalKey)
    requires ValidFiles(files) && DisjointSorted(files) && mid < |files|
    ensures Less(files[mid].largest, key) ==> forall i :: 0 <= i <= mid ==> Less(files[i].largest, key)
    ensures !Less(files[mid].largest, key) ==> forall i :: mid <= i < |files| ==> !Less(files[i].largest, key)
  {
    forall i | 0 <= i < |files|
      ensures i < mid ==> Less(files[i].largest, files[mid].largest)
      ensures mid < i ==> Less(files[mid].largest, files[i].largest)
    {
      if i < mid {
        LargestIncrease(files, i, mid);
      } else if mid < i {
        LargestIncrease(files, mid, i);
      }
    }
  }

  /** Where the binary search ends, on any list of files. */
  function Bisect(files: seq<File>, key: InternalKey, left: nat, right: nat): nat
    requires left <= right <= |files|
    decreases right - left
  {
    if left == right then right
    else
      var mid := (left + right) / 2;
      if Less(files[mid].largest, key) then Bisect(files, key, mid + 1, right) else Bisect(files, key, left, mid)
  }

  /** FindFile: binary search for the first file whose largest key is at or after key. */
  method FindFile(files: seq<File>, key: InternalKey) returns (right: nat)
    requires ValidFiles(files) && DisjointSorted(files)
    ensures right <= |files|
    ensures forall i :: 0 <= i < right ==> Less(files[i].largest, key)
    ensures forall i :: right <= i < |files| ==> !Less(files[i].largest, key)
    ensures right == Bisect(files, key, 0, |files|)
  {
    var left := 0;
    right := |files|;
    while left < right
      invariant 0 <= left <= right <= |files| && Bisect(files, key, left, right) == Bisect(files, key, 0, |files|)
      invariant forall i :: 0 <= i < left ==> Less(files[i].largest, key)
      invariant forall i :: right <= i < |files| ==> !Less(files[i].largest, key)
    {
      var mid := (left + right) / 2;
      OneSideOfMiddle(files, mid, key);
      if Less(files[mid].largest, key) {
        left := mid + 1;
      } else {
        right := mid;
      }
    }
  }

  /** AfterFile / BeforeFile with a null user key standing for "unbounded". */
  predicate AfterFile(k: Option<UserKey>, f: File) {
    k.Some? && k.value > f.largest.user
  }

  predicate BeforeFile(k: Option<UserKey>, f: File) {
    k.Some? && k.value < f.smallest.user
  }

  /** f's user-key range meets [lo, hi]. */
  predicate Overlaps(f: File, lo: Option<UserKey>, hi: Option<UserKey>) {
    !AfterFile(lo, f) && !BeforeFile(hi, f)
  }

  predicate SomeOverlap(files: seq<File>, lo: Option<UserKey>, hi: Option<UserKey>) {
    exists f :: f in files && Overlaps(f, lo, hi)
  }

  /** SomeFileOverlapsRange: the linear scan for level 0 and the binary search for sorted
      disjoint levels answer the same question. */
  method SomeFileOverlapsRange(disjointSorted: bool, files: seq<File>, lo: Option<UserKey>, hi: Option<UserKey>)
    returns (r: bool)
    requires ValidFiles(files) && (disjointSorted ==> DisjointSorted(files))
    ensures r == SomeOverlap(files, lo, hi)
  {
    if !disjointSorted {
      for i := 0 to |files|
        invariant forall j :: 0 <= j < i ==> !Overlaps(files[j], lo, hi)
      {
        if AfterFile(lo, files[i]) || BeforeFile(hi, files[i]) {
        } else {
          assert files[i] in files;
          return true;
        }
      }
      return false;
    }
    var index := 0;
    if lo.Some? {
      var small := SeekKey(lo.value, MAX_SEQUENCE);
      index := FindFile(files, small);
      forall i | 0 <= i < |files|
        ensures AfterFile(lo, files[i]) == Less(files[i].largest, small)
      {
        assert files[i] in files;
        BoundsOrdered(files[i]);
      }
    }
    if index >= |files| {
      return false;
    }
    forall i | index <= i < |files|
      ensures !AfterFile(lo, files[i])
      ensures BeforeFile(hi, files[index]) ==> BeforeFile(hi, files[i])
    {
      if i > index {
        assert files[index] in files;
        BoundsOrdered(files[index]);
        assert Less(files[index].largest, files[i].smallest);
      }
    }
    assert files[index] in files;
    return !BeforeFile(hi, files[index]);
  }

  function TotalSize(fs: seq<File>): nat {
    if fs == [] then 0 else fs[0].size + TotalSize(fs[1..])
  }

  /** The files of a sublist that meet [lo, hi], in order. */
  function Overlapping(fs: seq<File>, lo: Option<UserKey>, hi: Option<UserKey>): (r: seq<File>)
    ensures forall f :: f in r <==> f in fs && Overlaps(f, lo, hi)
  {
    if fs == [] then []
    else
      var last := fs[|fs| - 1];
      assert fs == fs[..|fs| - 1] + [last];
      Overlapping(fs[..|fs| - 1], lo, hi) + (if Overlaps(last, lo, hi) then [last] else [])
  }

  // ---- The order of a well-formed version ----

  predicate BySmallest(f: File, g: File) {
    Less(f.smallest, g.smallest) || (f.smallest == g.smallest && f.number < g.number)
  }

  ghost predicate SortedBySmallest(fs: seq<File>) {
    forall i, j :: 0 <= i < j < |fs| ==> BySmallest(fs[i], fs[j])
  }

  ghost predicate FilesApart(f: File, g: File) {
    Less(f.largest, g.smallest) || Less(g.largest, f.smallest)
  }

  ghost function TableSet(f: File): set<Entry> {
    SetOf(f.table)
  }

  /** f is one of the files of level l. */
  ghost predicate At(v: Version, l: int, f: File) {
    0 <= l < |v| && f in v[l]
  }

  /** A reader looks into f on level l before g on level m. */
  ghost predicate SearchedBefore(l: int, f: File, m: int, g: File) {
    l < m || (l == m == 0 && f.number > g.number)
  }

  /** What holds between a file f on level l and a file g on level m. */
  ghost predicate PairOk(l: int, f: File, m: int, g: File) {
    && (f.number == g.number ==> l == m && f == g)
    && (l == m >= 1 && f != g ==> FilesApart(f, g))
    && (SearchedBefore(l, f, m, g) ==> Above(TableSet(f), TableSet(g)))
  }

  /** The invariant every installed version satisfies.  File lists are ordered by smallest key;
      each file number is used once; levels above 0 are pairwise disjoint; whatever a reader
      searches earlier only holds newer entries of a common user key. */
  ghost predicate WellFormed(v: Version) {
    && |v| == NUM_LEVELS
    && (forall l :: 0 <= l < NUM_LEVELS ==> SortedBySmallest(v[l]))
    && (forall l, f :: At(v, l, f) ==> ValidFile(f))
    && (forall l, m, f, g {:trigger PairOk(l, f, m, g)} :: At(v, l, f) && At(v, m, g) ==> PairOk(l, f, m, g))
  }

  ghost function VersionContents(v: Version): set<Entry> {
    set l, f, e | 0 <= l < |v| && f in v[l] && e in f.table :: e
  }

  lemma InContents(v: Version, l: int, f: File, e: Entry)
    requires At(v, l, f) && e in f.table
    ensures e in VersionContents(v)
  {
  }

  lemma WhereInContents(v: Version, e: Entry) returns (l: int, f: File)
    requires e in VersionContents(v)
    ensures At(v, l, f) && e in f.table
  {
    l, f :| 0 <= l < |v| && f in v[l] && e in f.table;
  }

  lemma LevelFilesValid(v: Version, l: nat)
    requires WellFormed(v) && l < NUM_LEVELS
    ensures ValidFiles(v[l])
  {
    forall f | f in v[l]
      ensures ValidFile(f)
    {
      assert At(v, l, f);
    }
  }

  lemma LevelsDisjointSorted(v: Version, l: nat)
    requires WellFormed(v) && 1 <= l < NUM_LEVELS
    ensures DisjointSorted(v[l]) && ValidFiles(v[l])
  {
    LevelFilesValid(v, l);
    forall i, j | 0 <= i < j < |v[l]|
      ensures Less(v[l][i].largest, v[l][j].smallest)
    {
      var f, g := v[l][i], v[l][j];
      assert At(v, l, f) && At(v, l, g) && BySmallest(f, g) && f != g;
      assert PairOk(l, f, l, g);
      BoundsOrdered(f);
      BoundsOrdered(g);
    }
  }

  // ---- Point lookups ----

  /** Files sorted by decreasing number (std::sort with NewestFirst). */
  function InsertNewest(f: File, fs: seq<File>): seq<File> {
    if fs == [] || f.number > fs[0].number then [f] + fs
    else [fs[0]] + InsertNewest(f, fs[1..])
  }

  function SortNewestFirst(fs: seq<File>): seq<File> {
    if fs == [] then [] else InsertNewest(fs[0], SortNewestFirst(fs[1..]))
  }

  ghost predicate NewestFirst(fs: seq<File>) {
    forall i, j :: 0 <= i < j < |fs| ==> fs[i].number >= fs[j].number
  }

  lemma {:induction false} InsertNewestMembers(f: File, fs: seq<File>)
    ensures forall x :: x in InsertNewest(f, fs) <==> x == f || x in fs
  {
    if fs != [] && f.number <= fs[0].number {
      assert fs == [fs[0]] + fs[1..];
      InsertNewestMembers(f, fs[1..]);
    }
  }

  lemma InsertedLast(f: File, fs: seq<File>)
    requires NewestFirst(fs) && fs != [] && f.number <= fs[0].number && NewestFirst(InsertNewest(f, fs[1..]))
    ensures NewestFirst([fs[0]] + InsertNewest(f, fs[1..]))
  {
    InsertNewestMembers(f, fs[1..]);
    var r := InsertNewest(f, fs[1..]);
    forall i | 0 <= i < |r|
      ensures r[i].number <= fs[0].number
    {
      assert r[i] in r;
    }
  }

  lemma {:induction false} InsertNewestSorted(f: File, fs: seq<File>)
    requires NewestFirst(fs)
    ensures NewestFirst(InsertNewest(f, fs))
    ensures multiset(InsertNewest(f, fs)) == multiset(fs) + multiset{f}
  {
    if fs == [] || f.number > fs[0].number {
    } else {
      assert fs == [fs[0]] + fs[1..];
      InsertNewestSorted(f, fs[1..]);
      InsertedLast(f, fs);
    }
  }

  lemma {:induction false} SortNewestFirstCorrect(fs: seq<File>)
    ensures NewestFirst(SortNewestFirst(fs))
    ensures forall f :: f in SortNewestFirst(fs) <==> f in fs
    ensures multiset(SortNewestFirst(fs)) == multiset(fs)
  {
    if fs != [] {
      assert fs == [fs[0]] + fs[1..];
      SortNewestFirstCorrect(fs[1..]);
      InsertNewestSorted(fs[0], SortNewestFirst(fs[1..]));
      assert forall f :: f in SortNewestFirst(fs) <==> f in multiset(SortNewestFirst(fs));
    }
  }

  ghost predicate NoCandidate(f: File, k: UserKey, s: nat) {
    forall e :: !Candidate(TableSet(f), k, s, e)
  }

  lemma FileConsistent(v: Version, l: int, f: File)
    requires At(v, l, f) && Consistent(VersionContents(v))
    ensures Consistent(TableSet(f))
  {
    assert forall e :: e in TableSet(f) ==> e in VersionContents(v);
  }

  /** A file outside whose user-key range k lies has nothing to say about k. */
  lemma OutsideRange(f: File, k: UserKey, s: nat)
    requires ValidFile(f) && !(f.smallest.user <= k <= f.largest.user)
    ensures NoCandidate(f, k, s)
  {
    forall e | Candidate(TableSet(f), k, s, e)
      ensures false
    {
      InBounds(f, e);
    }
  }

  /** A file that ends before the seek key of (k, s) holds no candidate. */
  lemma EndsBefore(f: File, k: UserKey, s: nat)
    requires ValidFile(f) && Less(f.largest, SeekKey(k, s))
    ensures NoCandidate(f, k, s)
  {
    forall e | Candidate(TableSet(f), k, s, e)
      ensures false
    {
      InBounds(f, e);
    }
  }

  /** A miss in one file: RunGet found no entry of k at or below s. */
  lemma Miss(f: File, k: UserKey, s: nat)
    requires ValidFile(f) && Consistent(TableSet(f)) && RunGet(f.table, k, s) == None
    ensures NoCandidate(f, k, s)
  {
    RunGetIsLookup(f.table, k, s);
    if e :| Candidate(TableSet(f), k, s, e) {
      var n := NewestExists(TableSet(f), k, s, e);
    }
  }

  /** A hit in one file is the answer when every file searched before it had no candidate and
      the other files have none or only older ones. */
  lemma Hit(v: Version, l: int, f: File, k: UserKey, s: nat)
    requires Consistent(VersionContents(v))
    requires At(v, l, f) && ValidFile(f) && RunGet(f.table, k, s).Some?
    requires forall m, g :: At(v, m, g) && g != f ==> NoCandidate(g, k, s) || Above(TableSet(f), TableSet(g))
    ensures Lookup(VersionContents(v), k, s) == RunGet(f.table, k, s)
  {
    FileConsistent(v, l, f);
    RunGetIsLookup(f.table, k, s);
    var n :| IsNewest(TableSet(f), k, s, n) && RunGet(f.table, k, s) == Some(n.op);
    assert IsNewest(TableSet(f), k, s, n);
    assert Candidate(TableSet(f), k, s, n);
    InContents(v, l, f, n);
    forall x | Candidate(VersionContents(v), k, s, x)
      ensures x.num <= n.num
    {
      var m, g := WhereInContents(v, x);
      assert Candidate(TableSet(g), k, s, x);
    }
    LookupIs(VersionContents(v), k, s, n);
  }

  /** Later files of a sorted level hold only older entries of a common user key. */
  lemma LaterFilesOlder(f: File, g: File)
    requires ValidFile(f) && ValidFile(g) && Less(f.largest, g.smallest)
    requires Consistent(TableSet(f) + TableSet(g))
    ensures Above(TableSet(f), TableSet(g))
  {
    forall a, b | a in TableSet(f) && b in TableSet(g) && a.user == b.user
      ensures a.num > b.num
    {
      InBounds(f, a);
      InBounds(g, b);
    }
  }

  /** Level-0 files whose user-key range covers k, youngest first. */
  method CoveringLevel0(files: seq<File>, k: UserKey) returns (r: seq<File>)
    ensures NewestFirst(r)
    ensures forall f :: f in r <==> f in files && f.smallest.user <= k <= f.largest.user
  {
    var tmp: seq<File> := [];
    for i := 0 to |files|
      invariant forall f :: f in tmp <==> f in files[..i] && f.smallest.user <= k <= f.largest.user
    {
      if k >= files[i].smallest.user && k <= files[i].largest.user {
        tmp := tmp + [files[i]];
      }
      assert files[..i + 1] == files[..i] + [files[i]];
    }
    assert files[..|files|] == files;
    SortNewestFirstCorrect(tmp);
    r := SortNewestFirst(tmp);
  }

  lemma Level0Hit(v: Version, tmp: seq<File>, i: nat, k: UserKey, s: nat)
    requires WellFormed(v) && Consistent(VersionContents(v))
    requires NewestFirst(tmp) && i < |tmp| && RunGet(tmp[i].table, k, s).Some?
    requires forall f :: f in tmp <==> f in v[0] && f.smallest.user <= k <= f.largest.user
    requires forall j :: 0 <= j < i ==> NoCandidate(tmp[j], k, s)
    ensures Lookup(VersionContents(v), k, s) == RunGet(tmp[i].table, k, s)
  {
    var f := tmp[i];
    assert At(v, 0, f);
    forall m, g | At(v, m, g) && g != f
      ensures NoCandidate(g, k, s) || Above(TableSet(f), TableSet(g))
    {
      if m == 0 {
        if g in tmp {
          var j :| 0 <= j < |tmp| && tmp[j] == g;
          assert PairOk(0, f, 0, g);
        } else {
          OutsideRange(g, k, s);
        }
      } else {
        assert PairOk(0, f, m, g);
      }
    }
    Hit(v, 0, f, k, s);
  }

  lemma Level0Miss(v: Version, tmp: seq<File>, k: UserKey, s: nat)
    requires WellFormed(v)
    requires forall f :: f in tmp <==> f in v[0] && f.smallest.user <= k <= f.largest.user
    requires forall j :: 0 <= j < |tmp| ==> NoCandidate(tmp[j], k, s)
    ensures forall g :: At(v, 0, g) ==> NoCandidate(g, k, s)
  {
    forall g | At(v, 0, g)
      ensures NoCandidate(g, k, s)
    {
      if g in tmp {
        var j :| 0 <= j < |tmp| && tmp[j] == g;
      } else {
        OutsideRange(g, k, s);
      }
    }
  }

  /** If the file that reaches past the seek key has no candidate, no later file has one. */
  lemma MissCarriesOver(f: File, g: File, k: UserKey, s: nat)
    requires ValidFile(f) && ValidFile(g) && Less(f.largest, g.smallest)
    requires !Less(f.largest, SeekKey(k, s)) && NoCandidate(f, k, s)
    ensures NoCandidate(g, k, s)
  {
    var last := f.table[|f.table| - 1];
    assert last in TableSet(f) && !Candidate(TableSet(f), k, s, last);
    forall e | Candidate(TableSet(g), k, s, e)
      ensures false
    {
      InBounds(g, e);
    }
  }

  lemma PairConsistent(fs: seq<File>, f: File, g: File)
    requires f in fs && g in fs && Consistent(Contents(fs))
    ensures Consistent(TableSet(f) + TableSet(g))
  {
    assert forall e :: e in TableSet(f) + TableSet(g) ==> e in Contents(fs);
  }

  lemma OtherFileOfLevel(fs: seq<File>, index: nat, j: nat, k: UserKey, s: nat)
    requires ValidFiles(fs) && DisjointSorted(fs) && Consistent(Contents(fs))
    requires index < |fs| && j < |fs| && j != index
    requires j < index ==> Less(fs[j].largest, SeekKey(k, s))
    requires !Less(fs[index].largest, SeekKey(k, s))
    ensures NoCandidate(fs[j], k, s) || Above(TableSet(fs[index]), TableSet(fs[j]))
    ensures NoCandidate(fs[index], k, s) ==> NoCandidate(fs[j], k, s)
  {
    var f, g := fs[index], fs[j];
    assert f in fs && g in fs;
    if j < index {
      EndsBefore(g, k, s);
    } else {
      PairConsistent(fs, f, g);
      LaterFilesOlder(f, g);
      if NoCandidate(f, k, s) {
        MissCarriesOver(f, g, k, s);
      }
    }
  }

  /** In a sorted level only the first file that does not end before the seek key can hold the
      newest candidate; if it holds none, the level holds none. */
  lemma OneFilePerLevel(fs: seq<File>, index: nat, k: UserKey, s: nat)
    requires ValidFiles(fs) && DisjointSorted(fs) && Consistent(Contents(fs))
    requires index < |fs|
    requires forall i :: 0 <= i < index ==> Less(fs[i].largest, SeekKey(k, s))
    requires !Less(fs[index].largest, SeekKey(k, s))
    ensures forall g :: g in fs && g != fs[index] ==> NoCandidate(g, k, s) || Above(TableSet(fs[index]), TableSet(g))
    ensures NoCandidate(fs[index], k, s) ==> forall g :: g in fs ==> NoCandidate(g, k, s)
  {
    forall g | g in fs && g != fs[index]
      ensures NoCandidate(g, k, s) || Above(TableSet(fs[index]), TableSet(g))
      ensures NoCandidate(fs[index], k, s) ==> NoCandidate(g, k, s)
    {
      var j :| 0 <= j < |fs| && fs[j] == g;
      OtherFileOfLevel(fs, index, j, k, s);
    }
  }

  /** One deeper level of ForEachOverlapping: at most one file is read. */
  method SearchLevel(fs: seq<File>, k: UserKey, s: nat) returns (r: Option<Op>, ghost f: File)
    requires ValidFiles(fs) && DisjointSorted(fs) && Consistent(Contents(fs)) && s <= MAX_SEQUENCE
    ensures r.Some? ==> f in fs && r == RunGet(f.table, k, s)
    ensures r.Some? ==> forall g :: g in fs && g != f ==> NoCandidate(g, k, s) || Above(TableSet(f), TableSet(g))
    ensures r.None? ==> forall g :: g in fs ==> NoCandidate(g, k, s)
  {
    var index := FindFile(fs, SeekKey(k, s));
    if index == |fs| {
      forall g | g in fs
        ensures NoCandidate(g, k, s)
      {
        EndsBefore(g, k, s);
      }
      return None, File(0, 0, SeekKey(k, s), SeekKey(k, s), []);
    }
    OneFilePerLevel(fs, index, k, s);
    f := fs[index];
    assert f in fs && Consistent(TableSet(f)) by {
      assert forall e :: e in TableSet(f) ==> e in Contents(fs);
    }
    if k < fs[index].smallest.user {
      OutsideRange(f, k, s);
      r := None;
    } else {
      r := RunGet(fs[index].table, k, s);
      if r.None? {
        Miss(f, k, s);
      }
    }
  }

  /** Level 0 of ForEachOverlapping: every covering file, youngest first. */
  method SearchLevel0(v: Version, k: UserKey, s: nat) returns (r: Option<Op>)
    requires WellFormed(v) && Consistent(VersionContents(v))
    ensures r.Some? ==> r == Lookup(VersionContents(v), k, s)
    ensures r.None? ==> forall g :: At(v, 0, g) ==> NoCandidate(g, k, s)
  {
    var tmp := CoveringLevel0(v[0], k);
    for i := 0 to |tmp|
      invariant forall j :: 0 <= j < i ==> NoCandidate(tmp[j], k, s)
    {
      r := RunGet(tmp[i].table, k, s);
      if r.Some? {
        Level0Hit(v, tmp, i, k, s);
        return;
      }
      assert At(v, 0, tmp[i]);
      FileConsistent(v, 0, tmp[i]);
      Miss(tmp[i], k, s);
    }
    Level0Miss(v, tmp, k, s);
    r := None;
  }

  lemma LevelHit(v: Version, l: nat, f: File, k: UserKey, s: nat)
    requires WellFormed(v) && Consistent(VersionContents(v)) && At(v, l, f) && RunGet(f.table, k, s).Some?
    requires forall m, g :: At(v, m, g) && m < l ==> NoCandidate(g, k, s)
    requires forall g :: g in v[l] && g != f ==> NoCandidate(g, k, s) || Above(TableSet(f), TableSet(g))
    ensures Lookup(VersionContents(v), k, s) == RunGet(f.table, k, s)
  {
    forall m, g | At(v, m, g) && g != f
      ensures NoCandidate(g, k, s) || Above(TableSet(f), TableSet(g))
    {
      assert PairOk(l, f, m, g);
    }
    Hit(v, l, f, k, s);
  }

  lemma AllMissed(v: Version, k: UserKey, s: nat)
    requires forall m, g :: At(v, m, g) ==> NoCandidate(g, k, s)
    ensures Lookup(VersionContents(v), k, s) == None
  {
    forall x
      ensures !Candidate(VersionContents(v), k, s, x)
    {
      if x in VersionContents(v) {
        var m, g := WhereInContents(v, x);
        assert x in TableSet(g) && NoCandidate(g, k, s);
        assert !Candidate(TableSet(g), k, s, x);
      }
    }
    LookupNone(VersionContents(v), k, s);
  }

  /** Version::Get: level 0 from the youngest file, then one file per deeper level, stopping at
      the first hit.  The early stop is sound: the answer is the newest entry at or below s. */
  method Get(v: Version, k: UserKey, s: nat) returns (r: Option<Op>)
    requires WellFormed(v) && Consistent(VersionContents(v)) && s <= MAX_SEQUENCE
    ensures r == Lookup(VersionContents(v), k, s)
  {
    r := SearchLevel0(v, k, s);
    if r.Some? {
      return;
    }
    for level := 1 to NUM_LEVELS
      invariant forall m, g :: At(v, m, g) && m < level ==> NoCandidate(g, k, s)
    {
      LevelsDisjointSorted(v, level);
      assert forall e :: e in Contents(v[level]) ==> e in VersionContents(v);
      ghost var f;
      r, f := SearchLevel(v[level], k, s);
      if r.Some? {
        assert At(v, level, f);
        LevelHit(v, level, f, k, s);
        return;
      }
    }
    AllMissed(v, k, s);
    r := None;
  }
}
