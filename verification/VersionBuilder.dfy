/** Version edits, VersionSet::Builder and MANIFEST replay (db/version_set.cc:569-731, 862-987). */
module VersionBuilder {
  import opened DbFormat
  import opened Versions

  /** The part of a VersionEdit that changes the version and its counters. */
  datatype Edit = Edit(logNumber: Option<nat>, nextFile: Option<nat>, lastSequence: Option<nat>,
                       deleted: set<(int, nat)>, added: seq<(int, File)>)

  // ---- Files of a level in BySmallestKey order ----

  ghost predicate IsListing(S: set<File>, r: seq<File>) {
    SortedBySmallest(r) && forall f :: f in r <==> f in S
  }

  /** The files of S in BySmallestKey order. */
  ghost function Listing(S: set<File>): seq<File> {
    if exists r :: IsListing(S, r) then
      var r :| IsListing(S, r);
      r
    else []
  }

  lemma SortedTail(r: seq<File>)
    requires r != [] && SortedBySmallest(r)
    ensures SortedBySmallest(r[1..])
    ensures forall f :: f in r <==> f == r[0] || f in r[1..]
    ensures forall f :: f in r[1..] ==> BySmallest(r[0], f)
  {
    assert r == [r[0]] + r[1..];
    forall f | f in r[1..]
      ensures BySmallest(r[0], f)
    {
      var i :| 0 <= i < |r[1..]| && r[1..][i] == f;
      assert r[i + 1] == f;
    }
  }

  lemma {:induction false} ListingUnique(r: seq<File>, t: seq<File>)
    requires SortedBySmallest(r) && SortedBySmallest(t) && forall f :: f in r <==> f in t
    ensures r == t
  {
    assert t == [] || t[0] in t;
    if r != [] {
      assert r[0] in t;
      SortedTail(r);
      SortedTail(t);
      assert t[0] in r;
      assert r[0] == t[0];
      ListingUnique(r[1..], t[1..]);
      assert r == [r[0]] + r[1..] && t == [t[0]] + t[1..];
    }
  }

  lemma ListingIs(S: set<File>, r: seq<File>)
    requires IsListing(S, r)
    ensures Listing(S) == r
  {
    var t :| IsListing(S, t) && Listing(S) == t;
    assert IsListing(S, t);
    ListingUnique(r, t);
  }

  /** std::set insertion: an equivalent element keeps the old one. */
  function Insert(f: File, fs: seq<File>): seq<File> {
    if fs == [] || BySmallest(f, fs[0]) then [f] + fs
    else if BySmallest(fs[0], f) then [fs[0]] + Insert(f, fs[1..])
    else fs
  }

  ghost predicate DistinctNumbers(S: set<File>) {
    forall f, g :: f in S && g in S && f.number == g.number ==> f == g
  }

  /** f is in the list, or has no equivalent there. */
  ghost predicate Insertable(f: File, fs: seq<File>) {
    forall g :: g in fs ==> g == f || BySmallest(f, g) || BySmallest(g, f)
  }

  lemma {:induction false} InsertCorrect(f: File, fs: seq<File>)
    requires SortedBySmallest(fs) && Insertable(f, fs)
    ensures SortedBySmallest(Insert(f, fs))
    ensures forall g :: g in Insert(f, fs) <==> g == f || g in fs
  {
    if fs != [] {
      SortedTail(fs);
      if BySmallest(f, fs[0]) {
        SortedCons(f, fs);
      } else if BySmallest(fs[0], f) {
        InsertCorrect(f, fs[1..]);
        SortedCons(fs[0], Insert(f, fs[1..]));
      } else {
        assert fs[0] in fs;
      }
    }
  }

  lemma SortedCons(f: File, fs: seq<File>)
    requires SortedBySmallest(fs)
    requires (fs != [] && BySmallest(f, fs[0])) || forall g :: g in fs ==> BySmallest(f, g)
    ensures SortedBySmallest([f] + fs)
  {
  }

  lemma DistinctIsInsertable(S: set<File>, fs: seq<File>, f: File)
    requires DistinctNumbers(S) && f in S && forall g :: g in fs ==> g in S
    ensures Insertable(f, fs)
  {
  }

  lemma {:induction false} ListingExists(S: set<File>)
    requires DistinctNumbers(S)
    ensures IsListing(S, Listing(S))
    decreases |S|
  {
    if S == {} {
      ListingIs(S, []);
    } else {
      var f :| f in S;
      ListingExists(S - {f});
      DistinctIsInsertable(S, Listing(S - {f}), f);
      InsertCorrect(f, Listing(S - {f}));
      ListingIs(S, Insert(f, Listing(S - {f})));
    }
  }

  // ---- One edit after the other ----

  ghost function AddedAt(added: seq<(int, File)>, l: int): set<File> {
    set p | p in added && p.0 == l :: p.1
  }

  ghost function NumbersAt(pairs: set<(int, nat)>, l: int): set<nat> {
    set p | p in pairs && p.0 == l :: p.1
  }

  ghost function NumbersOf(S: set<File>): set<nat> {
    set f | f in S :: f.number
  }

  ghost function FilesOf(fs: seq<File>): set<File> {
    set f | f in fs
  }

  /** A level after one edit: deletions first, then additions (which also undo a deletion). */
  ghost function LevelAfter(fs: set<File>, e: Edit, l: int): set<File> {
    (set f | f in fs && ((l, f.number) !in e.deleted || f.number in NumbersOf(AddedAt(e.added, l)))) + AddedAt(e.added, l)
  }

  /** The version an edit produces. */
  ghost function ApplyEdit(v: Version, e: Edit): (v': Version)
    requires |v| == NUM_LEVELS
    ensures |v'| == NUM_LEVELS
  {
    seq(NUM_LEVELS, (l: int) requires 0 <= l < NUM_LEVELS => Listing(LevelAfter(FilesOf(v[l]), e, l)))
  }

  /** The edits applied one after the other, saving after each. */
  ghost function ApplyAll(base: Version, edits: seq<Edit>): (v: Version)
    requires |base| == NUM_LEVELS
    ensures |v| == NUM_LEVELS
  {
    if edits == [] then base else ApplyEdit(ApplyAll(base, edits[..|edits| - 1]), edits[|edits| - 1])
  }

  const EMPTY_VERSION: Version := [[], [], [], [], [], [], []]

  /** What VersionSet::Recover reconstructs from the records of a MANIFEST. */
  datatype ManifestState = ManifestState(v: Version, logNumber: nat, nextFile: nat, lastSequence: nat)

  ghost function Replay(edits: seq<Edit>): (m: ManifestState)
    ensures |m.v| == NUM_LEVELS
  {
    if edits == [] then ManifestState(EMPTY_VERSION, 0, 0, 0)
    else
      var before, e := Replay(edits[..|edits| - 1]), edits[|edits| - 1];
      ManifestState(ApplyEdit(before.v, e), e.logNumber.GetOr(before.logNumber),
                    e.nextFile.GetOr(before.nextFile), e.lastSequence.GetOr(before.lastSequence))
  }

  // ---- VersionSet::Builder ----

  /** The effect of Builder::Apply on the bookkeeping of one level. */
  ghost function DeletedAfter(d: set<nat>, e: Edit, l: int): set<nat> {
    (d + NumbersAt(e.deleted, l)) - NumbersOf(AddedAt(e.added, l))
  }

  /** Accumulates any number of edits and saves once. */
  class Builder {
    const base: Version
    var deleted: seq<set<nat>>
    var added: seq<seq<File>>

    ghost predicate Valid()
      reads this
    {
      && |base| == |deleted| == |added| == NUM_LEVELS
      && forall l :: 0 <= l < NUM_LEVELS ==> SortedBySmallest(base[l]) && SortedBySmallest(added[l])
    }

    constructor (base: Version)
      requires |base| == NUM_LEVELS && forall l :: 0 <= l < NUM_LEVELS ==> SortedBySmallest(base[l])
      ensures Valid() && this.base == base
      ensures forall l :: 0 <= l < NUM_LEVELS ==> deleted[l] == {} && added[l] == []
    {
      this.base := base;
      deleted, added := seq(NUM_LEVELS, l => {}), seq(NUM_LEVELS, l => []);
    }

    /** First half of Builder::Apply: note the deletions. */
    method NoteDeletions(deletions: set<(int, nat)>)
      requires Valid() && forall p :: p in deletions ==> 0 <= p.0 < NUM_LEVELS
      modifies this
      ensures Valid() && added == old(added)
      ensures forall l :: 0 <= l < NUM_LEVELS ==> deleted[l] == old(deleted[l]) + NumbersAt(deletions, l)
    {
      var todo := deletions;
      while todo != {}
        invariant Valid() && added == old(added) && todo <= deletions
        invariant forall l :: 0 <= l < NUM_LEVELS ==> deleted[l] == old(deleted[l]) + NumbersAt(deletions - todo, l)
        decreases todo
      {
        var p :| p in todo;
        assert deletions - (todo - {p}) == deletions - todo + {p};
        todo := todo - {p};
        deleted := deleted[p.0 := deleted[p.0] + {p.1}];
      }
      assert deletions - todo == deletions;
    }

    /** One new file: it is no longer deleted, and joins the sorted set of its level. */
    method AddFile(level: nat, f: File)
      requires Valid() && level < NUM_LEVELS && DistinctNumbers(FilesOf(added[level]) + {f})
      modifies this
      ensures Valid()
      ensures |deleted| == |old(deleted)| && |added| == |old(added)|
      ensures deleted[level] == old(deleted[level]) - {f.number}
      ensures FilesOf(added[level]) == FilesOf(old(added[level])) + {f}
      ensures forall l :: 0 <= l < NUM_LEVELS && l != level ==> deleted[l] == old(deleted[l]) && added[l] == old(added[l])
    {
      assert forall g :: g in added[level] ==> g in FilesOf(added[level]);
      DistinctIsInsertable(FilesOf(added[level]) + {f}, added[level], f);
      InsertCorrect(f, added[level]);
      deleted := deleted[level := deleted[level] - {f.number}];
      added := added[level := Insert(f, added[level])];
    }

    /** Second half of Builder::Apply: add the new files. */
    method AddFiles(files: seq<(int, File)>)
      requires Valid() && forall p :: p in files ==> 0 <= p.0 < NUM_LEVELS
      requires forall l :: 0 <= l < NUM_LEVELS ==> DistinctNumbers(FilesOf(added[l]) + AddedAt(files, l))
      modifies this
      ensures Valid()
      ensures forall l :: 0 <= l < NUM_LEVELS ==> deleted[l] == old(deleted[l]) - NumbersOf(AddedAt(files, l))
      ensures forall l :: 0 <= l < NUM_LEVELS ==> FilesOf(added[l]) == FilesOf(old(added[l])) + AddedAt(files, l)
    {
      for i := 0 to |files|
        invariant Valid()
        invariant forall l :: 0 <= l < NUM_LEVELS ==> deleted[l] == old(deleted[l]) - NumbersOf(AddedAt(files[..i], l))
        invariant forall l :: 0 <= l < NUM_LEVELS ==> FilesOf(added[l]) == FilesOf(old(added[l])) + AddedAt(files[..i], l)
      {
        var (level, f) := files[i];
        AddedAtAppend(files, i);
        assert (level, f) in files && f in AddedAt(files, level);
        assert FilesOf(added[level]) + {f} <= FilesOf(old(added[level])) + AddedAt(files, level);
        AddFile(level, f);
      }
      assert files[..|files|] == files;
    }

    /** Builder::Apply.  No added file may clash with one already added to its level. */
    method Apply(e: Edit)
      requires Valid() && EditLevelsOk(e)
      requires forall l :: 0 <= l < NUM_LEVELS ==> DistinctNumbers(FilesOf(added[l]) + AddedAt(e.added, l))
      modifies this
      ensures Valid()
      ensures forall l :: 0 <= l < NUM_LEVELS ==> deleted[l] == DeletedAfter(old(deleted[l]), e, l)
      ensures forall l :: 0 <= l < NUM_LEVELS ==> FilesOf(added[l]) == FilesOf(old(added[l])) + AddedAt(e.added, l)
    {
      NoteDeletions(e.deleted);
      AddFiles(e.added);
    }

    /** Builder::SaveTo: merge the base files with the added ones, leaving out deleted ones. */
    method SaveTo() returns (v: Version)
      requires Valid() && forall l :: 0 <= l < NUM_LEVELS ==> DistinctNumbers(FilesOf(base[l]) + FilesOf(added[l]))
      requires forall l :: 0 <= l < NUM_LEVELS ==> FilesOf(base[l]) !! FilesOf(added[l])
      ensures |v| == NUM_LEVELS
      ensures forall l :: 0 <= l < NUM_LEVELS ==>
        IsListing((set f | f in FilesOf(base[l]) + FilesOf(added[l]) && f.number !in deleted[l]), v[l])
    {
      v := [];
      for l := 0 to NUM_LEVELS
        invariant |v| == l
        invariant forall m :: 0 <= m < l ==>
          IsListing((set f | f in FilesOf(base[m]) + FilesOf(added[m]) && f.number !in deleted[m]), v[m])
      {
        var files := SaveLevel(base[l], added[l], deleted[l]);
        v := v + [files];
      }
    }
  }

  ghost predicate EditLevelsOk(e: Edit) {
    && (forall p :: p in e.deleted ==> 0 <= p.0 < NUM_LEVELS)
    && (forall p :: p in e.added ==> 0 <= p.0 < NUM_LEVELS)
  }

  lemma AddedAtAppend(added: seq<(int, File)>, i: nat)
    requires i < |added|
    ensures AddedAt(added[..i + 1], added[i].0) == AddedAt(added[..i], added[i].0) + {added[i].1}
    ensures forall l :: l != added[i].0 ==> AddedAt(added[..i + 1], l) == AddedAt(added[..i], l)
  {
    assert added[..i + 1] == added[..i] + [added[i]];
  }

  /** std::upper_bound from index from: the first file strictly after f. */
  method UpperBound(fs: seq<File>, from: nat, f: File) returns (r: nat)
    requires SortedBySmallest(fs) && from <= |fs|
    ensures from <= r <= |fs|
    ensures forall i :: from <= i < r ==> !BySmallest(f, fs[i])
    ensures forall i :: r <= i < |fs| ==> BySmallest(f, fs[i])
  {
    r := from;
    var hi := |fs|;
    while r < hi
      invariant from <= r <= hi <= |fs|
      invariant forall i :: from <= i < r ==> !BySmallest(f, fs[i])
      invariant forall i :: hi <= i < |fs| ==> BySmallest(f, fs[i])
    {
      var mid := (r + hi) / 2;
      if BySmallest(f, fs[mid]) {
        hi := mid;
      } else {
        r := mid + 1;
      }
    }
  }

  /** The files of a prefix that are not deleted: what MaybeAddFile has let through. */
  ghost function Survivors(fs: seq<File>, n: nat, deleted: set<nat>): set<File>
    requires n <= |fs|
  {
    set i | 0 <= i < n && fs[i].number !in deleted :: fs[i]
  }

  lemma AppendListing(S: set<File>, files: seq<File>, f: File)
    requires IsListing(S, files) && forall g :: g in S ==> BySmallest(g, f)
    ensures IsListing(S + {f}, files + [f])
  {
    assert forall i :: 0 <= i < |files| ==> files[i] in S;
  }

  /** MaybeAddFile. */
  function MaybeAddFile(files: seq<File>, deleted: set<nat>, f: File): seq<File> {
    if f.number in deleted then files else files + [f]
  }

  lemma SurvivorsStep(fs: seq<File>, n: nat, deleted: set<nat>)
    requires n < |fs|
    ensures Survivors(fs, n + 1, deleted) == Survivors(fs, n, deleted) + (if fs[n].number in deleted then {} else {fs[n]})
    ensures forall g :: g in Survivors(fs, n, deleted) ==> exists i :: 0 <= i < n && fs[i] == g
  {
  }

  /** How far SaveTo has come: everything emitted sorts before everything still to come. */
  ghost predicate Progress(base: seq<File>, added: seq<File>, deleted: set<nat>, b: nat, a: nat, files: seq<File>) {
    && SortedBySmallest(base) && SortedBySmallest(added)
    && b <= |base| && a <= |added|
    && IsListing(Survivors(base, b, deleted) + Survivors(added, a, deleted), files)
    && (forall i, j :: 0 <= i < b && a <= j < |added| ==> BySmallest(base[i], added[j]))
    && (forall i, j :: b <= i < |base| && 0 <= j < a ==> BySmallest(added[j], base[i]))
  }

  /** Copies base files until index upper. */
  method CopyRun(base: seq<File>, added: seq<File>, deleted: set<nat>, files: seq<File>, b: nat, upper: nat, a: nat)
    returns (r: seq<File>)
    requires Progress(base, added, deleted, b, a, files) && b <= upper <= |base|
    requires forall i, j :: 0 <= i < upper && a <= j < |added| ==> BySmallest(base[i], added[j])
    ensures Progress(base, added, deleted, upper, a, r)
  {
    r := files;
    for i := b to upper
      invariant Progress(base, added, deleted, i, a, r)
    {
      SurvivorsStep(base, i, deleted);
      EmittedBefore(base, added, deleted, i, a, base[i]);
      if base[i].number !in deleted {
        AppendListing(Survivors(base, i, deleted) + Survivors(added, a, deleted), r, base[i]);
      }
      assert Survivors(base, i, deleted) + Survivors(added, a, deleted) + {base[i]}
          == Survivors(base, i, deleted) + {base[i]} + Survivors(added, a, deleted);
      r := MaybeAddFile(r, deleted, base[i]);
    }
  }

  lemma EmittedBefore(base: seq<File>, added: seq<File>, deleted: set<nat>, b: nat, a: nat, f: File)
    requires b <= |base| && a <= |added|
    requires forall i :: 0 <= i < b ==> BySmallest(base[i], f)
    requires forall j :: 0 <= j < a ==> BySmallest(added[j], f)
    ensures forall g :: g in Survivors(base, b, deleted) + Survivors(added, a, deleted) ==> BySmallest(g, f)
  {
  }

  /** The upper bound of an added file separates the base files, as no file is in both lists. */
  lemma UpperBoundSeparates(base: seq<File>, added: seq<File>, upper: nat, a: nat)
    requires SortedBySmallest(base) && SortedBySmallest(added)
    requires DistinctNumbers(FilesOf(base) + FilesOf(added)) && FilesOf(base) !! FilesOf(added)
    requires a < |added| && upper <= |base|
    requires forall i :: 0 <= i < upper ==> !BySmallest(added[a], base[i])
    ensures forall i, j :: 0 <= i < upper && a <= j < |added| ==> BySmallest(base[i], added[j])
  {
    forall i, j | 0 <= i < upper && a <= j < |added|
      ensures BySmallest(base[i], added[j])
    {
      assert base[i] in FilesOf(base) && added[a] in FilesOf(added);
      assert base[i].number != added[a].number;
      assert a < j ==> BySmallest(added[a], added[j]);
    }
  }

  /** One level of SaveTo. */
  method SaveLevel(base: seq<File>, added: seq<File>, deleted: set<nat>) returns (files: seq<File>)
    requires SortedBySmallest(base) && SortedBySmallest(added)
    requires DistinctNumbers(FilesOf(base) + FilesOf(added)) && FilesOf(base) !! FilesOf(added)
    ensures IsListing((set f | f in FilesOf(base) + FilesOf(added) && f.number !in deleted), files)
  {
    files := [];
    var b := 0;
    for a := 0 to |added|
      invariant Progress(base, added, deleted, b, a, files)
    {
      var upper := UpperBound(base, b, added[a]);
      UpperBoundSeparates(base, added, upper, a);
      files := CopyRun(base, added, deleted, files, b, upper, a);
      b := upper;
      SurvivorsStep(added, a, deleted);
      EmittedBefore(base, added, deleted, b, a, added[a]);
      if added[a].number !in deleted {
        AppendListing(Survivors(base, b, deleted) + Survivors(added, a, deleted), files, added[a]);
      }
      files := MaybeAddFile(files, deleted, added[a]);
    }
    files := CopyRun(base, added, deleted, files, b, |base|, |added|);
    assert Survivors(base, |base|, deleted) + Survivors(added, |added|, deleted)
        == set f | f in FilesOf(base) + FilesOf(added) && f.number !in deleted;
  }

  // ---- Saving once equals saving after each edit ----

  ghost function AddedBy(edits: seq<Edit>, l: int): set<File> {
    if edits == [] then {} else AddedBy(edits[..|edits| - 1], l) + AddedAt(edits[|edits| - 1].added, l)
  }

  ghost function DeletedBy(edits: seq<Edit>, l: int): set<nat> {
    if edits == [] then {} else DeletedAfter(DeletedBy(edits[..|edits| - 1], l), edits[|edits| - 1], l)
  }

  /** Each file number comes to the level at most once. */
  ghost predicate AddedOnce(fs: set<File>, edits: seq<Edit>, l: int) {
    if edits == [] then DistinctNumbers(fs)
    else
      var before, last := edits[..|edits| - 1], AddedAt(edits[|edits| - 1].added, l);
      && AddedOnce(fs, before, l)
      && DistinctNumbers(last)
      && NumbersOf(last) !! NumbersOf(fs + AddedBy(before, l))
  }

  lemma {:induction false} AddedOnceIsDistinct(fs: set<File>, edits: seq<Edit>, l: int)
    requires AddedOnce(fs, edits, l)
    ensures DistinctNumbers(fs + AddedBy(edits, l))
    ensures fs !! AddedBy(edits, l)
    decreases |edits|
  {
    if edits != [] {
      AddedOnceIsDistinct(fs, edits[..|edits| - 1], l);
      var before, last := AddedBy(edits[..|edits| - 1], l), AddedAt(edits[|edits| - 1].added, l);
      forall f, g | f in fs + before && g in last
        ensures f.number != g.number
      {
        assert f.number in NumbersOf(fs + before) && g.number in NumbersOf(last);
      }
    }
  }

  /** The level a run of edits leads to, said in one step. */
  ghost function Outcome(fs: set<File>, edits: seq<Edit>, l: int): set<File> {
    set f | f in fs + AddedBy(edits, l) && f.number !in DeletedBy(edits, l)
  }

  lemma OutcomeStep(fs: set<File>, before: seq<Edit>, e: Edit, l: int)
    requires AddedOnce(fs, before + [e], l)
    ensures LevelAfter(Outcome(fs, before, l), e, l) == Outcome(fs, before + [e], l)
  {
    assert (before + [e])[..|before|] == before;
    var A, N := AddedAt(e.added, l), NumbersOf(AddedAt(e.added, l));
    forall f
      ensures f in LevelAfter(Outcome(fs, before, l), e, l) <==> f in Outcome(fs, before + [e], l)
    {
      assert f in A ==> f.number in N;
      assert f in fs + AddedBy(before, l) ==> f.number in NumbersOf(fs + AddedBy(before, l)) && f.number !in N;
      assert (l, f.number) in e.deleted <==> f.number in NumbersAt(e.deleted, l);
    }
  }

  /** Applying edits one after the other leads to the one-step outcome. */
  lemma {:induction false} SequentialOutcome(base: Version, edits: seq<Edit>, l: int)
    requires |base| == NUM_LEVELS && 0 <= l < NUM_LEVELS && SortedBySmallest(base[l])
    requires AddedOnce(FilesOf(base[l]), edits, l)
    ensures IsListing(Outcome(FilesOf(base[l]), edits, l), ApplyAll(base, edits)[l])
    decreases |edits|
  {
    if edits == [] {
      assert Outcome(FilesOf(base[l]), edits, l) == FilesOf(base[l]);
    } else {
      var before, e := edits[..|edits| - 1], edits[|edits| - 1];
      assert edits == before + [e];
      SequentialOutcome(base, before, l);
      OutcomeStep(FilesOf(base[l]), before, e, l);
      assert FilesOf(ApplyAll(base, before)[l]) == Outcome(FilesOf(base[l]), before, l);
      AddedOnceIsDistinct(FilesOf(base[l]), edits, l);
      ListingExists(Outcome(FilesOf(base[l]), edits, l));
    }
  }

  /** What one builder leads to when all edits are applied before the one save. */
  ghost function SavedOnce(base: Version, edits: seq<Edit>): (v: Version)
    requires |base| == NUM_LEVELS
    ensures |v| == NUM_LEVELS
  {
    seq(NUM_LEVELS, (l: int) requires 0 <= l < NUM_LEVELS => Listing(Outcome(FilesOf(base[l]), edits, l)))
  }

  ghost predicate AllAddedOnce(base: Version, edits: seq<Edit>)
    requires |base| == NUM_LEVELS
  {
    forall l {:trigger AddedOnce(FilesOf(base[l]), edits, l)} :: 0 <= l < NUM_LEVELS ==> AddedOnce(FilesOf(base[l]), edits, l)
  }

  /** Saving once is saving after each edit. */
  lemma SavedOnceIsApplyAll(base: Version, edits: seq<Edit>)
    requires |base| == NUM_LEVELS && forall l :: 0 <= l < NUM_LEVELS ==> SortedBySmallest(base[l])
    requires AllAddedOnce(base, edits)
    ensures SavedOnce(base, edits) == ApplyAll(base, edits)
  {
    forall l | 0 <= l < NUM_LEVELS
      ensures SavedOnce(base, edits)[l] == ApplyAll(base, edits)[l]
    {
      assert AddedOnce(FilesOf(base[l]), edits, l);
      SequentialOutcome(base, edits, l);
      ListingIs(Outcome(FilesOf(base[l]), edits, l), ApplyAll(base, edits)[l]);
    }
  }

  /** The builder has taken in the first n edits. */
  ghost predicate TakenIn(builder: Builder, base: Version, edits: seq<Edit>, n: nat)
    reads builder
  {
    && builder.Valid() && builder.base == base && n <= |edits|
    && (forall l :: 0 <= l < NUM_LEVELS ==> FilesOf(builder.added[l]) == AddedBy(edits[..n], l))
    && (forall l :: 0 <= l < NUM_LEVELS ==> builder.deleted[l] == DeletedBy(edits[..n], l))
  }

  method TakeInEdit(builder: Builder, ghost base: Version, ghost edits: seq<Edit>, ghost n: nat, e: Edit)
    requires |base| == NUM_LEVELS && AllAddedOnce(base, edits)
    requires TakenIn(builder, base, edits, n) && n < |edits| && e == edits[n] && EditLevelsOk(e)
    modifies builder
    ensures TakenIn(builder, base, edits, n + 1)
  {
    assert edits[..n + 1][..n] == edits[..n];
    forall l | 0 <= l < NUM_LEVELS
      ensures DistinctNumbers(FilesOf(builder.added[l]) + AddedAt(e.added, l))
    {
      assert AddedOnce(FilesOf(base[l]), edits, l);
      AddedOncePrefix(FilesOf(base[l]), edits, n + 1, l);
      AddedOnceIsDistinct(FilesOf(base[l]), edits[..n + 1], l);
    }
    builder.Apply(e);
  }

  /** The save at the end. */
  method SaveAll(builder: Builder, ghost base: Version, ghost edits: seq<Edit>) returns (v: Version)
    requires |base| == NUM_LEVELS && AllAddedOnce(base, edits) && TakenIn(builder, base, edits, |edits|)
    ensures v == SavedOnce(base, edits)
  {
    assert edits[..|edits|] == edits;
    forall l | 0 <= l < NUM_LEVELS
      ensures DistinctNumbers(FilesOf(base[l]) + FilesOf(builder.added[l])) && FilesOf(base[l]) !! FilesOf(builder.added[l])
    {
      assert AddedOnce(FilesOf(base[l]), edits, l);
      AddedOnceIsDistinct(FilesOf(base[l]), edits, l);
    }
    v := builder.SaveTo();
    forall l | 0 <= l < NUM_LEVELS
      ensures v[l] == SavedOnce(base, edits)[l]
    {
      ListingIs(Outcome(FilesOf(base[l]), edits, l), v[l]);
    }
  }

  /** VersionSet::Recover's use of the builder: apply every record, save once.  The result is the
      version that saving after each edit gives. */
  method SaveOnce(base: Version, edits: seq<Edit>) returns (v: Version)
    requires |base| == NUM_LEVELS && forall l :: 0 <= l < NUM_LEVELS ==> SortedBySmallest(base[l])
    requires forall i {:trigger edits[i]} :: 0 <= i < |edits| ==> EditLevelsOk(edits[i])
    requires AllAddedOnce(base, edits)
    ensures v == SavedOnce(base, edits) == ApplyAll(base, edits)
  {
    var builder := new Builder(base);
    assert edits[..0] == [];
    for i := 0 to |edits|
      invariant fresh(builder) && TakenIn(builder, base, edits, i)
    {
      TakeInEdit(builder, base, edits, i, edits[i]);
    }
    v := SaveAll(builder, base, edits);
    SavedOnceIsApplyAll(base, edits);
  }

  // ---- The records of a MANIFEST ----

  lemma {:induction false} ReplayIsApplyAll(edits: seq<Edit>)
    ensures Replay(edits).v == ApplyAll(EMPTY_VERSION, edits)
  {
    if edits != [] {
      ReplayIsApplyAll(edits[..|edits| - 1]);
    }
  }

  /** What VersionSet::Recover makes of the records: one builder, one save, the last counters. */
  ghost function ManifestRead(edits: seq<Edit>): (m: ManifestState)
    ensures |m.v| == NUM_LEVELS
  {
    Replay(edits).(v := SavedOnce(EMPTY_VERSION, edits))
  }

  /** A file is only ever added to levels at or above the one it is on. */
  ghost predicate NeverAddedBelow(edits: seq<Edit>, v: Version) {
    forall l, f, m, g {:trigger At(v, l, f), g in AddedBy(edits, m)} ::
      At(v, l, f) && g in AddedBy(edits, m) && g.number == f.number ==> m <= l
  }

  ghost predicate NumberedBelow(edits: seq<Edit>, next: nat) {
    forall m, g {:trigger g in AddedBy(edits, m)} :: g in AddedBy(edits, m) ==> g.number < next
  }

  /** What holds of the records of every MANIFEST that is written. */
  ghost predicate Written(edits: seq<Edit>) {
    && (forall i {:trigger edits[i]} :: 0 <= i < |edits| ==> EditLevelsOk(edits[i]))
    && AllAddedOnce(EMPTY_VERSION, edits)
    && NumberedBelow(edits, Replay(edits).nextFile)
    && NeverAddedBelow(edits, Replay(edits).v)
  }

  /** Then reading it with one builder gives what saving after each record gives. */
  lemma ManifestReadIsReplay(edits: seq<Edit>)
    requires Written(edits)
    ensures ManifestRead(edits) == Replay(edits)
  {
    assert forall l :: 0 <= l < NUM_LEVELS ==> EMPTY_VERSION[l] == [];
    SavedOnceIsApplyAll(EMPTY_VERSION, edits);
    ReplayIsApplyAll(edits);
  }

  /** No record has added a file of this number. */
  ghost predicate Unrecorded(edits: seq<Edit>, n: nat) {
    forall m, g {:trigger g in AddedBy(edits, m)} :: g in AddedBy(edits, m) ==> g.number != n
  }

  /** The edit leads from v to v' behind the given records; the files it adds are new to the records,
      or come from a level above. */
  ghost predicate EditFits(v: Version, edits: seq<Edit>, e: Edit, v': Version) {
    && EditLevelsOk(e)
    && (forall p {:trigger p in e.added} :: p in e.added ==> At(v', p.0, p.1))
    && (forall l, f {:trigger At(v', l, f)} :: At(v', l, f) ==> At(v, l, f) || (l, f) in e.added)
    && (forall p {:trigger p in e.added} :: p in e.added ==> Unrecorded(edits, p.1.number) || FromAbove(v, p))
  }

  ghost predicate FromAbove(v: Version, p: (int, File)) {
    exists l :: l < p.0 && At(v, l, p.1)
  }

  lemma AddedByLast(edits: seq<Edit>, e: Edit, l: int)
    ensures AddedBy(edits + [e], l) == AddedBy(edits, l) + AddedAt(e.added, l)
  {
    assert (edits + [e])[..|edits|] == edits;
  }

  /** A number that is new, or whose file comes from above, has not been on the level yet. */
  lemma NotThereYet(edits: seq<Edit>, v: Version, e: Edit, v': Version, l: int, f: File, g: File)
    requires NeverAddedBelow(edits, v) && EditFits(v, edits, e, v')
    requires (l, f) in e.added && g in AddedBy(edits, l)
    ensures f.number != g.number
  {
    var p := (l, f);
    assert p in e.added;
    if !Unrecorded(edits, p.1.number) {
      var m :| m < p.0 && At(v, m, p.1);
    }
  }

  lemma OnceMore(edits: seq<Edit>, v: Version, e: Edit, v': Version, l: int)
    requires NeverAddedBelow(edits, v) && EditFits(v, edits, e, v') && WellFormed(v')
    requires AddedOnce({}, edits, l)
    ensures AddedOnce({}, edits + [e], l)
  {
    assert (edits + [e])[..|edits|] == edits;
    var last := AddedAt(e.added, l);
    forall f, g | f in last && g in last && f.number == g.number
      ensures f == g
    {
      assert (l, f) in e.added && (l, g) in e.added;
      assert PairOk(l, f, l, g);
    }
    forall n | n in NumbersOf(last) && n in NumbersOf({} + AddedBy(edits, l))
      ensures false
    {
      var f :| f in last && f.number == n;
      var g :| g in {} + AddedBy(edits, l) && g.number == n;
      NotThereYet(edits, v, e, v', l, f, g);
    }
  }

  lemma StillNotBelow(edits: seq<Edit>, v: Version, e: Edit, v': Version)
    requires NeverAddedBelow(edits, v) && EditFits(v, edits, e, v')
    requires WellFormed(v) && WellFormed(v')
    ensures NeverAddedBelow(edits + [e], v')
  {
    forall l, f, m, g {:trigger At(v', l, f), g in AddedBy(edits + [e], m)} |
      At(v', l, f) && g in AddedBy(edits + [e], m) && g.number == f.number
      ensures m <= l
    {
      AddedByLast(edits, e, m);
      if g in AddedAt(e.added, m) {
        assert (m, g) in e.added && At(v', m, g);
        assert PairOk(l, f, m, g);
      } else if (l, f) in e.added {
        var p := (l, f);
        if !Unrecorded(edits, p.1.number) {
          var k :| k < p.0 && At(v, k, p.1);
        }
      }
    }
  }

  lemma AllOnceMore(edits: seq<Edit>, v: Version, e: Edit, v': Version)
    requires NeverAddedBelow(edits, v) && EditFits(v, edits, e, v') && WellFormed(v')
    requires AllAddedOnce(EMPTY_VERSION, edits)
    ensures AllAddedOnce(EMPTY_VERSION, edits + [e])
  {
    forall l {:trigger AddedOnce(FilesOf(EMPTY_VERSION[l]), edits + [e], l)} | 0 <= l < NUM_LEVELS
      ensures AddedOnce(FilesOf(EMPTY_VERSION[l]), edits + [e], l)
    {
      assert EMPTY_VERSION[l] == [] && FilesOf(EMPTY_VERSION[l]) == {};
      assert AddedOnce(FilesOf(EMPTY_VERSION[l]), edits, l);
      OnceMore(edits, v, e, v', l);
    }
  }

  lemma StillNumberedBelow(edits: seq<Edit>, next: nat, e: Edit, v': Version, next': nat)
    requires NumberedBelow(edits, next) && next <= next' && forall l, f :: At(v', l, f) ==> f.number < next'
    requires forall p {:trigger p in e.added} :: p in e.added ==> At(v', p.0, p.1)
    ensures NumberedBelow(edits + [e], next')
  {
    forall m, g {:trigger g in AddedBy(edits + [e], m)} | g in AddedBy(edits + [e], m)
      ensures g.number < next'
    {
      AddedByLast(edits, e, m);
      if g in AddedAt(e.added, m) {
        assert (m, g) in e.added;
        assert At(v', m, g);
      }
    }
  }

  /** One more record that fits. */
  lemma RecordWritten(edits: seq<Edit>, e: Edit)
    requires Written(edits) && e.nextFile.Some? && Replay(edits).nextFile <= e.nextFile.value
    requires var ms, v' := Replay(edits), ApplyEdit(Replay(edits).v, e);
      && EditFits(ms.v, edits, e, v') && WellFormed(ms.v) && WellFormed(v')
      && (forall l, f :: At(v', l, f) ==> f.number < e.nextFile.value)
    ensures Written(edits + [e])
  {
    var ms, v' := Replay(edits), ApplyEdit(Replay(edits).v, e);
    AllOnceMore(edits, ms.v, e, v');
    StillNumberedBelow(edits, ms.nextFile, e, v', e.nextFile.value);
    StillNotBelow(edits, ms.v, e, v');
    assert (edits + [e])[..|edits|] == edits;
    assert Replay(edits + [e]).v == v' && Replay(edits + [e]).nextFile == e.nextFile.value;
  }

  /** Numbers not given out before the last record are new to the records. */
  lemma BeyondIsUnrecorded(edits: seq<Edit>, next: nat, n: nat)
    requires NumberedBelow(edits, next) && next <= n
    ensures Unrecorded(edits, n)
  {
  }

  lemma {:induction false} AddedOncePrefix(fs: set<File>, edits: seq<Edit>, n: nat, l: int)
    requires n <= |edits| && AddedOnce(fs, edits, l)
    ensures AddedOnce(fs, edits[..n], l)
    decreases |edits|
  {
    if n < |edits| {
      AddedOncePrefix(fs, edits[..|edits| - 1], n, l);
      assert edits[..|edits| - 1][..n] == edits[..n];
    } else {
      assert edits[..n] == edits;
    }
  }
}
