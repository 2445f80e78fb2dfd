/** Choosing compaction inputs (db/version_set.cc: PickLevelForMemTableOutput,
    GetOverlappingInputs, AddBoundaryInputs, SetupOtherInputs, PickCompaction, CompactRange). */
module InputSelection {
  import opened DbFormat
  import opened History
  import opened SortedRuns
  import opened Versions

  function MaxGrandParentOverlapBytes(maxFileSize: nat): nat {
    10 * maxFileSize
  }

  function ExpandedCompactionByteSizeLimit(maxFileSize: nat): nat {
    25 * maxFileSize
  }

  // ---- GetOverlappingInputs ----

  /** S contains every file meeting [lo, hi] and every file meeting one of its members. */
  ghost predicate ClosedUnder(S: set<File>, fs: seq<File>, lo: Option<UserKey>, hi: Option<UserKey>) {
    && (forall f :: f in fs && Overlaps(f, lo, hi) ==> f in S)
    && (forall f, g :: f in S && f in fs && g in fs && Touch(f, g) ==> g in S)
  }

  /** Two files share a point of the user-key space. */
  predicate Touch(f: File, g: File) {
    Overlaps(g, Some(f.smallest.user), Some(f.largest.user))
  }

  ghost function StartsBelow(fs: seq<File>, lo: Option<UserKey>): set<File> {
    set f | f in fs && lo.Some? && f.smallest.user < lo.value
  }

  ghost function EndsAbove(fs: seq<File>, hi: Option<UserKey>): set<File> {
    set f | f in fs && hi.Some? && f.largest.user > hi.value
  }

  predicate Within(f: File, lo: Option<UserKey>, hi: Option<UserKey>) {
    && (lo.Some? ==> lo.value <= f.smallest.user)
    && (hi.Some? ==> f.largest.user <= hi.value)
  }

  /** Every closed set of files contains what meets [lo, hi]. */
  ghost predicate Forced(fs: seq<File>, begin: Option<UserKey>, end: Option<UserKey>,
                         lo: Option<UserKey>, hi: Option<UserKey>) {
    forall S, f :: ClosedUnder(S, fs, begin, end) && f in fs && Overlaps(f, lo, hi) ==> f in S
  }

  /** Widening the range by a file that meets it forces nothing outside closed sets. */
  lemma ForcedWidens(fs: seq<File>, begin: Option<UserKey>, end: Option<UserKey>,
                     lo: Option<UserKey>, hi: Option<UserKey>, f: File, lo': Option<UserKey>, hi': Option<UserKey>)
    requires ValidFiles(fs) && Forced(fs, begin, end, lo, hi)
    requires f in fs && Overlaps(f, lo, hi)
    requires lo' == lo || (lo.Some? && lo' == Some(f.smallest.user))
    requires hi' == hi || (hi.Some? && hi' == Some(f.largest.user))
    ensures Forced(fs, begin, end, lo', hi')
  {
    forall S, g | ClosedUnder(S, fs, begin, end) && g in fs && Overlaps(g, lo', hi')
      ensures g in S
    {
      BoundsOrdered(f);
      BoundsOrdered(g);
      assert f in S;
      assert Overlaps(g, lo, hi) || Touch(f, g);
    }
  }

  /** What the search returns: exactly the files meeting some final range, in order.  On sorted
      levels the range is the given one; on level 0 it has grown until no chosen file sticks out. */
  ghost predicate OverlapResult(level0: bool, fs: seq<File>, begin: Option<UserKey>, end: Option<UserKey>,
                                inputs: seq<File>, lo: Option<UserKey>, hi: Option<UserKey>) {
    OverlapResultOf(level0, fs, begin, end, fs, inputs, lo, hi)
  }

  /** The search has looked at the first i files with the range it has now. */
  ghost predicate Searching(level0: bool, fs: seq<File>, begin: Option<UserKey>, end: Option<UserKey>,
                            inputs: seq<File>, lo: Option<UserKey>, hi: Option<UserKey>, i: nat) {
    i <= |fs| && OverlapResultOf(level0, fs, begin, end, fs[..i], inputs, lo, hi)
  }

  ghost predicate OverlapResultOf(level0: bool, fs: seq<File>, begin: Option<UserKey>, end: Option<UserKey>, seen: seq<File>,
                                  inputs: seq<File>, lo: Option<UserKey>, hi: Option<UserKey>) {
    && inputs == Overlapping(seen, lo, hi)
    && (!level0 ==> lo == begin && hi == end)
    && (level0 ==> (forall f :: f in inputs ==> Within(f, lo, hi)) && Forced(fs, begin, end, lo, hi))
    && lo.Some? == begin.Some? && hi.Some? == end.Some?
    && (lo.Some? ==> lo.value <= begin.value)
    && (hi.Some? ==> hi.value >= end.value)
  }

  lemma OverlappingNext(fs: seq<File>, i: nat, lo: Option<UserKey>, hi: Option<UserKey>)
    requires i < |fs|
    ensures Overlapping(fs[..i + 1], lo, hi) == Overlapping(fs[..i], lo, hi) + if Overlaps(fs[i], lo, hi) then [fs[i]] else []
  {
    assert fs[..i + 1][..i] == fs[..i];
  }

  /** A level-0 file sticks out below: the range grows, and fewer files start below it. */
  lemma GrowsDown(fs: seq<File>, begin: Option<UserKey>, end: Option<UserKey>, lo: Option<UserKey>, hi: Option<UserKey>, f: File)
    requires ValidFiles(fs) && f in fs && Forced(fs, begin, end, lo, hi)
    requires lo.Some? && f.smallest.user < lo.value && f.largest.user >= lo.value && (hi.Some? ==> f.smallest.user <= hi.value)
    ensures Forced(fs, begin, end, Some(f.smallest.user), hi)
    ensures StartsBelow(fs, Some(f.smallest.user)) < StartsBelow(fs, lo)
  {
    ForcedWidens(fs, begin, end, lo, hi, f, Some(f.smallest.user), hi);
    assert f in StartsBelow(fs, lo) && f !in StartsBelow(fs, Some(f.smallest.user));
  }

  lemma GrowsUp(fs: seq<File>, begin: Option<UserKey>, end: Option<UserKey>, lo: Option<UserKey>, hi: Option<UserKey>, f: File)
    requires ValidFiles(fs) && f in fs && Forced(fs, begin, end, lo, hi)
    requires hi.Some? && f.largest.user > hi.value && f.smallest.user <= hi.value && (lo.Some? ==> f.largest.user >= lo.value)
    ensures Forced(fs, begin, end, lo, Some(f.largest.user))
    ensures EndsAbove(fs, Some(f.largest.user)) < EndsAbove(fs, hi)
  {
    ForcedWidens(fs, begin, end, lo, hi, f, lo, Some(f.largest.user));
    assert f in EndsAbove(fs, hi) && f !in EndsAbove(fs, Some(f.largest.user));
  }

  /** One turn of the search: the next file is passed over or chosen, or the search starts again. */
  method ConsiderFile(level0: bool, fs: seq<File>, ghost begin: Option<UserKey>, ghost end: Option<UserKey>,
                      inputs: seq<File>, lo: Option<UserKey>, hi: Option<UserKey>, i: nat)
    returns (inputs': seq<File>, lo': Option<UserKey>, hi': Option<UserKey>, i': nat)
    requires ValidFiles(fs) && i < |fs| && Searching(level0, fs, begin, end, inputs, lo, hi, i)
    ensures Searching(level0, fs, begin, end, inputs', lo', hi', i')
    ensures || StartsBelow(fs, lo') < StartsBelow(fs, lo)
            || (lo' == lo && EndsAbove(fs, hi') < EndsAbove(fs, hi))
            || (lo' == lo && hi' == hi && i' == i + 1)
  {
    var f := fs[i];
    assert f in fs;
    BoundsOrdered(f);
    OverlappingNext(fs, i, lo, hi);
    inputs', lo', hi', i' := inputs, lo, hi, i + 1;
    if lo.Some? && f.largest.user < lo.value {
    } else if hi.Some? && f.smallest.user > hi.value {
    } else {
      inputs' := inputs' + [f];
      if level0 {
        if lo.Some? && f.smallest.user < lo.value {
          GrowsDown(fs, begin, end, lo, hi, f);
          lo', inputs', i' := Some(f.smallest.user), [], 0;
        } else if hi.Some? && f.largest.user > hi.value {
          GrowsUp(fs, begin, end, lo, hi, f);
          hi', inputs', i' := Some(f.largest.user), [], 0;
        }
      }
    }
  }

  /** Version::GetOverlappingInputs, with its restarts on level 0. */
  method GetOverlappingInputs(level0: bool, fs: seq<File>, begin: Option<UserKey>, end: Option<UserKey>)
    returns (inputs: seq<File>, lo: Option<UserKey>, hi: Option<UserKey>)
    requires ValidFiles(fs)
    ensures OverlapResult(level0, fs, begin, end, inputs, lo, hi)
  {
    inputs, lo, hi := [], begin, end;
    var i: nat := 0;
    while i < |fs|
      invariant Searching(level0, fs, begin, end, inputs, lo, hi, i)
      decreases StartsBelow(fs, lo), EndsAbove(fs, hi), |fs| - i
    {
      inputs, lo, hi, i := ConsiderFile(level0, fs, begin, end, inputs, lo, hi, i);
    }
    assert fs[..|fs|] == fs;
  }

  ghost predicate NoRepeats(fs: seq<File>) {
    forall i, j :: 0 <= i < j < |fs| ==> fs[i] != fs[j]
  }

  lemma {:induction false} OverlappingNoRepeats(fs: seq<File>, lo: Option<UserKey>, hi: Option<UserKey>)
    requires NoRepeats(fs)
    ensures NoRepeats(Overlapping(fs, lo, hi))
  {
    if fs != [] {
      OverlappingNoRepeats(fs[..|fs| - 1], lo, hi);
      assert fs[|fs| - 1] !in fs[..|fs| - 1];
      assert fs[|fs| - 1] !in Overlapping(fs[..|fs| - 1], lo, hi);
    }
  }

  lemma LevelNoRepeats(v: Version, level: nat)
    requires WellFormed(v) && level < NUM_LEVELS
    ensures NoRepeats(v[level])
  {
    assert SortedBySmallest(v[level]);
  }

  /** On level 0 the result is the least set of files closed under user-key overlap. */
  lemma Level0InputsAreLeastClosed(fs: seq<File>, begin: Option<UserKey>, end: Option<UserKey>,
                                   inputs: seq<File>, lo: Option<UserKey>, hi: Option<UserKey>)
    requires ValidFiles(fs)
    requires OverlapResult(true, fs, begin, end, inputs, lo, hi)
    ensures ClosedUnder((set f | f in inputs), fs, begin, end)
    ensures forall S :: ClosedUnder(S, fs, begin, end) ==> forall f :: f in inputs ==> f in S
  {
    forall f, g | f in inputs && g in fs && Touch(f, g)
      ensures g in inputs
    {
      BoundsOrdered(f);
      BoundsOrdered(g);
      assert Within(f, lo, hi);
    }
  }

  /** The search finds something exactly when some file meets the given range. */
  lemma EmptyIffNoOverlap(level0: bool, fs: seq<File>, begin: Option<UserKey>, end: Option<UserKey>,
                          inputs: seq<File>, lo: Option<UserKey>, hi: Option<UserKey>)
    requires OverlapResult(level0, fs, begin, end, inputs, lo, hi)
    ensures inputs == [] <==> !SomeOverlap(fs, begin, end)
  {
    if inputs != [] {
      assert inputs[0] in inputs;
      if !SomeOverlap(fs, begin, end) {
        assert ClosedUnder({}, fs, begin, end);
      }
    } else {
      assert forall f :: f in fs ==> f !in inputs;
    }
  }

  // ---- AddBoundaryInputs ----

  /** GetRange / FindLargestKey: the extreme keys of a non-empty list of files. */
  method GetRange(fs: seq<File>) returns (smallest: InternalKey, largest: InternalKey)
    requires fs != []
    ensures exists f :: f in fs && smallest == f.smallest
    ensures exists f :: f in fs && largest == f.largest
    ensures forall f :: f in fs ==> !Less(f.smallest, smallest) && !Less(largest, f.largest)
  {
    smallest, largest := fs[0].smallest, fs[0].largest;
    for i := 1 to |fs|
      invariant exists f :: f in fs && smallest == f.smallest
      invariant exists f :: f in fs && largest == f.largest
      invariant forall j :: 0 <= j < i ==> !Less(fs[j].smallest, smallest) && !Less(largest, fs[j].largest)
    {
      if Less(fs[i].smallest, smallest) {
        smallest := fs[i].smallest;
      }
      if Less(largest, fs[i].largest) {
        largest := fs[i].largest;
      }
    }
  }

  /** f starts after key, inside key's user key. */
  predicate StartsInside(f: File, key: InternalKey) {
    Less(key, f.smallest) && f.smallest.user == key.user
  }

  /** FindSmallestBoundaryFile. */
  method FindSmallestBoundaryFile(fs: seq<File>, key: InternalKey) returns (r: Option<File>)
    ensures r.None? ==> forall f :: f in fs ==> !StartsInside(f, key)
    ensures r.Some? ==> r.value in fs && StartsInside(r.value, key)
    ensures r.Some? ==> forall f :: f in fs && StartsInside(f, key) ==> !Less(f.smallest, r.value.smallest)
  {
    r := None;
    for i := 0 to |fs|
      invariant r.None? ==> forall j :: 0 <= j < i ==> !StartsInside(fs[j], key)
      invariant r.Some? ==> r.value in fs && StartsInside(r.value, key)
      invariant r.Some? ==> forall j :: 0 <= j < i && StartsInside(fs[j], key) ==> !Less(fs[j].smallest, r.value.smallest)
    {
      var f := fs[i];
      if Less(key, f.smallest) && f.smallest.user == key.user {
        if r.None? || Less(f.smallest, r.value.smallest) {
          r := Some(f);
        }
      }
    }
  }

  /** f is a boundary file for key with the least start. */
  ghost predicate Link(fs: seq<File>, key: InternalKey, f: File) {
    f in fs && StartsInside(f, key) && forall g :: g in fs && StartsInside(g, key) ==> !Less(g.smallest, f.smallest)
  }

  /** A complete chain of boundary files: each one continues the user key its predecessor (at
      first: key) ends with, and nothing continues the last. */
  ghost predicate BoundaryChain(fs: seq<File>, key: InternalKey, added: seq<File>)
    decreases |added|
  {
    if added == [] then forall f :: f in fs ==> !StartsInside(f, key)
    else Link(fs, key, added[0]) && BoundaryChain(fs, added[0].largest, added[1..])
  }

  ghost function StartsAfter(fs: seq<File>, key: InternalKey): set<File> {
    set f | f in fs && Less(key, f.smallest)
  }

  predicate BoundsOk(f: File) {
    f.smallest.user <= f.largest.user && !Less(f.largest, f.smallest)
  }

  lemma FilesBounded(fs: seq<File>)
    requires ValidFiles(fs)
    ensures forall f :: f in fs ==> BoundsOk(f)
  {
    forall f | f in fs
      ensures BoundsOk(f)
    {
      BoundsOrdered(f);
    }
  }

  /** The loop of AddBoundaryInputs from a given largest key. */
  method ExtendBoundary(fs: seq<File>, key: InternalKey) returns (added: seq<File>)
    requires forall f :: f in fs ==> BoundsOk(f)
    ensures BoundaryChain(fs, key, added)
  {
    added := [];
    var largest := key;
    var searching := true;
    assert forall rest: seq<File> :: added + rest == rest;
    while searching
      invariant forall rest :: BoundaryChain(fs, largest, rest) ==> BoundaryChain(fs, key, added + rest)
      invariant !searching ==> BoundaryChain(fs, largest, [])
      decreases StartsAfter(fs, largest), searching
    {
      var b := FindSmallestBoundaryFile(fs, largest);
      if b.Some? {
        assert b.value in StartsAfter(fs, largest) && b.value !in StartsAfter(fs, b.value.largest);
        ghost var before := added;
        forall rest | BoundaryChain(fs, b.value.largest, rest)
          ensures BoundaryChain(fs, key, before + [b.value] + rest)
        {
          assert ([b.value] + rest)[1..] == rest;
          assert BoundaryChain(fs, largest, [b.value] + rest);
          assert before + [b.value] + rest == before + ([b.value] + rest);
        }
        added := added + [b.value];
        largest := b.value.largest;
      } else {
        searching := false;
      }
    }
    assert added + [] == added;
  }

  lemma {:induction false} ChainInLevel(fs: seq<File>, key: InternalKey, added: seq<File>)
    requires BoundaryChain(fs, key, added)
    ensures forall f :: f in added ==> f in fs
    decreases |added|
  {
    if added != [] {
      ChainInLevel(fs, added[0].largest, added[1..]);
    }
  }

  lemma {:induction false} ChainNoRepeats(fs: seq<File>, key: InternalKey, added: seq<File>)
    requires BoundaryChain(fs, key, added) && forall f :: f in fs ==> BoundsOk(f)
    ensures NoRepeats(added) && forall f :: f in added ==> Less(key, f.smallest)
    decreases |added|
  {
    if added != [] {
      ChainNoRepeats(fs, added[0].largest, added[1..]);
      assert added == [added[0]] + added[1..] && BoundsOk(added[0]);
      assert added[0] !in added[1..];
    }
  }

  lemma ExtensionNoRepeats(fs: seq<File>, chosen: seq<File>, key: InternalKey, added: seq<File>)
    requires forall f :: f in fs ==> BoundsOk(f)
    requires forall f :: f in chosen ==> f in fs
    requires NoRepeats(chosen) && LargestOf(chosen, key) && BoundaryChain(fs, key, added)
    ensures NoRepeats(chosen + added)
  {
    ChainNoRepeats(fs, key, added);
    forall i, j | 0 <= i < |chosen| && 0 <= j < |added|
      ensures chosen[i] != added[j]
    {
      assert chosen[i] in chosen && added[j] in added;
    }
  }

  /** key is the largest key of the non-empty list. */
  ghost predicate LargestOf(fs: seq<File>, key: InternalKey) {
    (exists f :: f in fs && key == f.largest) && forall f :: f in fs ==> !Less(key, f.largest)
  }

  /** A level above 0: valid files, pairwise apart. */
  ghost predicate ApartFiles(fs: seq<File>) {
    && (forall f :: f in fs ==> BoundsOk(f))
    && (forall f, g :: f in fs && g in fs && f != g ==> FilesApart(f, g))
  }

  /** Every file between two chosen ones is chosen. */
  ghost predicate Convex(fs: seq<File>, chosen: seq<File>) {
    && (forall f :: f in chosen ==> f in fs)
    && (forall f, g, h :: f in chosen && g in fs && h in chosen && Less(f.largest, g.smallest) && Less(g.largest, h.smallest)
          ==> g in chosen)
  }

  /** No file left behind holds an older entry of a user key the selection holds. */
  ghost predicate ClosedSelection(fs: seq<File>, chosen: seq<File>) {
    forall f, g :: f in chosen && g in fs && g !in chosen ==> Above(TableSet(g), TableSet(f))
  }

  /** The boundary file with the least start comes right after the selection. */
  lemma LinkKeepsConvex(fs: seq<File>, chosen: seq<File>, key: InternalKey, b: File)
    requires ApartFiles(fs) && Convex(fs, chosen) && LargestOf(chosen, key) && Link(fs, key, b)
    ensures Convex(fs, chosen + [b]) && LargestOf(chosen + [b], b.largest)
  {
    var m :| m in chosen && m.largest == key;
    forall f, g, h | f in chosen + [b] && g in fs && h in chosen + [b] && Less(f.largest, g.smallest) && Less(g.largest, h.smallest)
      ensures g in chosen + [b]
    {
      assert BoundsOk(f) && BoundsOk(g) && BoundsOk(h) && BoundsOk(m);
      assert f in chosen ==> !Less(key, f.largest);
      assert h in chosen ==> !Less(key, h.largest);
      assert g != m ==> FilesApart(g, m);
      assert StartsInside(g, key) ==> !Less(g.smallest, b.smallest);
    }
    assert b in chosen + [b];
  }

  lemma Rechain(chosen: seq<File>, added: seq<File>)
    requires added != []
    ensures chosen + [added[0]] + added[1..] == chosen + added
  {
  }

  /** A complete boundary chain extends a convex selection to one no file continues. */
  lemma {:induction false} ChainKeepsConvex(fs: seq<File>, chosen: seq<File>, key: InternalKey, added: seq<File>)
    requires ApartFiles(fs) && Convex(fs, chosen) && LargestOf(chosen, key) && BoundaryChain(fs, key, added)
    ensures Convex(fs, chosen + added)
    ensures exists last :: LargestOf(chosen + added, last) && forall f :: f in fs ==> !StartsInside(f, last)
    decreases |added|
  {
    if added == [] {
      assert chosen + added == chosen;
      assert LargestOf(chosen + added, key);
    } else {
      Rechain(chosen, added);
      LinkKeepsConvex(fs, chosen, key, added[0]);
      ChainKeepsConvex(fs, chosen + [added[0]], added[0].largest, added[1..]);
    }
  }

  /** A convex selection whose last user key no file continues leaves no older entry of a
      selected user key behind. */
  lemma EndedIsClosed(fs: seq<File>, chosen: seq<File>, last: InternalKey)
    requires ValidFiles(fs) && ApartFiles(fs) && Consistent(Contents(fs))
    requires Convex(fs, chosen) && LargestOf(chosen, last) && forall f :: f in fs ==> !StartsInside(f, last)
    ensures ClosedSelection(fs, chosen)
  {
    var m :| m in chosen && m.largest == last;
    forall f, g | f in chosen && g in fs && g !in chosen
      ensures Above(TableSet(g), TableSet(f))
    {
      assert BoundsOk(f) && BoundsOk(g) && BoundsOk(m) && FilesApart(f, g) && FilesApart(g, m);
      if Less(g.largest, f.smallest) {
        PairConsistent(fs, g, f);
        LaterFilesOlder(g, f);
      } else {
        assert Less(last, g.smallest) && !StartsInside(g, last) && !Less(last, f.largest);
        UserApartIsAbove(g, f);
      }
    }
  }

  /** Files without a common user key are trivially in order. */
  lemma UserApartIsAbove(f: File, g: File)
    requires ValidFile(f) && ValidFile(g) && !Touch(f, g)
    ensures Above(TableSet(f), TableSet(g))
  {
    forall a, b | a in TableSet(f) && b in TableSet(g)
      ensures a.user != b.user
    {
      InBounds(f, a);
      InBounds(g, b);
    }
  }

  /** AddBoundaryInputs.  A convex selection of a sorted level grows to the first user-key
      boundary; a selection no outside file touches stays as it is. */
  method AddBoundaryInputs(fs: seq<File>, chosen: seq<File>) returns (r: seq<File>)
    requires ValidFiles(fs) && forall f :: f in chosen ==> f in fs
    ensures chosen == [] ==> r == []
    ensures chosen <= r && (forall f :: f in r ==> f in fs) && (chosen != [] ==> Extended(fs, chosen, r))
    ensures chosen != [] && ApartFiles(fs) && Consistent(Contents(fs)) && Convex(fs, chosen) ==> ClosedSelection(fs, r)
    ensures Untouched(fs, chosen) ==> r == chosen
    ensures NoRepeats(chosen) ==> NoRepeats(r)
  {
    if chosen == [] {
      return [];
    }
    FilesBounded(fs);
    var smallest, largest := GetRange(chosen);
    var added := ExtendBoundary(fs, largest);
    ChainInLevel(fs, largest, added);
    r := chosen + added;
    ExtensionMeans(fs, chosen, largest, added);
    assert Extended(fs, chosen, r);
  }

  lemma ExtensionMeans(fs: seq<File>, chosen: seq<File>, key: InternalKey, added: seq<File>)
    requires ValidFiles(fs) && (forall f :: f in fs ==> BoundsOk(f)) && forall f :: f in chosen ==> f in fs
    requires LargestOf(chosen, key) && BoundaryChain(fs, key, added)
    ensures ApartFiles(fs) && Consistent(Contents(fs)) && Convex(fs, chosen) ==> ClosedSelection(fs, chosen + added)
    ensures Untouched(fs, chosen) ==> added == []
    ensures NoRepeats(chosen) ==> NoRepeats(chosen + added)
  {
    if ApartFiles(fs) && Consistent(Contents(fs)) && Convex(fs, chosen) {
      ClosedByBoundary(fs, chosen, key, added);
    }
    if NoRepeats(chosen) {
      ExtensionNoRepeats(fs, chosen, key, added);
    }
    if Untouched(fs, chosen) && added != [] {
      UntouchedHasNoBoundary(fs, chosen, key, added[0]);
    }
  }

  lemma ClosedByBoundary(fs: seq<File>, chosen: seq<File>, key: InternalKey, added: seq<File>)
    requires ValidFiles(fs) && ApartFiles(fs) && Consistent(Contents(fs))
    requires Convex(fs, chosen) && LargestOf(chosen, key) && BoundaryChain(fs, key, added)
    ensures ClosedSelection(fs, chosen + added)
  {
    ChainKeepsConvex(fs, chosen, key, added);
    var last :| LargestOf(chosen + added, last) && forall f :: f in fs ==> !StartsInside(f, last);
    EndedIsClosed(fs, chosen + added, last);
  }

  /** No file outside the selection shares a point of the user-key space with one inside. */
  ghost predicate Untouched(fs: seq<File>, chosen: seq<File>) {
    forall f, g :: f in chosen && g in fs && g !in chosen ==> !Touch(f, g)
  }

  lemma UntouchedHasNoBoundary(fs: seq<File>, chosen: seq<File>, key: InternalKey, b: File)
    requires forall f :: f in fs ==> BoundsOk(f)
    requires forall f :: f in chosen ==> f in fs
    requires Untouched(fs, chosen) && LargestOf(chosen, key)
    ensures !Link(fs, key, b)
  {
    var f :| f in chosen && key == f.largest;
    assert b in fs && b !in chosen ==> !Touch(f, b);
  }

  /** [lo, hi] is the user-key range of the files. */
  ghost predicate Hull(fs: seq<File>, lo: UserKey, hi: UserKey) {
    && (exists f :: f in fs && f.smallest.user == lo)
    && (exists f :: f in fs && f.largest.user == hi)
    && forall f :: f in fs ==> Within(f, Some(lo), Some(hi))
  }

  // ---- Selections without gaps ----

  predicate Covers(f: File, k: UserKey) {
    f.smallest.user <= k <= f.largest.user
  }

  ghost predicate CoveredAt(fs: seq<File>, u: UserKey) {
    exists h :: h in fs && Covers(h, u)
  }

  /** Every user key between two of the files is in the range of one of them. */
  ghost predicate NoGap(fs: seq<File>) {
    forall u, f, g {:trigger CoveredAt(fs, u), f in fs, g in fs} ::
      f in fs && g in fs && f.smallest.user <= u <= g.largest.user ==> CoveredAt(fs, u)
  }

  lemma NoGapBetween(fs: seq<File>, u: UserKey, f: File, g: File)
    requires NoGap(fs) && f in fs && g in fs && f.smallest.user <= u <= g.largest.user
    ensures CoveredAt(fs, u)
  {
  }

  lemma CoveredInMore(fs: seq<File>, gs: seq<File>, u: UserKey)
    requires CoveredAt(fs, u) && forall f :: f in fs ==> f in gs
    ensures CoveredAt(gs, u)
  {
  }

  lemma SameFilesNoGap(fs: seq<File>, gs: seq<File>)
    requires NoGap(fs) && forall f :: f in fs <==> f in gs
    ensures NoGap(gs)
  {
    forall u, f, g | f in gs && g in gs && f.smallest.user <= u <= g.largest.user
      ensures CoveredAt(gs, u)
    {
      NoGapBetween(fs, u, f, g);
      CoveredInMore(fs, gs, u);
    }
  }

  /** A file that shares a covered user key reaches down to one of fs. */
  lemma ReachesDown(fs: seq<File>, f: File, u: UserKey) returns (h: File)
    requires f in fs || exists p :: Covers(f, p) && CoveredAt(fs, p)
    requires f.smallest.user <= u && !Covers(f, u)
    ensures h in fs && h.smallest.user <= u
  {
    if f in fs {
      h := f;
    } else {
      var p :| Covers(f, p) && CoveredAt(fs, p);
      h :| h in fs && Covers(h, p);
    }
  }

  lemma ReachesUp(fs: seq<File>, g: File, u: UserKey) returns (h: File)
    requires g in fs || exists p :: Covers(g, p) && CoveredAt(fs, p)
    requires u <= g.largest.user && !Covers(g, u)
    ensures h in fs && u <= h.largest.user
  {
    if g in fs {
      h := g;
    } else {
      var p :| Covers(g, p) && CoveredAt(fs, p);
      h :| h in fs && Covers(h, p);
    }
  }

  /** Files that share a user key with a selection without gaps leave no gap. */
  lemma AttachFiles(fs: seq<File>, more: seq<File>)
    requires NoGap(fs) && forall f :: f in more ==> exists p :: Covers(f, p) && CoveredAt(fs, p)
    ensures NoGap(fs + more)
  {
    var all := fs + more;
    forall u, f, g | f in all && g in all && f.smallest.user <= u <= g.largest.user
      ensures CoveredAt(all, u)
    {
      if !Covers(f, u) && !Covers(g, u) {
        var f' := ReachesDown(fs, f, u);
        var g' := ReachesUp(fs, g, u);
        NoGapBetween(fs, u, f', g');
        CoveredInMore(fs, all, u);
      }
    }
  }

  /** Boundary files leave no gap. */
  lemma {:induction false} ChainNoGap(fs: seq<File>, chosen: seq<File>, key: InternalKey, added: seq<File>)
    requires forall f :: f in fs ==> BoundsOk(f)
    requires NoGap(chosen) && CoveredAt(chosen, key.user) && BoundaryChain(fs, key, added)
    ensures NoGap(chosen + added)
    decreases |added|
  {
    if added == [] {
      assert chosen + added == chosen;
    } else {
      var b := added[0];
      assert BoundsOk(b) && Covers(b, key.user) && Covers(b, b.largest.user);
      AttachFiles(chosen, [b]);
      assert b in chosen + [b];
      ChainNoGap(fs, chosen + [b], b.largest, added[1..]);
      Rechain(chosen, added);
    }
  }

  /** r is the selection with a complete chain of boundary files. */
  ghost predicate Extended(fs: seq<File>, chosen: seq<File>, r: seq<File>) {
    exists key, added :: LargestOf(chosen, key) && BoundaryChain(fs, key, added) && r == chosen + added
  }

  lemma ExtendedNoGap(fs: seq<File>, chosen: seq<File>, r: seq<File>, others: seq<File>)
    requires (forall f :: f in fs ==> BoundsOk(f)) && (forall f :: f in chosen ==> f in fs)
    requires Extended(fs, chosen, r) && NoGap(chosen + others)
    ensures NoGap(r + others)
  {
    var key, added :| LargestOf(chosen, key) && BoundaryChain(fs, key, added) && r == chosen + added;
    var m :| m in chosen && key == m.largest;
    assert m in chosen + others && BoundsOk(m) && Covers(m, key.user);
    ChainNoGap(fs, chosen + others, key, added);
    SameFilesNoGap(chosen + others + added, r + others);
  }

  /** Every file of the result shares a user key with the range asked for. */
  lemma RangeNoGap(fs: seq<File>, base: seq<File>, lo: UserKey, hi: UserKey, r: seq<File>)
    requires ValidFiles(fs) && NoGap(base) && Hull(base, lo, hi) && lo <= hi && r == Overlapping(fs, Some(lo), Some(hi))
    ensures NoGap(base + r)
  {
    forall f | f in r
      ensures exists p :: Covers(f, p) && CoveredAt(base, p)
    {
      BoundsOrdered(f);
      var p := if f.smallest.user < lo then lo else f.smallest.user;
      var a, b :| a in base && a.smallest.user == lo && b in base && b.largest.user == hi;
      NoGapBetween(base, p, a, b);
      assert Covers(f, p);
    }
    AttachFiles(base, r);
  }

  /** The files on one side of a user key that nothing covers are closed under overlap. */
  lemma SideIsClosed(fs: seq<File>, lo: UserKey, hi: UserKey, r: seq<File>, u: UserKey, above: bool)
    requires ValidFiles(fs) && ClosedUnder((set f | f in r), fs, Some(lo), Some(hi)) && !CoveredAt(r, u) && lo <= hi
    requires if above then u < lo else hi < u
    ensures ClosedUnder((set f | f in r && (if above then u < f.smallest.user else f.largest.user < u)), fs, Some(lo), Some(hi))
  {
    var S := set f | f in r && (if above then u < f.smallest.user else f.largest.user < u);
    forall f | f in fs && Overlaps(f, Some(lo), Some(hi))
      ensures f in S
    {
      assert f in (set f | f in r) && !Covers(f, u);
    }
    forall f, g | f in S && f in fs && g in fs && Touch(f, g)
      ensures g in S
    {
      assert f in (set f | f in r) && g in (set f | f in r) && !Covers(g, u);
      BoundsOrdered(f);
      BoundsOrdered(g);
    }
  }

  /** The restarts on level 0 leave no gap either. */
  lemma Level0NoGap(fs: seq<File>, base: seq<File>, begin: UserKey, end: UserKey, r: seq<File>, lo: Option<UserKey>, hi: Option<UserKey>)
    requires ValidFiles(fs) && NoGap(base) && Hull(base, begin, end) && begin <= end
    requires OverlapResult(true, fs, Some(begin), Some(end), r, lo, hi)
    ensures NoGap(base + r)
  {
    var all := base + r;
    Level0InputsAreLeastClosed(fs, Some(begin), Some(end), r, lo, hi);
    var a, b :| a in base && a.smallest.user == begin && b in base && b.largest.user == end;
    forall u, f, g | f in all && g in all && f.smallest.user <= u <= g.largest.user
      ensures CoveredAt(all, u)
    {
      if begin <= u <= end {
        NoGapBetween(base, u, a, b);
        CoveredInMore(base, all, u);
      } else if CoveredAt(r, u) {
        CoveredInMore(r, all, u);
      } else {
        SideIsClosed(fs, begin, end, r, u, u < begin);
        assert false;
      }
    }
  }

  // ---- SetupOtherInputs, PickCompaction, CompactRange ----

  /** What every compaction runs on: level files that leave nothing older behind, and all the
      files of the next level that meet their range. */
  ghost predicate GoodInputs(v: Version, level: nat, in0: seq<File>, in1: seq<File>) {
    && level + 1 < |v|
    && in0 != []
    && (forall f :: f in in0 ==> f in v[level])
    && ClosedSelection(v[level], in0)
    && NoRepeats(in0) && NoRepeats(in1)
    && exists lo, hi :: Hull(in0, lo, hi) && forall f :: f in in1 <==> f in v[level + 1] && Overlaps(f, Some(lo), Some(hi))
  }

  /** The files SetupOtherInputs may start from. */
  ghost predicate GoodStart(v: Version, level: nat, start: seq<File>) {
    && level + 1 < |v|
    && start != [] && NoRepeats(start)
    && (forall f :: f in start ==> f in v[level])
    && (level == 0 ==> Untouched(v[level], start))
    && (level > 0 ==> Convex(v[level], start))
  }

  lemma RangeIsHull(fs: seq<File>, smallest: InternalKey, largest: InternalKey)
    requires forall f :: f in fs ==> BoundsOk(f)
    requires exists f :: f in fs && smallest == f.smallest
    requires exists f :: f in fs && largest == f.largest
    requires forall f :: f in fs ==> !Less(f.smallest, smallest) && !Less(largest, f.largest)
    ensures Hull(fs, smallest.user, largest.user) && smallest.user <= largest.user
  {
  }

  /** On a sorted level the files meeting a range are convex. */
  lemma OverlappingIsConvex(fs: seq<File>, lo: Option<UserKey>, hi: Option<UserKey>)
    requires ApartFiles(fs)
    ensures Convex(fs, Overlapping(fs, lo, hi))
  {
  }

  lemma {:induction false} OverlappingIsSorted(fs: seq<File>, lo: Option<UserKey>, hi: Option<UserKey>)
    requires DisjointSorted(fs)
    ensures DisjointSorted(Overlapping(fs, lo, hi))
  {
    if fs != [] {
      var n := |fs| - 1;
      OverlappingIsSorted(fs[..n], lo, hi);
      forall f | f in Overlapping(fs[..n], lo, hi)
        ensures Less(f.largest, fs[n].smallest)
      {
        var t :| 0 <= t < n && fs[t] == f;
      }
    }
  }

  lemma LevelApart(v: Version, level: nat)
    requires WellFormed(v) && 0 < level < NUM_LEVELS
    ensures ValidFiles(v[level]) && ApartFiles(v[level])
  {
    LevelFilesValid(v, level);
    FilesBounded(v[level]);
    forall f, g | f in v[level] && g in v[level] && f != g
      ensures FilesApart(f, g)
    {
      assert At(v, level, f) && At(v, level, g) && PairOk(level, f, level, g);
    }
  }

  /** Any non-empty result of GetOverlappingInputs is a legal start. */
  lemma OverlapResultIsStart(v: Version, level: nat, begin: Option<UserKey>, end: Option<UserKey>,
                             inputs: seq<File>, lo: Option<UserKey>, hi: Option<UserKey>)
    requires WellFormed(v) && level + 1 < NUM_LEVELS
    requires OverlapResult(level == 0, v[level], begin, end, inputs, lo, hi) && inputs != []
    ensures GoodStart(v, level, inputs)
  {
    LevelFilesValid(v, level);
    LevelNoRepeats(v, level);
    OverlappingNoRepeats(v[level], lo, hi);
    if level == 0 {
      Level0InputsAreLeastClosed(v[0], begin, end, inputs, lo, hi);
    } else {
      LevelApart(v, level);
      OverlappingIsConvex(v[level], lo, hi);
    }
  }

  lemma PrefixIsConvex(fs: seq<File>, inputs: seq<File>, n: nat)
    requires ApartFiles(fs) && Convex(fs, inputs) && DisjointSorted(inputs) && n <= |inputs|
    ensures Convex(fs, inputs[..n])
  {
    forall f, g, h | f in inputs[..n] && g in fs && h in inputs[..n] && Less(f.largest, g.smallest) && Less(g.largest, h.smallest)
      ensures g in inputs[..n]
    {
      assert f in inputs && h in inputs && BoundsOk(g) && BoundsOk(h);
      var t :| 0 <= t < |inputs| && inputs[t] == g;
      var u :| 0 <= u < n && inputs[u] == h;
    }
  }

  /** CompactRange may cut its inputs off at the size limit: a prefix is still convex. */
  lemma PrefixIsStart(v: Version, level: nat, inputs: seq<File>, n: nat, lo: Option<UserKey>, hi: Option<UserKey>)
    requires WellFormed(v) && 0 < level && level + 1 < NUM_LEVELS
    requires inputs == Overlapping(v[level], lo, hi) && 0 < n <= |inputs|
    ensures GoodStart(v, level, inputs[..n])
  {
    LevelApart(v, level);
    LevelsDisjointSorted(v, level);
    OverlappingIsConvex(v[level], lo, hi);
    OverlappingIsSorted(v[level], lo, hi);
    LevelNoRepeats(v, level);
    OverlappingNoRepeats(v[level], lo, hi);
    PrefixIsConvex(v[level], inputs, n);
  }

  lemma LevelConsistent(v: Version, level: nat)
    requires level < |v| && Consistent(VersionContents(v))
    ensures Consistent(Contents(v[level]))
  {
    assert forall e :: e in Contents(v[level]) ==> e in VersionContents(v);
  }

  /** AddBoundaryInputs on a legal start closes it. */
  method CloseStart(v: Version, level: nat, start: seq<File>) returns (r: seq<File>)
    requires WellFormed(v) && Consistent(VersionContents(v)) && GoodStart(v, level, start)
    ensures start <= r && NoRepeats(r) && (forall f :: f in r ==> f in v[level]) && Extended(v[level], start, r)
    ensures ClosedSelection(v[level], r)
  {
    LevelFilesValid(v, level);
    LevelConsistent(v, level);
    r := AddBoundaryInputs(v[level], start);
    if level == 0 {
      UntouchedIsClosed(v[0], r);
    } else {
      LevelApart(v, level);
    }
  }

  lemma UntouchedIsClosed(fs: seq<File>, chosen: seq<File>)
    requires ValidFiles(fs) && Untouched(fs, chosen) && forall f :: f in chosen ==> f in fs
    ensures ClosedSelection(fs, chosen)
  {
    forall f, g | f in chosen && g in fs && g !in chosen
      ensures Above(TableSet(g), TableSet(f))
    {
      assert !Touch(f, g);
      BoundsOrdered(f);
      BoundsOrdered(g);
      UserApartIsAbove(g, f);
    }
  }

  /** The files of the next level that meet the range of in0, in order. */
  ghost predicate NextFiles(v: Version, level: nat, in0: seq<File>, in1: seq<File>) {
    level + 1 < |v| && exists lo, hi :: Hull(in0, lo, hi) && in1 == Overlapping(v[level + 1], Some(lo), Some(hi))
  }

  /** The next-level files meeting the range of a closed selection complete the inputs. */
  method NextLevelInputs(v: Version, level: nat, in0: seq<File>)
    returns (in1: seq<File>, smallest: InternalKey, largest: InternalKey)
    requires WellFormed(v) && level + 1 < NUM_LEVELS
    requires in0 != [] && NoRepeats(in0) && ClosedSelection(v[level], in0) && forall f :: f in in0 ==> f in v[level]
    ensures GoodInputs(v, level, in0, in1) && NextFiles(v, level, in0, in1)
    ensures LargestOf(in0, largest)
  {
    LevelFilesValid(v, level);
    LevelFilesValid(v, level + 1);
    FilesBounded(v[level]);
    smallest, largest := GetRange(in0);
    RangeIsHull(in0, smallest, largest);
    var lo, hi;
    in1, lo, hi := GetOverlappingInputs(false, v[level + 1], Some(smallest.user), Some(largest.user));
    LevelNoRepeats(v, level + 1);
    OverlappingNoRepeats(v[level + 1], lo, hi);
  }

  /** A wider range that meets no more files meets the same ones. */
  lemma {:induction false} OverlappingWidens(fs: seq<File>, lo: UserKey, hi: UserKey, lo': UserKey, hi': UserKey)
    requires lo' <= lo && hi <= hi'
    ensures |Overlapping(fs, Some(lo), Some(hi))| <= |Overlapping(fs, Some(lo'), Some(hi'))|
    ensures |Overlapping(fs, Some(lo), Some(hi))| == |Overlapping(fs, Some(lo'), Some(hi'))| ==>
              Overlapping(fs, Some(lo), Some(hi)) == Overlapping(fs, Some(lo'), Some(hi'))
  {
    if fs != [] {
      OverlappingWidens(fs[..|fs| - 1], lo, hi, lo', hi');
    }
  }

  lemma SameNextFiles(v: Version, level: nat, a: seq<File>, b: seq<File>, inA: seq<File>, inB: seq<File>)
    requires NextFiles(v, level, a, inA) && NextFiles(v, level, b, inB) && forall f :: f in a ==> f in b
    requires |inA| == |inB|
    ensures inA == inB
  {
    var lo, hi :| Hull(a, lo, hi) && inA == Overlapping(v[level + 1], Some(lo), Some(hi));
    var lo', hi' :| Hull(b, lo', hi') && inB == Overlapping(v[level + 1], Some(lo'), Some(hi'));
    OverlappingWidens(v[level + 1], lo, hi, lo', hi');
  }

  datatype Inputs = Inputs(level: nat, in0: seq<File>, in1: seq<File>, grandparents: seq<File>, compactPointer: InternalKey)

  /** The start closed under boundary files, or a larger closed selection that reaches no further
      file of the next level and keeps all inputs below the size limit; with all of the next two
      levels that they meet, and the largest key as the place to go on from. */
  ghost predicate SetUpFrom(v: Version, start: seq<File>, first: seq<File>, c: Inputs, maxFileSize: nat) {
    && GoodInputs(v, c.level, c.in0, c.in1)
    && NextFiles(v, c.level, first, c.in1) && NextFiles(v, c.level, c.in0, c.in1)
    && start <= first && ClosedSelection(v[c.level], first)
    && (forall f :: f in first ==> f in c.in0)
    && (c.in0 == first
        || (c.in1 != [] && |c.in0| > |first| && TotalSize(c.in0) + TotalSize(c.in1) < ExpandedCompactionByteSizeLimit(maxFileSize)))
    && GrandparentsOf(v, c.level, c.in0, c.in1, c.grandparents)
    && LargestOf(c.in0, c.compactPointer)
  }

  ghost predicate GrandparentsOf(v: Version, level: nat, in0: seq<File>, in1: seq<File>, r: seq<File>) {
    if level + 2 < |v| then
      exists lo, hi :: Hull(in0 + in1, lo, hi) && forall f :: f in r <==> f in v[level + 2] && Overlaps(f, Some(lo), Some(hi))
    else r == []
  }

  lemma RangeOfInputs(v: Version, level: nat, in0: seq<File>, in1: seq<File>, smallest: InternalKey, largest: InternalKey)
    requires WellFormed(v) && GoodInputs(v, level, in0, in1)
    requires exists f :: f in in0 + in1 && smallest == f.smallest
    requires exists f :: f in in0 + in1 && largest == f.largest
    requires forall f :: f in in0 + in1 ==> !Less(f.smallest, smallest) && !Less(largest, f.largest)
    ensures Hull(in0 + in1, smallest.user, largest.user) && smallest.user <= largest.user
  {
    LevelFilesValid(v, level);
    LevelFilesValid(v, level + 1);
    FilesBounded(v[level]);
    FilesBounded(v[level + 1]);
    assert forall f :: f in in0 + in1 ==> BoundsOk(f);
    RangeIsHull(in0 + in1, smallest, largest);
  }

  /** What the search over the whole range finds holds the files it started from. */
  lemma ExpansionHolds(v: Version, level: nat, in0: seq<File>, in1: seq<File>, smallest: UserKey, largest: UserKey,
                       r: seq<File>, lo: Option<UserKey>, hi: Option<UserKey>)
    requires WellFormed(v) && GoodInputs(v, level, in0, in1) && Hull(in0 + in1, smallest, largest)
    requires OverlapResult(level == 0, v[level], Some(smallest), Some(largest), r, lo, hi)
    ensures forall f :: f in in0 ==> f in r
  {
    LevelFilesValid(v, level);
    FilesBounded(v[level]);
    forall f | f in in0
      ensures f in r
    {
      assert f in in0 + in1 && Within(f, Some(smallest), Some(largest)) && BoundsOk(f);
      assert Overlaps(f, lo, hi);
    }
  }

  lemma HullOrdered(v: Version, level: nat, in0: seq<File>, lo: UserKey, hi: UserKey)
    requires WellFormed(v) && level < NUM_LEVELS && in0 != [] && Hull(in0, lo, hi) && forall f :: f in in0 ==> f in v[level]
    ensures lo <= hi
  {
    var f := in0[0];
    assert f in in0 && f in v[level] && Within(f, Some(lo), Some(hi));
    LevelFilesValid(v, level);
    BoundsOrdered(f);
  }

  lemma NextNoGap(v: Version, level: nat, in0: seq<File>, in1: seq<File>)
    requires WellFormed(v) && level + 1 < NUM_LEVELS && in0 != [] && NextFiles(v, level, in0, in1) && NoGap(in0)
    requires forall f :: f in in0 ==> f in v[level]
    ensures NoGap(in0 + in1)
  {
    LevelFilesValid(v, level + 1);
    var lo, hi :| Hull(in0, lo, hi) && in1 == Overlapping(v[level + 1], Some(lo), Some(hi));
    HullOrdered(v, level, in0, lo, hi);
    RangeNoGap(v[level + 1], in0, lo, hi, in1);
  }

  /** What the search over the whole range finds leaves no gap. */
  lemma ExpansionNoGap(v: Version, level: nat, in0: seq<File>, in1: seq<File>, smallest: UserKey, largest: UserKey,
                       r: seq<File>, lo: Option<UserKey>, hi: Option<UserKey>)
    requires WellFormed(v) && level + 1 < NUM_LEVELS && Hull(in0 + in1, smallest, largest) && smallest <= largest && NoGap(in0 + in1)
    requires OverlapResult(level == 0, v[level], Some(smallest), Some(largest), r, lo, hi)
    requires forall f :: f in in0 ==> f in r
    ensures NoGap(r + in1)
  {
    LevelFilesValid(v, level);
    if level == 0 {
      Level0NoGap(v[0], in0 + in1, smallest, largest, r, lo, hi);
    } else {
      RangeNoGap(v[level], in0 + in1, smallest, largest, r);
    }
    SameFilesNoGap(in0 + in1 + r, r + in1);
  }

  /** All files of the level that meet the range of the inputs, closed. */
  method Widen(v: Version, level: nat, in0: seq<File>, in1: seq<File>) returns (r: seq<File>)
    requires WellFormed(v) && Consistent(VersionContents(v)) && GoodInputs(v, level, in0, in1)
    ensures r != [] && NoRepeats(r) && ClosedSelection(v[level], r) && forall f :: f in r ==> f in v[level]
    ensures forall f :: f in in0 ==> f in r
    ensures NoGap(in0 + in1) ==> NoGap(r + in1)
  {
    var allStart, allLimit := GetRange(in0 + in1);
    RangeOfInputs(v, level, in0, in1, allStart, allLimit);
    LevelFilesValid(v, level);
    var found, lo, hi := GetOverlappingInputs(level == 0, v[level], Some(allStart.user), Some(allLimit.user));
    ExpansionHolds(v, level, in0, in1, allStart.user, allLimit.user, found, lo, hi);
    assert in0[0] in in0;
    OverlapResultIsStart(v, level, Some(allStart.user), Some(allLimit.user), found, lo, hi);
    r := CloseStart(v, level, found);
    PrefixHolds(found, r, in0);
    if NoGap(in0 + in1) {
      ExpansionNoGap(v, level, in0, in1, allStart.user, allLimit.user, found, lo, hi);
      FilesBounded(v[level]);
      ExtendedNoGap(v[level], found, r, in1);
    }
  }

  lemma PrefixHolds(found: seq<File>, r: seq<File>, fs: seq<File>)
    requires found <= r && forall f :: f in fs ==> f in found
    ensures forall f :: f in fs ==> f in r
  {
    forall f | f in fs
      ensures f in r
    {
      var i :| 0 <= i < |found| && found[i] == f;
      assert r[i] == f;
    }
  }

  /** The larger selection SetupOtherInputs looks for, where there is one. */
  method Expand(v: Version, level: nat, in0: seq<File>, in1: seq<File>, maxFileSize: nat)
    returns (r: Option<(seq<File>, InternalKey)>)
    requires WellFormed(v) && Consistent(VersionContents(v)) && GoodInputs(v, level, in0, in1) && NextFiles(v, level, in0, in1)
    ensures r.Some? ==> var (e, largest) := r.value;
      && GoodInputs(v, level, e, in1) && NextFiles(v, level, e, in1) && LargestOf(e, largest)
      && (forall f :: f in in0 ==> f in e)
      && |e| > |in0| && TotalSize(e) + TotalSize(in1) < ExpandedCompactionByteSizeLimit(maxFileSize)
      && (NoGap(in0 + in1) ==> NoGap(e + in1))
  {
    var e := Widen(v, level, in0, in1);
    r := None;
    if |e| > |in0| && TotalSize(in1) + TotalSize(e) < ExpandedCompactionByteSizeLimit(maxFileSize) {
      var expanded1, newStart, newLimit := NextLevelInputs(v, level, e);
      if |expanded1| == |in1| {
        SameNextFiles(v, level, in0, e, in1, expanded1);
        r := Some((e, newLimit));
      }
    }
  }

  lemma ClosedStartNoGap(v: Version, level: nat, start: seq<File>, r: seq<File>)
    requires WellFormed(v) && level < NUM_LEVELS && Extended(v[level], start, r) && NoGap(start)
    requires forall f :: f in start ==> f in v[level]
    ensures NoGap(r)
  {
    LevelFilesValid(v, level);
    FilesBounded(v[level]);
    assert start + [] == start && r + [] == r;
    ExtendedNoGap(v[level], start, r, []);
  }

  /** VersionSet::SetupOtherInputs. */
  method SetupOtherInputs(v: Version, level: nat, start: seq<File>, maxFileSize: nat)
    returns (c: Inputs, ghost first: seq<File>)
    requires WellFormed(v) && Consistent(VersionContents(v)) && GoodStart(v, level, start)
    ensures c.level == level && SetUpFrom(v, start, first, c, maxFileSize)
    ensures NoGap(start) ==> NoGap(c.in0 + c.in1)
  {
    var in0 := CloseStart(v, level, start);
    first := in0;
    var in1, smallest, largest := NextLevelInputs(v, level, in0);
    if NoGap(start) {
      ClosedStartNoGap(v, level, start, in0);
      NextNoGap(v, level, in0, in1);
    }
    if in1 != [] {
      var expanded := Expand(v, level, in0, in1, maxFileSize);
      if expanded.Some? {
        in0, largest := expanded.value.0, expanded.value.1;
      }
    }
    var grandparents := Grandparents(v, level, in0, in1);
    c := Inputs(level, in0, in1, grandparents, largest);
  }

  /** The level + 2 files the whole compaction overlaps. */
  method Grandparents(v: Version, level: nat, in0: seq<File>, in1: seq<File>) returns (r: seq<File>)
    requires WellFormed(v) && GoodInputs(v, level, in0, in1)
    ensures GrandparentsOf(v, level, in0, in1, r)
  {
    var allStart, allLimit := GetRange(in0 + in1);
    RangeOfInputs(v, level, in0, in1, allStart, allLimit);
    r := [];
    if level + 2 < NUM_LEVELS {
      LevelFilesValid(v, level + 2);
      var lo, hi;
      r, lo, hi := GetOverlappingInputs(false, v[level + 2], Some(allStart.user), Some(allLimit.user));
    }
  }

  /** File i is the first that ends after the compaction pointer; without a pointer, or with no file
      after it, the first of all. */
  ghost predicate NextToCompact(fs: seq<File>, pointer: Option<InternalKey>, i: nat) {
    && i < |fs|
    && if pointer.Some? && exists g :: g in fs && Less(pointer.value, g.largest) then
         Less(pointer.value, fs[i].largest) && forall j :: 0 <= j < i ==> !Less(pointer.value, fs[j].largest)
       else i == 0
  }

  ghost predicate IsNextToCompact(fs: seq<File>, pointer: Option<InternalKey>, f: File) {
    exists i: nat :: NextToCompact(fs, pointer, i) && fs[i] == f
  }

  method FirstAfterPointer(fs: seq<File>, pointer: Option<InternalKey>) returns (r: nat)
    requires fs != []
    ensures NextToCompact(fs, pointer, r)
  {
    for i := 0 to |fs|
      invariant i > 0 ==> pointer.Some?
      invariant forall j :: 0 <= j < i ==> !Less(pointer.value, fs[j].largest)
    {
      if pointer.None? || Less(pointer.value, fs[i].largest) {
        assert fs[i] in fs;
        return i;
      }
    }
    r := 0;
  }

  /** The files PickCompaction starts from: the file, and on level 0 all that meet it. */
  method StartFrom(v: Version, level: nat, f: File) returns (start: seq<File>)
    requires WellFormed(v) && level + 1 < NUM_LEVELS && f in v[level]
    ensures GoodStart(v, level, start) && f in start && (level > 0 ==> start == [f])
    ensures level == 0 ==> forall g :: g in v[0] && Touch(f, g) ==> g in start
    ensures NoGap(start)
  {
    start := [f];
    assert forall g, u :: g in start && f.smallest.user <= u <= g.largest.user ==> Covers(g, u);
    if level == 0 {
      var smallest, largest := GetRange(start);
      var lo, hi;
      LevelFilesValid(v, 0);
      BoundsOrdered(f);
      start, lo, hi := GetOverlappingInputs(true, v[0], Some(smallest.user), Some(largest.user));
      assert f in start;
      OverlapResultIsStart(v, 0, Some(smallest.user), Some(largest.user), start, lo, hi);
      assert Hull([f], f.smallest.user, f.largest.user) by { assert f in [f]; }
      Level0NoGap(v[0], [f], f.smallest.user, f.largest.user, start, lo, hi);
      SameFilesNoGap([f] + start, start);
    } else {
      LevelApart(v, level);
      assert Convex(v[level], start);
    }
  }

  /** VersionSet::PickCompaction.  sizeLevel is the level whose score reached 1, if any, and
      seekFile the file that used up its seeks; neither is ever the last level. */
  method PickCompaction(v: Version, sizeLevel: Option<nat>, pointer: Option<InternalKey>,
                        seekFile: Option<(nat, File)>, maxFileSize: nat) returns (c: Option<Inputs>)
    requires WellFormed(v) && Consistent(VersionContents(v))
    requires sizeLevel.Some? ==> sizeLevel.value + 1 < NUM_LEVELS && v[sizeLevel.value] != []
    requires seekFile.Some? ==> seekFile.value.0 + 1 < NUM_LEVELS && seekFile.value.1 in v[seekFile.value.0]
    ensures c.None? <==> sizeLevel.None? && seekFile.None?
    ensures c.Some? ==> c.value.level == if sizeLevel.Some? then sizeLevel.value else seekFile.value.0
    ensures c.Some? ==> exists f, start, first {:trigger GoodStart(v, c.value.level, start), SetUpFrom(v, start, first, c.value, maxFileSize), f in start} ::
      && f in start && (if sizeLevel.Some? then IsNextToCompact(v[c.value.level], pointer, f) else f == seekFile.value.1)
      && (if c.value.level > 0 then start == [f] else forall g :: g in v[0] && Touch(f, g) ==> g in start)
      && GoodStart(v, c.value.level, start) && SetUpFrom(v, start, first, c.value, maxFileSize)
    ensures c.Some? ==> NoGap(c.value.in0 + c.value.in1)
  {
    var level: nat, f: File;
    var i := 0;
    if sizeLevel.Some? {
      level := sizeLevel.value;
      i := FirstAfterPointer(v[level], pointer);
      f := v[level][i];
    } else if seekFile.Some? {
      level, f := seekFile.value.0, seekFile.value.1;
    } else {
      return None;
    }
    var start := StartFrom(v, level, f);
    ghost var first;
    var inputs;
    inputs, first := SetupOtherInputs(v, level, start, maxFileSize);
    assert f in start && GoodStart(v, level, start) && SetUpFrom(v, start, first, inputs, maxFileSize);
    c := Some(inputs);
  }

  /** The shortest prefix that reaches the size limit, or everything. */
  method CutAtSize(inputs: seq<File>, limit: nat) returns (n: nat)
    requires inputs != []
    ensures 0 < n <= |inputs|
    ensures TotalSize(inputs[..n]) >= limit || n == |inputs|
    ensures forall m :: 0 < m < n ==> TotalSize(inputs[..m]) < limit
  {
    var total := 0;
    n := 0;
    while n < |inputs|
      invariant 0 <= n <= |inputs| && total == TotalSize(inputs[..n])
      invariant forall m :: 0 < m <= n ==> TotalSize(inputs[..m]) < limit
    {
      TotalSizeAppend(inputs[..n], inputs[n]);
      assert inputs[..n + 1] == inputs[..n] + [inputs[n]];
      total := total + inputs[n].size;
      n := n + 1;
      if total >= limit {
        return;
      }
    }
  }

  lemma {:induction false} TotalSizeAppend(fs: seq<File>, f: File)
    ensures TotalSize(fs + [f]) == TotalSize(fs) + f.size
  {
    if fs == [] {
      assert [f][1..] == [];
    } else {
      assert (fs + [f])[1..] == fs[1..] + [f];
      TotalSizeAppend(fs[1..], f);
    }
  }

  /** What CompactRange starts from: on level 0 all files that meet the range, directly or through
      others; deeper, the shortest run of them that reaches the size limit. */
  ghost predicate RangeStart(v: Version, level: nat, begin: Option<UserKey>, end: Option<UserKey>, maxFileSize: nat, start: seq<File>)
    requires level < |v|
  {
    if level == 0 then exists lo, hi :: OverlapResult(true, v[0], begin, end, start, lo, hi)
    else
      var all := Overlapping(v[level], begin, end);
      && start <= all && (TotalSize(start) >= maxFileSize || start == all)
      && forall m :: 0 < m < |start| ==> TotalSize(start[..m]) < maxFileSize
  }

  lemma CutIsRangeStart(v: Version, level: nat, begin: Option<UserKey>, end: Option<UserKey>, maxFileSize: nat, n: nat)
    requires 0 < level < |v|
    requires var all := Overlapping(v[level], begin, end);
      && n <= |all| && (TotalSize(all[..n]) >= maxFileSize || n == |all|)
      && forall m :: 0 < m < n ==> TotalSize(all[..m]) < maxFileSize
    ensures RangeStart(v, level, begin, end, maxFileSize, Overlapping(v[level], begin, end)[..n])
  {
    var all := Overlapping(v[level], begin, end);
    assert forall m :: 0 < m < n ==> all[..n][..m] == all[..m];
  }

  method StartOfRange(v: Version, level: nat, begin: Option<UserKey>, end: Option<UserKey>, maxFileSize: nat)
    returns (start: seq<File>)
    requires WellFormed(v) && level + 1 < NUM_LEVELS
    ensures start == [] <==> !SomeOverlap(v[level], begin, end)
    ensures start != [] ==> RangeStart(v, level, begin, end, maxFileSize, start) && GoodStart(v, level, start)
  {
    LevelFilesValid(v, level);
    var inputs, lo, hi := GetOverlappingInputs(level == 0, v[level], begin, end);
    EmptyIffNoOverlap(level == 0, v[level], begin, end, inputs, lo, hi);
    start := inputs;
    if inputs != [] {
      OverlapResultIsStart(v, level, begin, end, inputs, lo, hi);
      if level > 0 {
        var n := CutAtSize(inputs, maxFileSize);
        PrefixIsStart(v, level, inputs, n, lo, hi);
        CutIsRangeStart(v, level, begin, end, maxFileSize, n);
        start := inputs[..n];
      }
    }
  }

  /** VersionSet::CompactRange. */
  method CompactRange(v: Version, level: nat, begin: Option<UserKey>, end: Option<UserKey>, maxFileSize: nat)
    returns (c: Option<Inputs>)
    requires WellFormed(v) && Consistent(VersionContents(v)) && level + 1 < NUM_LEVELS
    ensures c.None? <==> !SomeOverlap(v[level], begin, end)
    ensures c.Some? ==> c.value.level == level
    ensures c.Some? ==> exists start, first {:trigger SetUpFrom(v, start, first, c.value, maxFileSize)} ::
      RangeStart(v, level, begin, end, maxFileSize, start) && GoodStart(v, level, start) && SetUpFrom(v, start, first, c.value, maxFileSize)
  {
    var start := StartOfRange(v, level, begin, end, maxFileSize);
    if start == [] {
      return None;
    }
    ghost var first;
    var inputs;
    inputs, first := SetupOtherInputs(v, level, start, maxFileSize);
    assert SetUpFrom(v, start, first, inputs, maxFileSize);
    c := Some(inputs);
  }

  // ---- PickLevelForMemTableOutput ----

  /** Version::PickLevelForMemTableOutput: how deep a flushed memtable covering [lo, hi] may go. */
  method PickLevelForMemTableOutput(v: Version, lo: UserKey, hi: UserKey, maxFileSize: nat) returns (level: nat)
    requires WellFormed(v)
    ensures level <= MAX_MEM_COMPACT_LEVEL
    ensures level > 0 ==> forall l :: 0 <= l <= level ==> !SomeOverlap(v[l], Some(lo), Some(hi))
    ensures level < MAX_MEM_COMPACT_LEVEL ==>
              || (level == 0 && SomeOverlap(v[0], Some(lo), Some(hi)))
              || SomeOverlap(v[level + 1], Some(lo), Some(hi))
              || TotalSize(Overlapping(v[level + 2], Some(lo), Some(hi))) > MaxGrandParentOverlapBytes(maxFileSize)
  {
    level := 0;
    LevelFilesValid(v, 0);
    var overlap0 := SomeFileOverlapsRange(false, v[0], Some(lo), Some(hi));
    if overlap0 {
      return;
    }
    while level < MAX_MEM_COMPACT_LEVEL
      invariant level <= MAX_MEM_COMPACT_LEVEL
      invariant forall l :: 0 <= l <= level ==> !SomeOverlap(v[l], Some(lo), Some(hi))
    {
      LevelsDisjointSorted(v, level + 1);
      var next := SomeFileOverlapsRange(true, v[level + 1], Some(lo), Some(hi));
      if next {
        break;
      }
      LevelFilesValid(v, level + 2);
      var overlaps, l, h := GetOverlappingInputs(false, v[level + 2], Some(lo), Some(hi));
      if TotalSize(overlaps) > MaxGrandParentOverlapBytes(maxFileSize) {
        break;
      }
      level := level + 1;
    }
  }
}
