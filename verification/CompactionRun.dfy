/** A whole compaction: merge the inputs, drop, write output tables, install
    (db/version_set.cc MakeInputIterator; db/db_impl.cc DoCompactionWork, InstallCompactionResults). */
module CompactionRun {
  import opened DbFormat
  import opened History
  import opened SortedRuns
  import opened Versions
  import opened InputSelection
  import opened Compaction
  import opened CompactionMeaning
  import opened Installing

  function Tables(fs: seq<File>): (ts: seq<seq<Entry>>)
    ensures |ts| == |fs| && forall i :: 0 <= i < |fs| ==> ts[i] == fs[i].table
  {
    if fs == [] then [] else [fs[0].table] + Tables(fs[1..])
  }

  /** Different files of a consistent version have no key in common. */
  lemma FilesHaveDisjointKeys(v: Version, l: int, f: File, m: int, g: File)
    requires WellFormed(v) && Consistent(VersionContents(v))
    requires At(v, l, f) && At(v, m, g) && !(l == m && f == g)
    ensures DisjointKeys(f.table, g.table)
  {
    forall x, y | x in f.table && y in g.table && KeyOf(x) == KeyOf(y)
      ensures false
    {
      InContents(v, l, f, x);
      InContents(v, m, g, y);
      assert x == y;
      SharedEntry(v, l, f, m, g, x);
    }
  }

  function LevelOfInput(level: nat, in0: seq<File>, i: nat): nat {
    if i < |in0| then level else level + 1
  }

  lemma InputAt(v: Version, level: nat, in0: seq<File>, in1: seq<File>, i: nat)
    requires WellFormed(v) && GoodInputs(v, level, in0, in1) && i < |in0 + in1|
    ensures At(v, LevelOfInput(level, in0, i), (in0 + in1)[i])
  {
    assert i < |in0| ==> (in0 + in1)[i] == in0[i] && in0[i] in in0;
    assert i >= |in0| ==> (in0 + in1)[i] == in1[i - |in0|] && in1[i - |in0|] in in1;
  }

  lemma InputTablesMergeable(v: Version, level: nat, in0: seq<File>, in1: seq<File>)
    requires WellFormed(v) && Consistent(VersionContents(v)) && GoodInputs(v, level, in0, in1)
    ensures MergeableRuns(Tables(in0 + in1))
  {
    var fs := in0 + in1;
    forall i | 0 <= i < |fs|
      ensures Sorted(fs[i].table)
    {
      InputAt(v, level, in0, in1, i);
    }
    forall i, j | 0 <= i < j < |fs|
      ensures DisjointKeys(fs[i].table, fs[j].table)
    {
      InputAt(v, level, in0, in1, i);
      InputAt(v, level, in0, in1, j);
      FilesHaveDisjointKeys(v, LevelOfInput(level, in0, i), fs[i], LevelOfInput(level, in0, j), fs[j]);
    }
  }

  lemma TablesCover(fs: seq<File>, e: Entry)
    ensures e in Contents(fs) <==> exists i :: 0 <= i < |Tables(fs)| && e in Tables(fs)[i]
  {
    if f :| f in fs && e in f.table {
      var i :| 0 <= i < |fs| && fs[i] == f;
      assert e in Tables(fs)[i];
    }
  }

  /** MakeInputIterator: merging the input tables yields the merged input of the compaction. */
  lemma MergeGivesInput(v: Version, level: nat, in0: seq<File>, in1: seq<File>)
    requires WellFormed(v) && Consistent(VersionContents(v)) && GoodInputs(v, level, in0, in1)
    ensures MergedInput(MergeAll(Tables(in0 + in1)), in0, in1)
  {
    InputTablesMergeable(v, level, in0, in1);
    MergeAllCorrect(Tables(in0 + in1));
    forall e
      ensures e in MergeAll(Tables(in0 + in1)) <==> e in Contents(in0) || e in Contents(in1)
    {
      TablesCover(in0 + in1, e);
    }
  }

  lemma {:induction false} FlattenElements(os: seq<seq<Entry>>, e: Entry)
    ensures e in Flatten(os) <==> exists i :: 0 <= i < |os| && e in os[i]
  {
    if os != [] {
      var n := |os| - 1;
      FlattenElements(os[..n], e);
      if e in Flatten(os[..n]) {
        var i :| 0 <= i < n && e in os[..n][i];
        assert e in os[i];
      }
      if i :| 0 <= i < |os| && e in os[i] {
        assert i == n || e in os[..n][i];
      }
    }
  }

  lemma SortedParts(a: seq<Entry>, b: seq<Entry>)
    requires Sorted(a + b)
    ensures Sorted(a) && Sorted(b)
    ensures forall x, y :: x in a && y in b ==> Less(KeyOf(x), KeyOf(y))
  {
    assert forall i :: 0 <= i < |a| ==> (a + b)[i] == a[i];
    assert forall i :: 0 <= i < |b| ==> (a + b)[|a| + i] == b[i];
  }

  /** The pieces of a sorted sequence are sorted and follow each other. */
  lemma {:induction false} PiecesInOrder(os: seq<seq<Entry>>)
    requires Sorted(Flatten(os))
    ensures forall o :: o in os ==> Sorted(o)
    ensures forall i, j, x, y :: 0 <= i < j < |os| && x in os[i] && y in os[j] ==> Less(KeyOf(x), KeyOf(y))
    ensures forall e :: e in Flatten(os) <==> exists i :: 0 <= i < |os| && e in os[i]
  {
    forall e
      ensures e in Flatten(os) <==> exists i :: 0 <= i < |os| && e in os[i]
    {
      FlattenElements(os, e);
    }
    if os != [] {
      var n := |os| - 1;
      SortedParts(Flatten(os[..n]), os[n]);
      PiecesInOrder(os[..n]);
    }
  }

  function FileOf(number: nat, size: nat, table: seq<Entry>): File
    requires table != []
  {
    File(number, size, KeyOf(table[0]), KeyOf(table[|table| - 1]), table)
  }

  /** Output tables become files: bounds from the first and last key, numbers from next on. */
  function MakeFiles(os: seq<seq<Entry>>, next: nat, fileSize: seq<Entry> -> nat): (fs: seq<File>)
    requires forall i :: 0 <= i < |os| ==> os[i] != []
    ensures |fs| == |os|
    ensures forall i :: 0 <= i < |os| ==> fs[i] == FileOf(next + i, fileSize(os[i]), os[i])
  {
    if os == [] then [] else [FileOf(next, fileSize(os[0]), os[0])] + MakeFiles(os[1..], next + 1, fileSize)
  }

  lemma FileOfIsValid(number: nat, size: nat, table: seq<Entry>)
    requires table != [] && Sorted(table) && forall e :: e in table ==> e.num <= MAX_SEQUENCE
    ensures ValidFile(FileOf(number, size, table))
  {
  }

  /** fs are files made of the pieces os. */
  ghost predicate MadeOf(os: seq<seq<Entry>>, fs: seq<File>) {
    && |fs| == |os|
    && forall i :: 0 <= i < |os| ==> os[i] != [] && fs[i] == FileOf(fs[i].number, fs[i].size, os[i])
  }

  lemma MadeFileIsValid(os: seq<seq<Entry>>, fs: seq<File>, i: nat)
    requires Sorted(Flatten(os)) && forall e :: e in Flatten(os) ==> e.num <= MAX_SEQUENCE
    requires MadeOf(os, fs) && i < |fs|
    ensures ValidFile(fs[i])
  {
    PiecesInOrder(os);
    assert os[i] in os && forall e :: e in os[i] ==> e in Flatten(os);
    FileOfIsValid(fs[i].number, fs[i].size, os[i]);
  }

  lemma MadeFilesFollow(os: seq<seq<Entry>>, fs: seq<File>, i: nat, j: nat)
    requires Sorted(Flatten(os)) && MadeOf(os, fs) && i < j < |fs|
    ensures Less(fs[i].largest, fs[j].smallest)
  {
    PiecesInOrder(os);
    assert os[i][|os[i]| - 1] in os[i] && os[j][0] in os[j];
  }

  lemma MadeFilesCover(os: seq<seq<Entry>>, fs: seq<File>, e: Entry)
    requires |fs| == |os| && forall i :: 0 <= i < |os| ==> fs[i].table == os[i]
    ensures e in Flatten(os) <==> e in Contents(fs)
  {
    FlattenElements(os, e);
    TablesCover(fs, e);
    assert Tables(fs) == os;
  }

  lemma FilesFromPieces(v: Version, kept: seq<Entry>, os: seq<seq<Entry>>, next: nat, fileSize: seq<Entry> -> nat)
    requires Sorted(kept) && Flatten(os) == kept && forall i :: 0 <= i < |os| ==> os[i] != []
    requires forall e :: e in kept ==> e.num <= MAX_SEQUENCE
    requires forall l, g :: At(v, l, g) ==> g.number < next
    ensures OutputFiles(v, kept, MakeFiles(os, next, fileSize))
  {
    var fs := MakeFiles(os, next, fileSize);
    forall i | 0 <= i < |fs|
      ensures ValidFile(fs[i])
    {
      MadeFileIsValid(os, fs, i);
    }
    forall i, j | 0 <= i < j < |fs|
      ensures Less(fs[i].largest, fs[j].smallest)
    {
      MadeFilesFollow(os, fs, i, j);
    }
    forall e
      ensures e in kept <==> e in Contents(fs)
    {
      MadeFilesCover(os, fs, e);
    }
  }

  /** The work of one compaction, from chosen inputs to output files ready to install. */
  method RunCompaction(v: Version, inputs: Inputs, snap: nat, next: nat, maxFileSize: nat, fileSize: seq<Entry> -> nat)
    returns (outs: seq<File>, ghost input: seq<Entry>)
    requires WellFormed(v) && Consistent(VersionContents(v)) && snap < MAX_SEQUENCE
    requires GoodInputs(v, inputs.level, inputs.in0, inputs.in1)
    requires forall l, g :: At(v, l, g) ==> g.number < next
    ensures CompactionSetup(v, inputs.level, inputs.in0, inputs.in1, input)
    ensures OutputFiles(v, Kept(v, inputs.level, input, snap, |input|), outs)
    ensures forall i :: 0 <= i < |outs| ==> outs[i].table != [] && outs[i] == FileOf(next + i, fileSize(outs[i].table), outs[i].table)
    ensures Flatten(Tables(outs)) == Kept(v, inputs.level, input, snap, |input|)
    ensures GoodOutputs(inputs.grandparents, maxFileSize, fileSize, input, Tables(outs))
  {
    var merged := MergeAll(Tables(inputs.in0 + inputs.in1));
    input := merged;
    MergeGivesInput(v, inputs.level, inputs.in0, inputs.in1);
    var c := new Compaction(v, inputs.level, inputs.grandparents, maxFileSize);
    var outputs := DoCompactionWork(c, merged, snap, fileSize);
    OutputsReady(v, inputs, input, snap, outputs, next, maxFileSize, fileSize);
    outs := MakeFiles(outputs, next, fileSize);
  }

  lemma OutputsReady(v: Version, inputs: Inputs, input: seq<Entry>, snap: nat, outputs: seq<seq<Entry>>, next: nat,
                     maxFileSize: nat, fileSize: seq<Entry> -> nat)
    requires CompactionSetup(v, inputs.level, inputs.in0, inputs.in1, input)
    requires Flatten(outputs) == Kept(v, inputs.level, input, snap, |input|)
    requires GoodOutputs(inputs.grandparents, maxFileSize, fileSize, input, outputs)
    requires forall l, g :: At(v, l, g) ==> g.number < next
    ensures forall i :: 0 <= i < |outputs| ==> outputs[i] != []
    ensures OutputFiles(v, Kept(v, inputs.level, input, snap, |input|), MakeFiles(outputs, next, fileSize))
    ensures Tables(MakeFiles(outputs, next, fileSize)) == outputs
  {
    KeptSorted(v, inputs.level, input, snap, |input|);
    KeptElements(v, inputs.level, input, snap, |input|);
    forall e | e in input
      ensures e.num <= MAX_SEQUENCE
    {
      var l, f := SourceOf(v, inputs.level, inputs.in0, inputs.in1, input, e);
    }
    forall i | 0 <= i < |outputs|
      ensures outputs[i] != []
    {
      assert outputs[i] in outputs;
    }
    FilesFromPieces(v, Kept(v, inputs.level, input, snap, |input|), outputs, next, fileSize);
  }

  /** CompactRange, and the work of the compaction it finds. */
  method RunRange(v: Version, level: nat, begin: Option<UserKey>, end: Option<UserKey>, snap: nat, next: nat,
                  maxFileSize: nat, fileSize: seq<Entry> -> nat)
    returns (inputs: Inputs, outs: seq<File>, ghost input: seq<Entry>)
    requires WellFormed(v) && Consistent(VersionContents(v)) && level + 1 < NUM_LEVELS && snap < MAX_SEQUENCE
    requires forall l, g :: At(v, l, g) ==> g.number < next
    requires SomeOverlap(v[level], begin, end)
    ensures CompactionSetup(v, level, inputs.in0, inputs.in1, input)
    ensures OutputFiles(v, Kept(v, level, input, snap, |input|), outs)
  {
    var c := CompactRange(v, level, begin, end, maxFileSize);
    inputs := c.value;
    outs, input := RunCompaction(v, inputs, snap, next, maxFileSize, fileSize);
  }

  lemma SplitOutcome(in0: seq<File>, in1: seq<File>, input: seq<Entry>, outs: seq<File>, v': Version)
    requires CompactionInstalled(SPLIT_VERSION, 1, in0, in1, input, 20, outs, v')
    ensures WellFormed(v') && Read(VersionContents(v'), 2.0, 20) == Some([7])
  {
    DeletedValueComesBack(in0, in1, input);
    CompactionKeepsWellFormed(SPLIT_VERSION, 1, in0, in1, input, 20, outs, v');
    CompactionContents(SPLIT_VERSION, 1, in0, in1, input, 20, outs, v');
  }

  /** A deleted value does come back: CompactRange on any range that meets level 1 of SPLIT_VERSION,
      the merge and drop loop, and any version the outcome is installed in. */
  method CompactSplitVersion(begin: Option<UserKey>, end: Option<UserKey>, maxFileSize: nat, fileSize: seq<Entry> -> nat)
    returns (inputs: Inputs, outs: seq<File>)
    requires SomeOverlap(SPLIT_VERSION[1], begin, end)
    ensures WellFormed(SPLIT_VERSION) && Read(VersionContents(SPLIT_VERSION), 2.0, 20) == None
    ensures forall v' :: Applied(SPLIT_VERSION, InputDeletions(1, inputs.in0, inputs.in1), OutputAdditions(1, outs), v') ==>
              WellFormed(v') && Read(VersionContents(v'), 2.0, 20) == Some([7])
  {
    SplitVersionWellFormed();
    SplitVersionConsistent();
    ghost var input;
    inputs, outs, input := RunRange(SPLIT_VERSION, 1, begin, end, 20, 4, maxFileSize, fileSize);
    DeletedValueComesBack(inputs.in0, inputs.in1, input);
    forall v' | Applied(SPLIT_VERSION, InputDeletions(1, inputs.in0, inputs.in1), OutputAdditions(1, outs), v')
      ensures WellFormed(v') && Read(VersionContents(v'), 2.0, 20) == Some([7])
    {
      SplitOutcome(inputs.in0, inputs.in1, input, outs, v');
    }
  }

  lemma SplitVersionConsistent()
    ensures Consistent(VersionContents(SPLIT_VERSION)) && forall l, g :: At(SPLIT_VERSION, l, g) ==> g.number < 4
  {
    SplitVersionContents();
    SplitVersionFiles();
  }
}
