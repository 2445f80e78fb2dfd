/** The merge-and-drop loop (db/db_impl.cc DoCompactionWork; db/version_set.cc class Compaction). */
module Compaction {
  import opened DbFormat
  import opened History
  import opened SortedRuns
  import opened Versions
  import opened InputSelection

  /** No file below the output level covers k: a full scan of levels level + 2 and deeper. */
  ghost predicate BaseLevel(v: Version, level: nat, k: UserKey) {
    forall l, f :: At(v, l, f) && level + 2 <= l ==> !Covers(f, k)
  }

  /** Entry i of the merged input is dropped: rule (A), hidden by the entry before it, or an
      obsolete deletion marker. */
  ghost predicate Dropped(v: Version, level: nat, input: seq<Entry>, snap: nat, i: nat)
    requires i < |input|
  {
    || (i > 0 && input[i - 1].user == input[i].user && input[i - 1].num <= snap)
    || (input[i].op.Del? && input[i].num <= snap && BaseLevel(v, level, input[i].user))
  }

  /** The entries among the first n that are kept, in order. */
  ghost function Kept(v: Version, level: nat, input: seq<Entry>, snap: nat, n: nat): seq<Entry>
    requires n <= |input|
  {
    if n == 0 then []
    else
      var before := Kept(v, level, input, snap, n - 1);
      if Dropped(v, level, input, snap, n - 1) then before else before + [input[n - 1]]
  }

  function Flatten(outputs: seq<seq<Entry>>): seq<Entry> {
    if outputs == [] then [] else Flatten(outputs[..|outputs| - 1]) + outputs[|outputs| - 1]
  }

  // ---- Grandparents and output files ----

  /** Going on from index i over the files that end before the key, one stops at index j. */
  ghost predicate Passes(gs: seq<File>, i: nat, j: nat, key: InternalKey) {
    && i <= j <= |gs|
    && (forall k :: i <= k < j ==> Less(gs[k].largest, key))
    && (j < |gs| ==> !Less(gs[j].largest, key))
  }

  /** What passing them adds to the bytes counted: nothing before the first key. */
  ghost function PassedBytes(gs: seq<File>, i: nat, j: nat, counted: bool): nat
    requires i <= j <= |gs|
  {
    if counted then TotalSize(gs[i..j]) else 0
  }

  lemma PassOne(gs: seq<File>, i: nat, j: nat, counted: bool)
    requires i <= j < |gs|
    ensures PassedBytes(gs, i, j + 1, counted) == PassedBytes(gs, i, j, counted) + if counted then gs[j].size else 0
  {
    TotalSizeAppend(gs[i..j], gs[j]);
    assert gs[i..j + 1] == gs[i..j] + [gs[j]];
  }

  /** The first file that does not end before the key. */
  ghost function Reached(gs: seq<File>, key: InternalKey): (n: nat)
    ensures Passes(gs, 0, n, key)
  {
    if gs == [] || !Less(gs[0].largest, key) then 0 else 1 + Reached(gs[1..], key)
  }

  /** Going on from where an earlier key led. */
  lemma ReachedFrom(gs: seq<File>, a: InternalKey, b: InternalKey, j: nat)
    requires Less(a, b) && Passes(gs, Reached(gs, a), j, b)
    ensures j == Reached(gs, b)
  {
    assert Passes(gs, 0, j, b);
  }

  /** The bytes of the grandparent files that end between two keys. */
  ghost function BytesBetween(gs: seq<File>, a: InternalKey, b: InternalKey): nat {
    if Reached(gs, a) <= Reached(gs, b) then TotalSize(gs[Reached(gs, a)..Reached(gs, b)]) else 0
  }

  /** An output table is not empty, was closed as soon as it was big enough, and does not stretch
      over too many bytes of grandparents. */
  ghost predicate GoodOutput(gs: seq<File>, maxFileSize: nat, fileSize: seq<Entry> -> nat, o: seq<Entry>) {
    && o != []
    && (|o| > 1 ==> fileSize(o[..|o| - 1]) < maxFileSize)
    && BytesBetween(gs, KeyOf(o[0]), KeyOf(o[|o| - 1])) <= MaxGrandParentOverlapBytes(maxFileSize)
  }

  /** The overlapped bytes counted when entry i is checked. */
  ghost function BytesAt(gs: seq<File>, maxFileSize: nat, input: seq<Entry>, i: nat): nat
    requires i < |input|
    decreases i, 1
  {
    Counted(gs, maxFileSize, input, i) + if i > 0 then BytesBetween(gs, KeyOf(input[i - 1]), KeyOf(input[i])) else 0
  }

  /** Entry i calls for a new output table. */
  ghost predicate StopsAt(gs: seq<File>, maxFileSize: nat, input: seq<Entry>, i: nat)
    requires i < |input|
    decreases i, 2
  {
    BytesAt(gs, maxFileSize, input, i) > MaxGrandParentOverlapBytes(maxFileSize)
  }

  /** The overlapped bytes once the first n entries have been checked. */
  ghost function Counted(gs: seq<File>, maxFileSize: nat, input: seq<Entry>, n: nat): nat
    requires n <= |input|
    decreases n, 0
  {
    if n == 0 || StopsAt(gs, maxFileSize, input, n - 1) then 0 else BytesAt(gs, maxFileSize, input, n - 1)
  }

  lemma CountedSmall(gs: seq<File>, maxFileSize: nat, input: seq<Entry>, n: nat)
    requires n <= |input|
    ensures Counted(gs, maxFileSize, input, n) <= MaxGrandParentOverlapBytes(maxFileSize)
  {
  }

  /** An entry of the input among the first n, behind o, calls for a new table. */
  ghost predicate StopBehind(gs: seq<File>, maxFileSize: nat, input: seq<Entry>, o: seq<Entry>, n: nat, i: nat) {
    o != [] && i < n && i < |input| && StopsAt(gs, maxFileSize, input, i) && Less(KeyOf(o[|o| - 1]), KeyOf(input[i]))
  }

  /** Table o was closed because it was big enough or an entry checked since called for a new one. */
  ghost predicate Closed(gs: seq<File>, maxFileSize: nat, fileSize: seq<Entry> -> nat, input: seq<Entry>, o: seq<Entry>, n: nat) {
    fileSize(o) >= maxFileSize || exists i: nat :: StopBehind(gs, maxFileSize, input, o, n, i)
  }

  /** ... and it did so no later than the first entry of the next table. */
  ghost predicate ClosedFor(gs: seq<File>, maxFileSize: nat, fileSize: seq<Entry> -> nat, input: seq<Entry>, o: seq<Entry>, next: Entry) {
    || fileSize(o) >= maxFileSize
    || exists i: nat :: StopBehind(gs, maxFileSize, input, o, |input|, i) && !Less(KeyOf(next), KeyOf(input[i]))
  }

  ghost predicate ClosedAt(gs: seq<File>, maxFileSize: nat, fileSize: seq<Entry> -> nat, input: seq<Entry>, outputs: seq<seq<Entry>>, k: nat) {
    k + 1 < |outputs| && outputs[k + 1] != [] ==> ClosedFor(gs, maxFileSize, fileSize, input, outputs[k], outputs[k + 1][0])
  }

  /** No table was closed without need. */
  ghost predicate ClosedInTime(gs: seq<File>, maxFileSize: nat, fileSize: seq<Entry> -> nat, input: seq<Entry>, outputs: seq<seq<Entry>>) {
    forall k {:trigger ClosedAt(gs, maxFileSize, fileSize, input, outputs, k)} :: 0 <= k < |outputs| ==> ClosedAt(gs, maxFileSize, fileSize, input, outputs, k)
  }

  ghost predicate GoodOutputs(gs: seq<File>, maxFileSize: nat, fileSize: seq<Entry> -> nat, input: seq<Entry>, outputs: seq<seq<Entry>>) {
    && (forall o :: o in outputs ==> GoodOutput(gs, maxFileSize, fileSize, o))
    && ClosedInTime(gs, maxFileSize, fileSize, input, outputs)
  }

  /** So far no table was closed without need; the last one was closed for the open table, or, if
      none is open, within the first n entries. */
  ghost predicate ClosedSoFar(gs: seq<File>, maxFileSize: nat, fileSize: seq<Entry> -> nat, input: seq<Entry>,
                              outputs: seq<seq<Entry>>, builder: seq<Entry>, n: nat) {
    && ClosedInTime(gs, maxFileSize, fileSize, input, outputs)
    && (outputs != [] ==>
          var o := outputs[|outputs| - 1];
          if builder == [] then Closed(gs, maxFileSize, fileSize, input, o, n)
          else ClosedFor(gs, maxFileSize, fileSize, input, o, builder[0]))
  }

  lemma CloseOne(gs: seq<File>, maxFileSize: nat, fileSize: seq<Entry> -> nat, input: seq<Entry>,
                 outputs: seq<seq<Entry>>, builder: seq<Entry>, n: nat)
    requires ClosedSoFar(gs, maxFileSize, fileSize, input, outputs, builder, n) && builder != []
    ensures ClosedInTime(gs, maxFileSize, fileSize, input, outputs + [builder])
  {
    var more := outputs + [builder];
    forall k {:trigger ClosedAt(gs, maxFileSize, fileSize, input, more, k)} | 0 <= k < |more|
      ensures ClosedAt(gs, maxFileSize, fileSize, input, more, k)
    {
      if k + 1 < |outputs| {
        assert ClosedAt(gs, maxFileSize, fileSize, input, outputs, k);
      }
    }
  }

  lemma OpenOne(gs: seq<File>, maxFileSize: nat, fileSize: seq<Entry> -> nat, input: seq<Entry>,
                outputs: seq<seq<Entry>>, builder: seq<Entry>, i: nat)
    requires Sorted(input) && i < |input| && ClosedSoFar(gs, maxFileSize, fileSize, input, outputs, builder, i + 1)
    ensures ClosedSoFar(gs, maxFileSize, fileSize, input, outputs, builder + [input[i]], i + 1)
  {
    if outputs != [] && builder == [] && fileSize(outputs[|outputs| - 1]) < maxFileSize {
      var o := outputs[|outputs| - 1];
      var j: nat :| StopBehind(gs, maxFileSize, input, o, i + 1, j);
      assert j < i ==> Less(KeyOf(input[j]), KeyOf(input[i]));
      assert StopBehind(gs, maxFileSize, input, o, |input|, j) && !Less(KeyOf(input[i]), KeyOf(input[j]));
    }
  }

  lemma StaysClosed(gs: seq<File>, maxFileSize: nat, fileSize: seq<Entry> -> nat, input: seq<Entry>,
                    outputs: seq<seq<Entry>>, builder: seq<Entry>, n: nat)
    requires ClosedSoFar(gs, maxFileSize, fileSize, input, outputs, builder, n)
    ensures ClosedSoFar(gs, maxFileSize, fileSize, input, outputs, builder, n + 1)
  {
    if outputs != [] && builder == [] && fileSize(outputs[|outputs| - 1]) < maxFileSize {
      var o := outputs[|outputs| - 1];
      var j: nat :| StopBehind(gs, maxFileSize, input, o, n, j);
      assert StopBehind(gs, maxFileSize, input, o, n + 1, j);
    }
  }

  /** What holds of the open output table: the grandparents it has met are among the bytes counted. */
  ghost predicate OpenOutput(gs: seq<File>, maxFileSize: nat, fileSize: seq<Entry> -> nat, o: seq<Entry>, index: nat, bytes: nat) {
    o != [] ==>
      && GoodOutput(gs, maxFileSize, fileSize, o) && fileSize(o) < maxFileSize
      && MetBytes(gs, o, index, bytes)
  }

  ghost predicate MetBytes(gs: seq<File>, o: seq<Entry>, index: nat, bytes: nat)
    requires o != []
  {
    Reached(gs, KeyOf(o[0])) <= index <= |gs| && TotalSize(gs[Reached(gs, KeyOf(o[0]))..index]) <= bytes
  }

  lemma {:induction false} TotalSizeSplit(fs: seq<File>, i: nat, j: nat, k: nat)
    requires i <= j <= k <= |fs|
    ensures TotalSize(fs[i..k]) == TotalSize(fs[i..j]) + TotalSize(fs[j..k])
    decreases k
  {
    if j < k {
      TotalSizeSplit(fs, i, j, k - 1);
      TotalSizeAppend(fs[i..k - 1], fs[k - 1]);
      TotalSizeAppend(fs[j..k - 1], fs[k - 1]);
      assert fs[i..k] == fs[i..k - 1] + [fs[k - 1]] && fs[j..k] == fs[j..k - 1] + [fs[k - 1]];
    }
  }

  /** The open table goes on past more grandparents. */
  lemma OpenPasses(gs: seq<File>, maxFileSize: nat, fileSize: seq<Entry> -> nat, o: seq<Entry>, index: nat, bytes: nat, index': nat)
    requires OpenOutput(gs, maxFileSize, fileSize, o, index, bytes) && index <= index' <= |gs|
    ensures OpenOutput(gs, maxFileSize, fileSize, o, index', bytes + TotalSize(gs[index..index']))
  {
    if o != [] {
      TotalSizeSplit(gs, Reached(gs, KeyOf(o[0])), index, index');
    }
  }

  /** The open table takes the entry whose key led to index. */
  lemma OpenTakes(gs: seq<File>, maxFileSize: nat, fileSize: seq<Entry> -> nat, o: seq<Entry>, index: nat, bytes: nat, e: Entry)
    requires OpenOutput(gs, maxFileSize, fileSize, o, index, bytes) && index == Reached(gs, KeyOf(e))
    requires bytes <= MaxGrandParentOverlapBytes(maxFileSize)
    ensures GoodOutput(gs, maxFileSize, fileSize, o + [e]) && MetBytes(gs, o + [e], index, bytes)
  {
    assert (o + [e])[..|o|] == o;
  }

  /** The state a compaction keeps while its merged input goes by in key order. */
  class Compaction {
    const v: Version
    const level: nat
    const grandparents: seq<File>
    const maxFileSize: nat
    const levelPtrs: array<nat>
    var grandparentIndex: nat
    var seenKey: bool
    var overlappedBytes: nat
    ghost var lastKey: Option<UserKey>

    constructor (v: Version, level: nat, grandparents: seq<File>, maxFileSize: nat)
      requires WellFormed(v) && level + 1 < NUM_LEVELS
      ensures Valid() && fresh(levelPtrs) && lastKey == None && grandparentIndex == 0 && !seenKey && overlappedBytes == 0
      ensures this.v == v && this.level == level && this.grandparents == grandparents && this.maxFileSize == maxFileSize
    {
      this.v, this.level, this.grandparents, this.maxFileSize := v, level, grandparents, maxFileSize;
      levelPtrs := new nat[NUM_LEVELS](i => 0);
      grandparentIndex, seenKey, overlappedBytes := 0, false, 0;
      lastKey := None;
    }

    /** Every file a level pointer has passed ends before the last key asked about. */
    ghost predicate Valid()
      reads this, levelPtrs
    {
      && WellFormed(v)
      && level + 1 < NUM_LEVELS
      && levelPtrs.Length == NUM_LEVELS
      && grandparentIndex <= |grandparents|
      && forall l :: 0 <= l < NUM_LEVELS ==> levelPtrs[l] <= |v[l]| && Passed(l, levelPtrs[l], lastKey)
    }

    ghost predicate Passed(l: nat, n: nat, k: Option<UserKey>)
      requires l < |v| && n <= |v[l]|
    {
      forall i :: 0 <= i < n ==> k.Some? && v[l][i].largest.user < k.value
    }

    /** Moves one level's pointer to the first file that does not end before k. */
    method Advance(l: nat, k: UserKey) returns (covered: bool)
      requires Valid() && 1 <= l < NUM_LEVELS && lastKey == Some(k)
      modifies levelPtrs
      ensures Valid()
      ensures covered <==> exists f :: f in v[l] && Covers(f, k)
    {
      LevelsDisjointSorted(v, l);
      while levelPtrs[l] < |v[l]|
        invariant Valid()
        decreases |v[l]| - levelPtrs[l]
      {
        var f := v[l][levelPtrs[l]];
        if k <= f.largest.user {
          covered := k >= f.smallest.user;
          StoppedAt(v[l], levelPtrs[l], k);
          return;
        }
        levelPtrs[l] := levelPtrs[l] + 1;
      }
      covered := false;
    }

    /** The moving level pointers answer like a full scan of all deeper levels, provided the user
        keys arrive in non-decreasing order. */
    method IsBaseLevelForKey(k: UserKey) returns (r: bool)
      requires Valid() && (lastKey.Some? ==> lastKey.value <= k)
      modifies this, levelPtrs
      ensures Valid() && lastKey == Some(k)
      ensures unchanged(this`grandparentIndex, this`seenKey, this`overlappedBytes)
      ensures r == BaseLevel(v, level, k)
    {
      lastKey := Some(k);
      for l := level + 2 to NUM_LEVELS
        invariant Valid() && lastKey == Some(k)
        invariant unchanged(this`grandparentIndex, this`seenKey, this`overlappedBytes)
        invariant forall m, f :: At(v, m, f) && level + 2 <= m < l ==> !Covers(f, k)
      {
        var covered := Advance(l, k);
        if covered {
          assert exists f :: At(v, l, f) && Covers(f, k);
          return false;
        }
      }
      return true;
    }

    /** Passes the grandparent files that end before the key, and says whether the files passed
        since the last stop, not counting those before the first key, are too many bytes for one
        output file. */
    method ShouldStopBefore(key: InternalKey) returns (stop: bool)
      requires Valid()
      modifies this`grandparentIndex, this`seenKey, this`overlappedBytes
      ensures Valid() && seenKey
      ensures Passes(grandparents, old(grandparentIndex), grandparentIndex, key)
      ensures var bytes := old(overlappedBytes) + PassedBytes(grandparents, old(grandparentIndex), grandparentIndex, old(seenKey));
        && (stop <==> bytes > MaxGrandParentOverlapBytes(maxFileSize))
        && overlappedBytes == if stop then 0 else bytes
    {
      ghost var was := grandparentIndex;
      while grandparentIndex < |grandparents| && Less(grandparents[grandparentIndex].largest, key)
        invariant Valid() && was <= grandparentIndex && seenKey == old(seenKey)
        invariant forall i :: was <= i < grandparentIndex ==> Less(grandparents[i].largest, key)
        invariant overlappedBytes == old(overlappedBytes) + PassedBytes(grandparents, was, grandparentIndex, seenKey)
        decreases |grandparents| - grandparentIndex
      {
        PassOne(grandparents, was, grandparentIndex, seenKey);
        if seenKey {
          overlappedBytes := overlappedBytes + grandparents[grandparentIndex].size;
        }
        grandparentIndex := grandparentIndex + 1;
      }
      seenKey := true;
      if overlappedBytes > MaxGrandParentOverlapBytes(maxFileSize) {
        overlappedBytes := 0;
        return true;
      }
      return false;
    }
  }

  /** Files are sorted, so the first file that does not end before k is the only one to ask. */
  lemma StoppedAt(fs: seq<File>, n: nat, k: UserKey)
    requires ValidFiles(fs) && DisjointSorted(fs) && n < |fs| && k <= fs[n].largest.user
    requires forall i :: 0 <= i < n ==> fs[i].largest.user < k
    ensures k >= fs[n].smallest.user <==> exists f :: f in fs && Covers(f, k)
  {
    FilesBounded(fs);
    assert fs[n] in fs;
    if k >= fs[n].smallest.user {
      assert Covers(fs[n], k);
    }
    if f :| f in fs && Covers(f, k) {
      var i :| 0 <= i < |fs| && fs[i] == f;
      if i > n {
        assert Less(fs[n].largest, fs[i].smallest);
      }
    }
  }

  /** The drop decision of one iteration: currentUserKey and lastSequence describe the entry
      before this one. */
  method ShouldDrop(c: Compaction, ghost input: seq<Entry>, ghost i: nat, e: Entry, snap: nat, lastSequence: nat)
    returns (drop: bool)
    requires c.Valid() && Sorted(input) && i < |input| && input[i] == e
    requires c.lastKey.Some? ==> i > 0 && c.lastKey.value <= input[i - 1].user
    requires snap < MAX_SEQUENCE
    requires lastSequence == if i > 0 && input[i - 1].user == e.user then input[i - 1].num else MAX_SEQUENCE
    modifies c, c.levelPtrs
    ensures c.Valid() && (c.lastKey.Some? ==> c.lastKey.value <= e.user)
    ensures unchanged(c`grandparentIndex, c`seenKey, c`overlappedBytes)
    ensures drop == Dropped(c.v, c.level, input, snap, i)
  {
    assert i > 0 ==> Less(KeyOf(input[i - 1]), KeyOf(e));
    if lastSequence <= snap {
      return true;
    }
    if e.op.Del? && e.num <= snap {
      drop := c.IsBaseLevelForKey(e.user);
    } else {
      drop := false;
    }
  }

  /** The open table ends no later than the last entry checked. */
  ghost predicate LastSeen(input: seq<Entry>, builder: seq<Entry>, n: nat) {
    builder != [] ==> 0 < n <= |input| && !Less(KeyOf(input[n - 1]), KeyOf(builder[|builder| - 1]))
  }

  lemma StopCloses(gs: seq<File>, maxFileSize: nat, fileSize: seq<Entry> -> nat, input: seq<Entry>,
                   outputs: seq<seq<Entry>>, builder: seq<Entry>, i: nat)
    requires Sorted(input) && i < |input| && builder != [] && LastSeen(input, builder, i) && StopsAt(gs, maxFileSize, input, i)
    requires ClosedSoFar(gs, maxFileSize, fileSize, input, outputs, builder, i)
    ensures ClosedSoFar(gs, maxFileSize, fileSize, input, outputs + [builder], [], i + 1)
  {
    CloseOne(gs, maxFileSize, fileSize, input, outputs, builder, i);
    assert Less(KeyOf(input[i - 1]), KeyOf(input[i]));
    assert StopBehind(gs, maxFileSize, input, builder, i + 1, i);
  }

  /** The output tables once the first n entries have been checked. */
  ghost predicate Writing(c: Compaction, input: seq<Entry>, fileSize: seq<Entry> -> nat, n: nat,
                          outputs: seq<seq<Entry>>, builder: seq<Entry>)
    reads c`grandparentIndex, c`seenKey, c`overlappedBytes
  {
    && n <= |input|
    && (c.seenKey <==> n > 0)
    && c.grandparentIndex == (if n == 0 then 0 else Reached(c.grandparents, KeyOf(input[n - 1])))
    && c.overlappedBytes == Counted(c.grandparents, c.maxFileSize, input, n)
    && (forall o :: o in outputs ==> GoodOutput(c.grandparents, c.maxFileSize, fileSize, o))
    && OpenOutput(c.grandparents, c.maxFileSize, fileSize, builder, c.grandparentIndex, c.overlappedBytes)
    && ClosedSoFar(c.grandparents, c.maxFileSize, fileSize, input, outputs, builder, n)
    && LastSeen(input, builder, n)
  }

  /** The check before entry i; where there is too much overlap the open table is closed. */
  method CloseBefore(c: Compaction, ghost input: seq<Entry>, ghost fileSize: seq<Entry> -> nat, ghost i: nat,
                     e: Entry, outputs: seq<seq<Entry>>, builder: seq<Entry>)
    returns (outputs': seq<seq<Entry>>, builder': seq<Entry>)
    requires c.Valid() && Writing(c, input, fileSize, i, outputs, builder)
    requires Sorted(input) && i < |input| && input[i] == e
    modifies c`grandparentIndex, c`seenKey, c`overlappedBytes
    ensures c.Valid() && Writing(c, input, fileSize, i + 1, outputs', builder')
    ensures Flatten(outputs') + builder' == Flatten(outputs) + builder
  {
    ghost var index, bytes := c.grandparentIndex, c.overlappedBytes;
    var stop := c.ShouldStopBefore(KeyOf(e));
    if i > 0 {
      assert Less(KeyOf(input[i - 1]), KeyOf(input[i]));
      ReachedFrom(c.grandparents, KeyOf(input[i - 1]), KeyOf(e), c.grandparentIndex);
      OpenPasses(c.grandparents, c.maxFileSize, fileSize, builder, index, bytes, c.grandparentIndex);
    }
    assert stop <==> StopsAt(c.grandparents, c.maxFileSize, input, i);
    if stop && builder != [] {
      StopCloses(c.grandparents, c.maxFileSize, fileSize, input, outputs, builder, i);
      outputs', builder' := FinishOutput(outputs, builder), [];
    } else {
      StaysClosed(c.grandparents, c.maxFileSize, fileSize, input, outputs, builder, i);
      outputs', builder' := outputs, builder;
    }
  }

  /** Adds entry i to the open table and closes it if it is big enough. */
  method AddToOutput(c: Compaction, ghost input: seq<Entry>, fileSize: seq<Entry> -> nat, ghost i: nat, e: Entry,
                     outputs: seq<seq<Entry>>, builder: seq<Entry>)
    returns (outputs': seq<seq<Entry>>, builder': seq<Entry>)
    requires Sorted(input) && i < |input| && input[i] == e && Writing(c, input, fileSize, i + 1, outputs, builder)
    ensures Writing(c, input, fileSize, i + 1, outputs', builder')
    ensures Flatten(outputs') + builder' == Flatten(outputs) + builder + [e]
  {
    CountedSmall(c.grandparents, c.maxFileSize, input, i + 1);
    OpenTakes(c.grandparents, c.maxFileSize, fileSize, builder, c.grandparentIndex, c.overlappedBytes, e);
    OpenOne(c.grandparents, c.maxFileSize, fileSize, input, outputs, builder, i);
    outputs', builder' := outputs, builder + [e];
    if fileSize(builder') >= c.maxFileSize {
      CloseOne(c.grandparents, c.maxFileSize, fileSize, input, outputs, builder', i + 1);
      outputs', builder' := FinishOutput(outputs', builder'), [];
    }
  }

  /** Where DoCompactionWork stands after the first i entries. */
  ghost predicate Working(c: Compaction, input: seq<Entry>, snap: nat, fileSize: seq<Entry> -> nat, i: nat,
                          outputs: seq<seq<Entry>>, builder: seq<Entry>, currentUserKey: Option<UserKey>, lastSequenceForKey: nat)
    reads c, c.levelPtrs
  {
    && c.Valid() && i <= |input|
    && (c.lastKey.Some? ==> i > 0 && c.lastKey.value <= input[i - 1].user)
    && currentUserKey == (if i == 0 then None else Some(input[i - 1].user))
    && (i > 0 ==> lastSequenceForKey == input[i - 1].num)
    && Flatten(outputs) + builder == Kept(c.v, c.level, input, snap, i)
    && Writing(c, input, fileSize, i, outputs, builder)
  }

  /** One turn of the loop. */
  method WorkOn(c: Compaction, ghost input: seq<Entry>, snap: nat, fileSize: seq<Entry> -> nat, ghost i: nat, e: Entry,
                outputs: seq<seq<Entry>>, builder: seq<Entry>, currentUserKey: Option<UserKey>, lastSequenceForKey: nat)
    returns (outputs': seq<seq<Entry>>, builder': seq<Entry>, currentUserKey': Option<UserKey>, lastSequenceForKey': nat)
    requires Working(c, input, snap, fileSize, i, outputs, builder, currentUserKey, lastSequenceForKey)
    requires Sorted(input) && i < |input| && input[i] == e && snap < MAX_SEQUENCE
    modifies c, c.levelPtrs
    ensures Working(c, input, snap, fileSize, i + 1, outputs', builder', currentUserKey', lastSequenceForKey')
  {
    outputs', builder' := CloseBefore(c, input, fileSize, i, e, outputs, builder);
    currentUserKey', lastSequenceForKey' := currentUserKey, lastSequenceForKey;
    if currentUserKey' != Some(e.user) {
      currentUserKey' := Some(e.user);
      lastSequenceForKey' := MAX_SEQUENCE;
    }
    var drop := ShouldDrop(c, input, i, e, snap, lastSequenceForKey');
    lastSequenceForKey' := e.num;
    if !drop {
      outputs', builder' := AddToOutput(c, input, fileSize, i, e, outputs', builder');
    }
  }

  /** DoCompactionWork's loop over the merged input.  fileSize gives the size of an output table
      holding the given entries.  The outputs hold the entries kept, in order, each is a good one, and
      none was closed without need. */
  method DoCompactionWork(c: Compaction, input: seq<Entry>, snap: nat, fileSize: seq<Entry> -> nat)
    returns (outputs: seq<seq<Entry>>)
    requires c.Valid() && c.lastKey.None? && !c.seenKey && c.grandparentIndex == 0 && c.overlappedBytes == 0 && Sorted(input)
    requires snap < MAX_SEQUENCE
    modifies c, c.levelPtrs
    ensures Flatten(outputs) == Kept(c.v, c.level, input, snap, |input|)
    ensures GoodOutputs(c.grandparents, c.maxFileSize, fileSize, input, outputs)
  {
    outputs := [];
    var builder: seq<Entry> := [];
    var currentUserKey: Option<UserKey> := None;
    var lastSequenceForKey := MAX_SEQUENCE;
    for i := 0 to |input|
      invariant Working(c, input, snap, fileSize, i, outputs, builder, currentUserKey, lastSequenceForKey)
    {
      outputs, builder, currentUserKey, lastSequenceForKey :=
        WorkOn(c, input, snap, fileSize, i, input[i], outputs, builder, currentUserKey, lastSequenceForKey);
    }
    if builder != [] {
      CloseOne(c.grandparents, c.maxFileSize, fileSize, input, outputs, builder, |input|);
      outputs := FinishOutput(outputs, builder);
    }
  }

  /** FinishCompactionOutputFile: the open builder becomes one more output table. */
  function FinishOutput(outputs: seq<seq<Entry>>, builder: seq<Entry>): (r: seq<seq<Entry>>)
    ensures r == outputs + [builder] && Flatten(r) == Flatten(outputs) + builder
    ensures forall o :: o in r <==> o in outputs || o == builder
  {
    assert (outputs + [builder])[..|outputs|] == outputs;
    outputs + [builder]
  }
}
