/** The iterator over a block (table/block.cc).  Its methods run on any bytes; on a block made by
    BlockBuilder they are a cursor over the entries that were added. */
module BlockIterators {
  import opened DbFormat
  import opened Coding
  import opened Blocks

  ghost predicate Transitive(less: (Bytes, Bytes) -> bool) {
    forall a, b, c :: less(a, b) && less(b, c) ==> less(a, c)
  }

  lemma {:induction false} SortedPair(es: seq<Pair>, less: (Bytes, Bytes) -> bool, i: nat, j: nat)
    requires Increasing(es, less) && Transitive(less) && i < j < |es|
    ensures less(es[i].key, es[j].key)
    decreases j
  {
    NextPair(es, less, j);
    if i < j - 1 {
      SortedPair(es, less, i, j - 1);
      Through(less, es[i].key, es[j - 1].key, es[j].key);
    }
  }

  lemma NextPair(es: seq<Pair>, less: (Bytes, Bytes) -> bool, j: nat)
    requires Increasing(es, less) && 0 < j < |es|
    ensures less(es[j - 1].key, es[j].key)
  {
    assert es[j] == es[j];
    assert less(PreviousKey(es, j), es[j].key);
  }

  lemma Through(less: (Bytes, Bytes) -> bool, a: Bytes, b: Bytes, c: Bytes)
    requires Transitive(less) && less(a, b) && less(b, c)
    ensures less(a, c)
  {
  }

  ghost predicate AllBelow(es: seq<Pair>, less: (Bytes, Bytes) -> bool, target: Bytes, n: nat) {
    n <= |es| && forall j {:trigger es[j]} :: 0 <= j < n ==> less(es[j].key, target)
  }

  /** The first entry whose key is not below the target, or the end. */
  ghost predicate FirstNotBelow(es: seq<Pair>, less: (Bytes, Bytes) -> bool, target: Bytes, i: nat) {
    AllBelow(es, less, target, i) && (i < |es| ==> !less(es[i].key, target))
  }

  // ---- Layout ----

  /** Where things lie in a block: the offset of every entry (and of the end), how much of the
      previous key each shares, and the entries that are restart points. */
  datatype Plan = Plan(offs: seq<nat>, shared: seq<nat>, points: seq<nat>)

  /** The bytes hold entry i where the plan says. */
  ghost predicate EntryOk(data: Bytes, restarts: nat, es: seq<Pair>, p: Plan, i: nat)
    requires i < |es| && |p.offs| == |es| + 1 && |p.shared| == |es|
  {
    && p.offs[i] < p.offs[i + 1] <= restarts <= |data|
    && SharesOk(es, p, i)
    && ReadsEntry(data, restarts, p.offs[i], p.offs[i + 1], DecodeEntry(data[p.offs[i]..restarts]), p.shared[i],
                  PreviousKey(es, i), es[i])
  }

  ghost predicate SharesOk(es: seq<Pair>, p: Plan, i: nat)
    requires i < |es| && |p.shared| == |es|
  {
    && p.shared[i] <= |PreviousKey(es, i)| && p.shared[i] <= |es[i].key|
    && PreviousKey(es, i)[..p.shared[i]] == es[i].key[..p.shared[i]]
  }

  /** The lengths read lead from the previous key to the entry, and to the end of its value. */
  ghost predicate ReadsEntry(data: Bytes, restarts: nat, off: nat, next: nat, l: Option<Lengths>, shared: nat, before: Bytes, e: Pair)
    requires shared <= |before| && off <= next <= restarts <= |data|
    requires l.Some? ==> l.value.unshared + l.value.size <= |l.value.rest|
  {
    l.Some? && l.value.shared == shared && |l.value.rest| <= restarts &&
    var at := restarts - |l.value.rest| + l.value.unshared;
    && off < at && at + l.value.size == next
    && e.key == before[..shared] + l.value.rest[..l.value.unshared] && data[at..next] == e.value
  }

  ghost predicate PointOk(data: Bytes, restarts: nat, es: seq<Pair>, p: Plan, j: nat)
    requires |p.offs| == |es| + 1 && |p.shared| == |es|
  {
    && j < |p.points| && p.points[j] <= |es| && restarts + 4 * j + 4 <= |data|
    && RestartPoint(data, restarts, j) == p.offs[p.points[j]]
    && (es != [] ==> p.points[j] < |es| && p.shared[p.points[j]] == 0)
  }

  ghost predicate Ascending(points: seq<nat>) {
    forall a, b {:trigger points[a], points[b]} :: 0 <= a < b < |points| ==> points[a] < points[b]
  }

  /** data is a block of the entries es. */
  ghost predicate Layout(data: Bytes, restarts: nat, num: nat, es: seq<Pair>, p: Plan) {
    && |p.offs| == |es| + 1 && |p.shared| == |es| && |p.points| == num > 0
    && p.offs[0] == 0 && p.offs[|es|] == restarts && p.points[0] == 0 && (es == [] ==> num == 1)
    && Ascending(p.points)
    && (forall i {:trigger EntryOk(data, restarts, es, p, i)} :: 0 <= i < |es| ==> EntryOk(data, restarts, es, p, i))
    && (forall j {:trigger PointOk(data, restarts, es, p, j)} :: 0 <= j < num ==> PointOk(data, restarts, es, p, j))
  }

  /** Offsets order the entries. */
  lemma {:induction false} OffsetsIncrease(data: Bytes, restarts: nat, num: nat, es: seq<Pair>, p: Plan, i: nat, j: nat)
    requires Layout(data, restarts, num, es, p) && i < j <= |es|
    ensures p.offs[i] < p.offs[j]
    decreases j
  {
    assert EntryOk(data, restarts, es, p, j - 1);
    if i < j - 1 {
      OffsetsIncrease(data, restarts, num, es, p, i, j - 1);
    }
  }

  lemma OffsetOrder(data: Bytes, restarts: nat, num: nat, es: seq<Pair>, p: Plan, i: nat, j: nat)
    requires Layout(data, restarts, num, es, p) && i <= |es| && j <= |es|
    ensures p.offs[i] < p.offs[j] <==> i < j
  {
    if i < j {
      OffsetsIncrease(data, restarts, num, es, p, i, j);
    } else if j < i {
      OffsetsIncrease(data, restarts, num, es, p, j, i);
    }
  }

  // ---- Blocks made by the builder have the layout ----

  function BuilderPlan(es: seq<Pair>, k: nat): Plan
    requires k >= 1
  {
    Plan(seq(|es| + 1, i requires 0 <= i <= |es| => Offset(es, k, i)),
         seq(|es|, i requires 0 <= i < |es| => Shared(es, k, i)), Points(k, |es|))
  }

  lemma PlanOffset(es: seq<Pair>, k: nat, i: nat)
    requires k >= 1 && i <= |es|
    ensures |BuilderPlan(es, k).offs| == |es| + 1 && BuilderPlan(es, k).offs[i] == Offset(es, k, i)
  {
  }

  /** Prefix compression: the bytes of the entries so far bound the length of a key. */
  lemma {:induction false} KeyWithinOffset(es: seq<Pair>, k: nat, i: nat)
    requires k >= 1 && i < |es|
    ensures |es[i].key| + |es[i].value| <= Offset(es, k, i + 1)
    decreases i
  {
    var s := Shared(es, k, i);
    EntryLength(s, es[i].key, es[i].value);
    assert Offset(es, k, i + 1) == Offset(es, k, i) + |EntryBytes(s, es[i].key, es[i].value)|;
    if i > 0 {
      KeyWithinOffset(es, k, i - 1);
      assert PreviousKey(es, i) == es[i - 1].key;
    }
  }

  lemma EntryLength(shared: nat, key: Bytes, value: Bytes)
    requires shared <= |key|
    ensures |EntryBytes(shared, key, value)| >= |key| - shared + |value|
  {
  }

  lemma TakeApart(a: Bytes, b: Bytes, c: Bytes)
    ensures var d := a + b + c; d[..|a|] == a && d[|a|..|a| + |b|] == b && d[|a| + |b|..] == c
  {
  }

  /** The entry that DecodeEntry finds at an offset. */
  lemma DecodeBuilt(es: seq<Pair>, k: nat, i: nat)
    requires k >= 1 && i < |es| && Offset(es, k, |es|) < WORD32
    ensures Offset(es, k, i) < Offset(es, k, i + 1) <= Offset(es, k, |es|)
    ensures var s, e := Shared(es, k, i), es[i];
      DecodeEntry(Body(es, k, |es|)[Offset(es, k, i)..]) ==
        Some(Lengths(s, |e.key| - s, |e.value|, e.key[s..] + e.value + Body(es, k, |es|)[Offset(es, k, i + 1)..]))
  {
    var s, e, body := Shared(es, k, i), es[i], Body(es, k, |es|);
    OffsetsGrow(es, k, i, i + 1);
    EntryAtOffset(es, k, i);
    KeyWithinOffset(es, k, i);
    EntryRoundTrip(s, e.key, e.value, body[Offset(es, k, i)..], body[Offset(es, k, i + 1)..]);
  }

  /** Bytes that decode as an entry read as that entry. */
  lemma DecodedReads(data: Bytes, restarts: nat, off: nat, next: nat, shared: nat, before: Bytes, e: Pair)
    requires shared <= |before| && shared <= |e.key| && before[..shared] == e.key[..shared]
    requires off < next <= restarts <= |data|
    requires DecodeEntry(data[off..restarts]) ==
             Some(Lengths(shared, |e.key| - shared, |e.value|, e.key[shared..] + e.value + data[next..restarts]))
    ensures ReadsEntry(data, restarts, off, next, DecodeEntry(data[off..restarts]), shared, before, e)
  {
    var l := DecodeEntry(data[off..restarts]).value;
    var tail := data[next..restarts];
    TakeApart(e.key[shared..], e.value, tail);
    KeyRebuilt(before, e.key, shared);
    var at := restarts - |l.rest| + l.unshared;
    RestOfInput(data, off, restarts, l);
    SubSlice(data, restarts - |l.rest|, restarts, l.unshared, l.unshared + l.size);
    assert |l.rest| < restarts - off;
  }

  lemma SubSlice(data: Bytes, from: nat, to: nat, i: nat, j: nat)
    requires from <= to <= |data| && i <= j <= to - from
    ensures data[from..to][i..j] == data[from + i..from + j]
  {
    var a, b := data[from..to][i..j], data[from + i..from + j];
    assert |a| == |b| && forall t :: 0 <= t < |a| ==> a[t] == b[t];
  }

  /** DecodeEntry returns a suffix of its input. */
  lemma RestOfInput(data: Bytes, from: nat, to: nat, l: Lengths)
    requires from <= to <= |data| && DecodeEntry(data[from..to]) == Some(l)
    ensures |l.rest| <= to - from && data[to - |l.rest|..to] == l.rest
  {
    var p := data[from..to];
    FastPathAgrees(p);
    SuffixRead(p);
    var q := GetVarint32(p).value.1;
    SuffixRead(q);
    SuffixRead(GetVarint32(q).value.1);
    assert p[|p| - |l.rest|..] == l.rest;
    SubSlice(data, from, to, |p| - |l.rest|, |p|);
  }

  lemma SuffixRead(p: Bytes)
    requires GetVarint32(p).Some?
    ensures var q := GetVarint32(p).value.1; p[|p| - |q|..] == q
  {
    SuffixOfVarint(p, 5);
  }

  lemma {:induction false} SuffixOfVarint(p: Bytes, limit: nat)
    requires ReadVarint(p, limit).Some?
    ensures var q := ReadVarint(p, limit).value.1; p[|p| - |q|..] == q
    decreases limit
  {
    if p[0] >= 128 {
      SuffixOfVarint(p[1..], limit - 1);
    }
  }

  lemma BuiltEntry(es: seq<Pair>, k: nat, i: nat)
    requires k >= 1 && |Block(es, k)| < WORD32 && i < |es|
    ensures EntryOk(Block(es, k), Offset(es, k, |es|), es, BuilderPlan(es, k), i)
  {
    var data, at, p := Block(es, k), Offset(es, k, |es|), BuilderPlan(es, k);
    OpenBlock(es, k);
    DecodeBuilt(es, k, i);
    PlanOffset(es, k, i);
    PlanOffset(es, k, i + 1);
    SubSlice(data, 0, at, Offset(es, k, i), at);
    SubSlice(data, 0, at, Offset(es, k, i + 1), at);
    DecodedReads(data, at, p.offs[i], p.offs[i + 1], p.shared[i], PreviousKey(es, i), es[i]);
  }

  /** The block of any entries and restart interval has the layout the iterator relies on. */
  lemma BlockLayout(es: seq<Pair>, k: nat)
    requires k >= 1 && |Block(es, k)| < WORD32
    ensures Open(Block(es, k)) == Opened(Offset(es, k, |es|), |Points(k, |es|)|)
    ensures Layout(Block(es, k), Offset(es, k, |es|), |Points(k, |es|)|, es, BuilderPlan(es, k))
  {
    var data, at, p := Block(es, k), Offset(es, k, |es|), BuilderPlan(es, k);
    OpenBlock(es, k);
    forall i {:trigger EntryOk(data, at, es, p, i)} | 0 <= i < |es|
      ensures EntryOk(data, at, es, p, i)
    {
      BuiltEntry(es, k, i);
    }
    forall j {:trigger PointOk(data, at, es, p, j)} | 0 <= j < |p.points|
      ensures PointOk(data, at, es, p, j)
    {
      RestartPointOfBlock(es, k, j);
      if es != [] && p.points[j] == 0 {
        assert PreviousKey(es, 0) == [];
      }
    }
    assert p.offs[0] == |Body(es, k, 0)| == 0;
    PointsAscend(k, |es|);
  }

  lemma PointsAscend(k: nat, n: nat)
    requires k >= 1
    ensures Ascending(Points(k, n))
  {
    forall a, b | 0 <= a < b < |Points(k, n)|
      ensures Points(k, n)[a] < Points(k, n)[b]
    {
      PointsIncrease(k, n, a, b);
    }
  }

  // ---- Restart groups ----

  /** Entry i is a restart point. */
  ghost predicate IsPoint(points: seq<nat>, i: nat) {
    exists j :: 0 <= j < |points| && points[j] == i
  }

  /** Entry i lies between restart point r and the next. */
  ghost predicate InGroup(points: seq<nat>, r: nat, i: nat) {
    r < |points| && points[r] <= i && (r + 1 < |points| ==> i < points[r + 1])
  }

  /** ... or is the next. */
  ghost predicate NearGroup(points: seq<nat>, r: nat, i: nat) {
    r < |points| && points[r] <= i && (r + 1 < |points| ==> i <= points[r + 1])
  }

  /** Where the loop stops that raises the index while the point after it lies before the entry. */
  lemma GroupExactlyIf(points: seq<nat>, from: nat, r: nat, i: nat)
    requires Ascending(points) && NearGroup(points, r, i) && from <= r
    requires points[from] <= i && (r == from || points[r] < i)
    ensures InGroup(points, r, i) <==> points[from] == i || !IsPoint(points, i)
  {
    if IsPoint(points, i) && InGroup(points, r, i) {
      var j :| 0 <= j < |points| && points[j] == i;
      assert j == r;
    }
  }

  lemma InsideIsNoPoint(points: seq<nat>, r: nat, i: nat)
    requires Ascending(points) && InGroup(points, r, i) && points[r] < i
    ensures !IsPoint(points, i)
  {
    forall j | 0 <= j < |points|
      ensures points[j] != i
    {
    }
  }

  // ---- The iterator ----

  class BlockIter {
    const data: Bytes
    const restarts: nat
    const num: nat
    const less: (Bytes, Bytes) -> bool
    /** If built, data is a block of the entries es. */
    ghost const built: bool
    ghost const es: seq<Pair>
    ghost const plan: Plan
    var current: nat
    var restartIndex: nat
    var key: Bytes
    var valueAt: nat
    var valueSize: nat
    var corrupt: bool
    /** On a built block, the number of the current entry. */
    ghost var pos: nat

    ghost predicate Sized() {
      num > 0 && Open(data) == Opened(restarts, num) && (built ==> Layout(data, restarts, num, es, plan))
    }

    /** At an entry the restart index and the value are in range. */
    ghost predicate Valid()
      reads this
    {
      && Sized() && current <= restarts
      && (current < restarts ==> restartIndex < num && current < valueAt && valueAt + valueSize <= restarts)
      && (built ==> On(pos))
      && (built && pos < |es| ==> NearGroup(plan.points, restartIndex, pos))
    }

    /** On a built block, the restart index is that of the restart group of the current entry. */
    ghost predicate AtGroup()
      reads this
    {
      built ==> InGroup(plan.points, restartIndex, pos)
    }

    predicate AtEntry()
      reads this
    {
      current < restarts
    }

    /** Standing on entry i of a built block, or behind its last. */
    ghost predicate On(i: nat)
      requires built && Sized()
      reads this
    {
      && i <= |es| && !corrupt && current == plan.offs[i]
      && (i < |es| ==>
            && key == es[i].key && valueAt <= valueAt + valueSize == plan.offs[i + 1] <= |data|
            && data[valueAt..plan.offs[i + 1]] == es[i].value)
    }

    /** ParseNextKey would move to entry i of a built block. */
    ghost predicate Before(i: nat)
      requires Sized()
      reads this
    {
      built ==>
        && i <= |es| && !corrupt && valueAt + valueSize == plan.offs[i]
        && (i < |es| ==> plan.shared[i] <= |key| && plan.shared[i] <= |es[i].key| && key[..plan.shared[i]] == es[i].key[..plan.shared[i]])
    }

    /** NewIterator; a new iterator is at no entry. */
    constructor (data: Bytes, restarts: nat, num: nat, less: (Bytes, Bytes) -> bool, ghost built: bool, ghost es: seq<Pair>, ghost plan: Plan)
      requires Open(data) == Opened(restarts, num)
      requires built ==> Layout(data, restarts, num, es, plan)
      ensures Valid() && !AtEntry() && !corrupt && this.built == built && this.es == es
      ensures this.data == data && this.less == less
    {
      this.data, this.restarts, this.num, this.less := data, restarts, num, less;
      this.built, this.es, this.plan, pos := built, es, plan, |es|;
      current, restartIndex, key, valueAt, valueSize, corrupt := restarts, num, [], 0, 0, false;
    }

    function NextEntryOffset(): nat
      reads this
    {
      valueAt + valueSize
    }

    function GetRestartPoint(j: nat): nat
      requires Sized() && j < num
    {
      RestartPoint(data, restarts, j)
    }

    function Value(): (v: Bytes)
      requires Valid() && AtEntry()
      reads this
      ensures built && pos < |es| ==> v == es[pos].value
    {
      data[valueAt..valueAt + valueSize]
    }

    /** On a built block the iterator is at an entry exactly if its position is one. */
    lemma EntryIffInside()
      requires Valid() && built
      ensures AtEntry() <==> pos < |es|
      ensures AtEntry() ==> key == es[pos].key
    {
      OffsetOrder(data, restarts, num, es, plan, pos, |es|);
    }

    /** The entry at a restart point of a built block. */
    ghost function Point(j: nat): nat {
      if j < |plan.points| then plan.points[j] else 0
    }

    method SeekToRestartPoint(j: nat)
      requires Sized() && j < num && (built ==> !corrupt)
      modifies this`key, this`restartIndex, this`valueAt, this`valueSize
      ensures key == [] && restartIndex == j && valueAt == GetRestartPoint(j) && valueSize == 0
      ensures built ==> Before(Point(j))
    {
      key, restartIndex := [], j;
      valueAt, valueSize := GetRestartPoint(j), 0;
      assert built ==> PointOk(data, restarts, es, plan, j);
    }

    method CorruptionError()
      requires Sized() && !built
      modifies this
      ensures Valid() && !AtEntry() && corrupt
    {
      current, restartIndex, corrupt := restarts, num, true;
      key, valueAt, valueSize := [], 0, 0;
    }

    /** The loop that moves the restart index up to the entry. */
    method AdvanceRestartIndex(ghost i: nat)
      requires Sized() && restartIndex < num
      requires built ==> i < |es| && current == plan.offs[i] && plan.points[restartIndex] <= i
      modifies this`restartIndex
      ensures old(restartIndex) <= restartIndex < num
      ensures restartIndex + 1 < num ==> GetRestartPoint(restartIndex + 1) >= current
      ensures built ==> NearGroup(plan.points, restartIndex, i)
      ensures built ==> restartIndex == old(restartIndex) || plan.points[restartIndex] < i
    {
      while restartIndex + 1 < num && GetRestartPoint(restartIndex + 1) < current
        invariant old(restartIndex) <= restartIndex < num
        invariant built ==> plan.points[restartIndex] <= i
        invariant built ==> restartIndex == old(restartIndex) || plan.points[restartIndex] < i
        decreases num - restartIndex
      {
        if built {
          PointOffset(restartIndex + 1, i);
        }
        restartIndex := restartIndex + 1;
      }
      if built && restartIndex + 1 < num {
        PointOffset(restartIndex + 1, i);
      }
    }

    /** Restart points are ordered like their offsets. */
    lemma PointOffset(j: nat, i: nat)
      requires Sized() && built && j < num && i <= |es|
      ensures plan.points[j] < i <==> GetRestartPoint(j) < plan.offs[i]
    {
      assert PointOk(data, restarts, es, plan, j);
      OffsetOrder(data, restarts, num, es, plan, plan.points[j], i);
    }

    /** What the plan says about the bytes at the entry to be parsed. */
    lemma Expect(i: nat)
      requires Sized() && built && Before(i) && i < |es|
      ensures NextEntryOffset() < plan.offs[i + 1] <= restarts <= |data|
      ensures var l := DecodeEntry(data[NextEntryOffset()..restarts]);
        && l.Some? && l.value.shared <= |key| && |l.value.rest| <= restarts
        && key[..l.value.shared] + l.value.rest[..l.value.unshared] == es[i].key
        && var at := restarts - |l.value.rest| + l.value.unshared;
        && at + l.value.size == plan.offs[i + 1] && data[at..plan.offs[i + 1]] == es[i].value
      ensures i + 1 < |es| ==>
                plan.shared[i + 1] <= |es[i].key| && plan.shared[i + 1] <= |es[i + 1].key| &&
                es[i].key[..plan.shared[i + 1]] == es[i + 1].key[..plan.shared[i + 1]]
    {
      assert EntryOk(data, restarts, es, plan, i);
      assert SharesOk(es, plan, i);
      if i + 1 < |es| {
        assert EntryOk(data, restarts, es, plan, i + 1);
        assert PreviousKey(es, i + 1) == es[i].key;
      }
    }

    /** Moves to the entry at the end of the current value; i is its number. */
    method ParseNextKey(ghost i: nat) returns (ok: bool)
      requires Sized() && restartIndex < num && Before(i)
      requires built && i < |es| ==> plan.points[restartIndex] <= i
      modifies this
      ensures Valid() && ok == AtEntry() && (built ==> pos == i)
      ensures ok && built ==> (AtGroup() <==> plan.points[old(restartIndex)] == i || !IsPoint(plan.points, i))
      ensures ok ==> current == old(NextEntryOffset()) && NextEntryOffset() > current
      ensures ok && built ==> Before(i + 1)
      ensures built ==> ok == (i < |es|)
    {
      current := NextEntryOffset();
      pos := i;
      if built {
        OffsetOrder(data, restarts, num, es, plan, i, |es|);
      }
      if current >= restarts {
        current, restartIndex := restarts, num;
        return false;
      }
      var l := DecodeEntry(data[current..restarts]);
      if built {
        Expect(i);
      }
      if l.None? || |key| < l.value.shared {
        CorruptionError();
        return false;
      }
      TakeEntry(i, l.value);
      ok := true;
    }

    /** Takes key and value of the entry decoded at the current offset. */
    method TakeEntry(ghost i: nat, l: Lengths)
      requires Sized() && restartIndex < num && Before(i) && pos == i && current == NextEntryOffset() < restarts
      requires DecodeEntry(data[current..restarts]) == Some(l) && l.shared <= |key|
      requires built ==> i < |es| && plan.points[restartIndex] <= i
      modifies this`key, this`valueAt, this`valueSize, this`restartIndex
      ensures Valid() && AtEntry() && NextEntryOffset() > current
      ensures built ==> (AtGroup() <==> plan.points[old(restartIndex)] == i || !IsPoint(plan.points, i))
      ensures built ==> Before(i + 1)
    {
      if built {
        Expect(i);
      }
      RestOfInput(data, current, restarts, l);
      key := key[..l.shared] + l.rest[..l.unshared];
      valueAt, valueSize := restarts - |l.rest| + l.unshared, l.size;
      AdvanceRestartIndex(i);
      if built {
        GroupExactlyIf(plan.points, old(restartIndex), restartIndex, i);
      }
    }

    /** One entry on.  The restart index is then that of the entry, unless the entry is a restart point. */
    method Next()
      requires Valid() && AtEntry()
      modifies this
      ensures Valid() && (built ==> pos == old(pos) + 1)
      ensures built && AtEntry() ==> (AtGroup() <==> !IsPoint(plan.points, pos))
    {
      if built {
        EntryIffInside();
        if pos + 1 < |es| {
          assert EntryOk(data, restarts, es, plan, pos + 1);
          assert SharesOk(es, plan, pos + 1) && PreviousKey(es, pos + 1) == es[pos].key;
        }
      }
      var ok := ParseNextKey(pos + 1);
    }

    method SeekToFirst()
      requires Valid()
      modifies this
      ensures Valid() && (built ==> pos == 0) && (AtEntry() ==> AtGroup())
    {
      SeekToRestartPoint(0);
      var ok := ParseNextKey(0);
    }

    /** While the current entry ends before entry j does, the next is at most j, and no restart point. */
    lemma NotYetAt(r: nat, j: nat)
      requires Sized() && built && pos <= j < |es| && NextEntryOffset() == plan.offs[pos + 1] < plan.offs[j + 1]
      requires r < num && plan.points[r] <= pos && InGroup(plan.points, r, j)
      ensures pos + 1 <= j && !IsPoint(plan.points, pos + 1)
    {
      OffsetOrder(data, restarts, num, es, plan, pos + 1, j + 1);
      InsideIsNoPoint(plan.points, r, pos + 1);
    }

    /** Reads on while the entry ends below the given offset; on a built block, to entry j. */
    method ReadUpTo(end: nat, ghost from: nat, ghost j: nat)
      requires Sized() && restartIndex < num && Before(from)
      requires built ==> from <= j < |es| && end == plan.offs[j + 1]
      requires built ==> plan.points[restartIndex] == from && InGroup(plan.points, restartIndex, j)
      modifies this
      ensures Valid() && (built ==> pos == j) && AtGroup()
    {
      ghost var r := restartIndex;
      var ok := ParseNextKey(from);
      while ok && NextEntryOffset() < end
        invariant Valid() && ok == AtEntry()
        invariant ok ==> NextEntryOffset() > current && restartIndex < num
        invariant ok ==> Before(pos + 1)
        invariant built ==> from <= pos <= j && ok && AtGroup()
        decreases if ok then restarts - current else 0
      {
        if built {
          NotYetAt(r, j);
        }
        ok := ParseNextKey(pos + 1);
      }
      if built {
        OffsetOrder(data, restarts, num, es, plan, pos + 1, j + 1);
      }
    }

    /** At the last entry, or nowhere if there is none. */
    method SeekToLast()
      requires Valid()
      modifies this
      ensures Valid() && (built ==> pos == if es == [] then 0 else |es| - 1) && (AtEntry() ==> AtGroup())
    {
      SeekToRestartPoint(num - 1);
      if built {
        assert PointOk(data, restarts, es, plan, num - 1);
        if es == [] {
          OffsetOrder(data, restarts, num, es, plan, 0, 0);
        }
      }
      ReadToEnd(Point(num - 1));
    }

    method ReadToEnd(ghost from: nat)
      requires Sized() && restartIndex < num && Before(from) && (built ==> from <= |es| && (es != [] ==> from < |es|))
      requires restartIndex == num - 1 && (built ==> plan.points[num - 1] == from)
      modifies this
      ensures Valid() && (built ==> pos == if es == [] then 0 else |es| - 1) && (AtEntry() ==> AtGroup())
    {
      var ok := ParseNextKey(from);
      while ok && NextEntryOffset() < restarts
        invariant Valid() && ok == AtEntry()
        invariant ok ==> NextEntryOffset() > current && restartIndex < num
        invariant ok ==> Before(pos + 1)
        invariant built ==> ok == (es != []) && (es != [] ==> from <= pos < |es|) && (es == [] ==> pos == 0)
        invariant ok ==> AtGroup()
        decreases if ok then restarts - current else 0
      {
        if built {
          OffsetOrder(data, restarts, num, es, plan, pos + 1, |es|);
          InsideIsNoPoint(plan.points, num - 1, pos + 1);
        }
        ok := ParseNextKey(pos + 1);
      }
      if built && es != [] {
        OffsetOrder(data, restarts, num, es, plan, pos + 1, |es|);
      }
    }

    /** The last restart point before an offset, from the current one down. */
    method RestartBefore(original: nat) returns (found: bool)
      requires Sized() && restartIndex < num
      modifies this`restartIndex
      ensures restartIndex <= old(restartIndex)
      ensures found ==> GetRestartPoint(restartIndex) < original
      ensures found ==> restartIndex == old(restartIndex) || GetRestartPoint(restartIndex + 1) >= original
      ensures !found ==> GetRestartPoint(0) >= original
    {
      while GetRestartPoint(restartIndex) >= original
        invariant restartIndex <= old(restartIndex)
        invariant restartIndex == old(restartIndex) || GetRestartPoint(restartIndex + 1) >= original
        decreases restartIndex
      {
        if restartIndex == 0 {
          return false;
        }
        restartIndex := restartIndex - 1;
      }
      found := true;
    }

    /** Back by one entry; from the first entry, to nowhere. */
    method Prev()
      requires Valid() && AtEntry()
      modifies this
      ensures Valid() && (built ==> pos == if old(pos) == 0 then |es| else old(pos) - 1)
      ensures AtEntry() ==> AtGroup()
    {
      var original := current;
      ghost var p := pos;
      if built {
        EntryIffInside();
        assert PointOk(data, restarts, es, plan, 0);
        OffsetOrder(data, restarts, num, es, plan, 0, p);
      }
      var found := RestartBefore(original);
      if !found {
        current, restartIndex, pos := restarts, num, |es|;
        return;
      }
      if built {
        assert PointOk(data, restarts, es, plan, restartIndex);
        OffsetOrder(data, restarts, num, es, plan, Point(restartIndex), p);
        GroupBefore(old(restartIndex), restartIndex, p);
      }
      SeekToRestartPoint(restartIndex);
      ReadUpTo(original, Point(restartIndex), if p == 0 then 0 else p - 1);
    }

    /** Entry p - 1 is in the group of the last restart point before p. */
    lemma GroupBefore(from: nat, r: nat, p: nat)
      requires Sized() && built && r <= from < num && p < |es| && NearGroup(plan.points, from, p)
      requires GetRestartPoint(r) < plan.offs[p] && (r == from || GetRestartPoint(r + 1) >= plan.offs[p])
      ensures p > 0 && InGroup(plan.points, r, p - 1)
    {
      PointOffset(r, p);
      if r < from {
        PointOffset(r + 1, p);
      }
    }

    /** The binary search over the restart points: the keys before the point found are below the
        target.  Fails on a restart point that does not decode to an unshared key. */
    method SearchRestarts(target: Bytes) returns (ok: bool, left: nat)
      requires Sized() && (built ==> Transitive(less) && Increasing(es, less))
      ensures ok ==> left < num
      ensures built ==> ok && (Point(left) == 0 || (Point(left) < |es| && less(es[Point(left)].key, target)))
    {
      left := 0;
      var right := num - 1;
      while left < right
        invariant left <= right < num
        invariant built ==> Point(left) == 0 || (Point(left) < |es| && less(es[Point(left)].key, target))
        decreases right - left
      {
        var mid := (left + right + 1) / 2;
        var offset := GetRestartPoint(mid);
        var l := if offset <= restarts then DecodeEntry(data[offset..restarts]) else None;
        if built {
          MidKey(mid);
        }
        if l.None? || l.value.shared != 0 {
          return false, 0;
        }
        if less(l.value.rest[..l.value.unshared], target) {
          left := mid;
        } else {
          right := mid - 1;
        }
      }
      ok := true;
    }

    /** The key read at a restart point is that of its entry. */
    lemma MidKey(j: nat)
      requires Sized() && built && 0 < j < num
      ensures Point(j) < |es| && GetRestartPoint(j) <= restarts
      ensures var l := DecodeEntry(data[GetRestartPoint(j)..restarts]);
        l.Some? && l.value.shared == 0 && l.value.rest[..l.value.unshared] == es[Point(j)].key
    {
      assert PointOk(data, restarts, es, plan, j);
      assert EntryOk(data, restarts, es, plan, Point(j));
    }

    /** To the first entry whose key is not below the target. */
    method Seek(target: Bytes)
      requires Valid() && (built ==> Transitive(less) && Increasing(es, less))
      modifies this
      ensures Valid() && (built ==> FirstNotBelow(es, less, target, pos))
      ensures built && AtEntry() ==> (AtGroup() <==> pos == 0 || !IsPoint(plan.points, pos))
    {
      var ok, left := SearchRestarts(target);
      if !ok {
        CorruptionError();
        return;
      }
      if built {
        assert PointOk(data, restarts, es, plan, left);
        BelowPoint(es, less, target, Point(left));
      }
      SeekToRestartPoint(left);
      ScanTo(target, Point(left));
    }

    method ScanTo(target: Bytes, ghost from: nat)
      requires Sized() && restartIndex < num && Before(from)
      requires built ==> AllBelow(es, less, target, from) && plan.points[restartIndex] == from
      requires built ==> from == 0 || (from < |es| && less(es[from].key, target))
      modifies this
      ensures Valid() && (built ==> FirstNotBelow(es, less, target, pos))
      ensures built && AtEntry() ==> (AtGroup() <==> pos == 0 || !IsPoint(plan.points, pos))
    {
      var ok := ParseNextKey(from);
      while ok && less(key, target)
        invariant Valid() && ok == AtEntry()
        invariant ok ==> NextEntryOffset() > current && restartIndex < num
        invariant ok ==> Before(pos + 1)
        invariant built ==> AllBelow(es, less, target, pos) && ok == (pos < |es|)
        invariant built && ok ==> from <= pos && (AtGroup() <==> pos == from || !IsPoint(plan.points, pos))
        decreases if ok then restarts - current else 0
      {
        ok := ParseNextKey(pos + 1);
      }
    }
  }

  /** Entries before one that is below the target are below it. */
  lemma BelowPoint(es: seq<Pair>, less: (Bytes, Bytes) -> bool, target: Bytes, n: nat)
    requires Increasing(es, less) && Transitive(less)
    requires n == 0 || (n < |es| && less(es[n].key, target))
    ensures AllBelow(es, less, target, n)
  {
    forall j {:trigger es[j]} | 0 <= j < n
      ensures less(es[j].key, target)
    {
      SortedPair(es, less, j, n);
    }
  }

  // ---- Round trips ----

  /** Opening the finished block of some entries gives an iterator over them. */
  method NewIterator(data: Bytes, less: (Bytes, Bytes) -> bool, ghost es: seq<Pair>, ghost k: nat) returns (it: BlockIter)
    requires k >= 1 && data == Block(es, k) && |data| < WORD32
    ensures fresh(it) && it.Valid() && it.built && it.es == es && it.less == less
  {
    BlockLayout(es, k);
    match Open(data)
    case Opened(restarts, num) => it := new BlockIter(data, restarts, num, less, true, es, BuilderPlan(es, k));
  }

  /** The entries before the current one are found. */
  ghost predicate ForwardSoFar(it: BlockIter, es: seq<Pair>, found: seq<Pair>)
    reads it
  {
    it.Valid() && it.built && it.es == es && it.pos <= |es| && found == es[..it.pos]
  }

  method TakeForward(it: BlockIter, ghost es: seq<Pair>, found0: seq<Pair>) returns (found: seq<Pair>)
    requires ForwardSoFar(it, es, found0) && it.AtEntry()
    modifies it
    ensures ForwardSoFar(it, es, found) && it.pos == old(it.pos) + 1
  {
    it.EntryIffInside();
    assert es[..it.pos + 1] == es[..it.pos] + [es[it.pos]];
    assert Pair(it.key, it.Value()) == es[it.pos];
    found := found0 + [Pair(it.key, it.Value())];
    it.Next();
  }

  /** Iterating forwards yields exactly the entries added. */
  method ReadForwards(data: Bytes, less: (Bytes, Bytes) -> bool, ghost es: seq<Pair>, ghost k: nat) returns (found: seq<Pair>)
    requires k >= 1 && data == Block(es, k) && |data| < WORD32
    ensures found == es
  {
    var it := NewIterator(data, less, es, k);
    it.SeekToFirst();
    found := [];
    while it.AtEntry()
      invariant fresh(it) && ForwardSoFar(it, es, found)
      decreases |es| - it.pos
    {
      it.EntryIffInside();
      found := TakeForward(it, es, found);
    }
    it.EntryIffInside();
  }

  /** All but the first left entries are found, last first. */
  ghost predicate BackwardSoFar(it: BlockIter, es: seq<Pair>, found: seq<Pair>, left: nat)
    reads it
  {
    && it.Valid() && it.built && it.es == es && left <= |es| && it.pos == (if left == 0 then |es| else left - 1)
    && |found| == |es| - left && forall i :: 0 <= i < |found| ==> found[i] == es[|es| - 1 - i]
  }

  method TakeBackward(it: BlockIter, ghost es: seq<Pair>, found0: seq<Pair>, ghost left: nat) returns (found: seq<Pair>)
    requires BackwardSoFar(it, es, found0, left) && it.AtEntry()
    modifies it
    ensures left > 0 && BackwardSoFar(it, es, found, left - 1)
  {
    it.EntryIffInside();
    assert Pair(it.key, it.Value()) == es[it.pos];
    found := found0 + [Pair(it.key, it.Value())];
    it.Prev();
  }

  /** Iterating backwards yields exactly the entries added, last first. */
  method ReadBackwards(data: Bytes, less: (Bytes, Bytes) -> bool, ghost es: seq<Pair>, ghost k: nat) returns (found: seq<Pair>)
    requires k >= 1 && data == Block(es, k) && |data| < WORD32
    ensures |found| == |es| && forall i :: 0 <= i < |es| ==> found[i] == es[|es| - 1 - i]
  {
    var it := NewIterator(data, less, es, k);
    it.SeekToLast();
    found := [];
    ghost var left: nat := |es|;
    while it.AtEntry()
      invariant fresh(it) && BackwardSoFar(it, es, found, left)
      decreases left
    {
      found := TakeBackward(it, es, found, left);
      left := left - 1;
    }
    it.EntryIffInside();
  }

  /** Seek finds the first entry at or above the target, on every block of increasing keys. */
  method Find(data: Bytes, less: (Bytes, Bytes) -> bool, target: Bytes, ghost es: seq<Pair>, ghost k: nat)
    returns (found: Option<Pair>, ghost i: nat)
    requires k >= 1 && data == Block(es, k) && |data| < WORD32
    requires Transitive(less) && Increasing(es, less)
    ensures FirstNotBelow(es, less, target, i)
    ensures found == if i < |es| then Some(es[i]) else None
  {
    var it := NewIterator(data, less, es, k);
    it.Seek(target);
    it.EntryIffInside();
    i := it.pos;
    if it.AtEntry() {
      assert Pair(it.key, it.Value()) == es[i];
      found := Some(Pair(it.key, it.Value()));
    } else {
      found := None;
    }
  }
}
