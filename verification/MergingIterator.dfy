/** The merging iterator over sorted children (table/merger.cc, table/iterator_wrapper.h). */
module MergingIterators {
  import opened DbFormat
  import opened History
  import opened SortedRuns

  // ---- Children ----

  /** An iterator over one sorted run: on an entry, or on none. */
  datatype Cursor = Cursor(run: seq<Entry>, at: Option<nat>) {
    ghost predicate Ok() {
      Sorted(run) && (at.Some? ==> at.value < |run|)
    }

    function Entry(): Entry
      requires Ok() && at.Some?
    {
      run[at.value]
    }

    function Moved(i: int): (c: Cursor)
      ensures c.run == run && (Sorted(run) ==> c.Ok())
    {
      Cursor(run, if 0 <= i < |run| then Some(i) else None)
    }

    function SeekToFirst(): Cursor { Moved(0) }

    function SeekToLast(): Cursor { Moved(|run| - 1) }

    function Seek(target: InternalKey): Cursor { Moved(SeekIndex(run, target)) }

    function Next(): Cursor
      requires at.Some?
    {
      Moved(at.value + 1)
    }

    function Prev(): Cursor
      requires at.Some?
    {
      Moved(at.value - 1)
    }
  }

  // ---- Ranks in the merged run ----

  ghost function Rank(merged: seq<Entry>, e: Entry): nat {
    SeekIndex(merged, KeyOf(e))
  }

  lemma RankIs(merged: seq<Entry>, i: nat)
    requires Sorted(merged) && i < |merged|
    ensures Rank(merged, merged[i]) == i
  {
    SeekSplits(merged, KeyOf(merged[i]));
  }

  lemma RankOf(merged: seq<Entry>, e: Entry)
    requires Sorted(merged) && e in merged
    ensures Rank(merged, e) < |merged| && merged[Rank(merged, e)] == e
  {
    var i :| 0 <= i < |merged| && merged[i] == e;
    RankIs(merged, i);
  }

  /** Keys and ranks are ordered alike. */
  lemma RankOrder(merged: seq<Entry>, e: Entry, target: InternalKey)
    requires Sorted(merged) && e in merged
    ensures Rank(merged, e) < SeekIndex(merged, target) <==> Less(KeyOf(e), target)
  {
    RankOf(merged, e);
    SeekSplits(merged, target);
  }

  /** n cuts the run where the merged run is cut by m. */
  ghost predicate Split(merged: seq<Entry>, run: seq<Entry>, n: nat, m: nat) {
    && n <= |run|
    && (forall j {:trigger run[j]} :: 0 <= j < n ==> Rank(merged, run[j]) < m)
    && (forall j {:trigger run[j]} :: n <= j < |run| ==> Rank(merged, run[j]) >= m)
  }

  /** The child is on its first entry at or after position m of the merged run. */
  ghost predicate AfterCut(merged: seq<Entry>, c: Cursor, m: nat) {
    Split(merged, c.run, c.at.GetOr(|c.run|), m)
  }

  /** The child is on its last entry before position m. */
  ghost predicate BeforeCut(merged: seq<Entry>, c: Cursor, m: nat) {
    Split(merged, c.run, if c.at.Some? then c.at.value + 1 else 0, m)
  }

  /** merged is the sorted union of the runs, which have no key in common. */
  ghost predicate Merges(merged: seq<Entry>, children: seq<Cursor>) {
    && Sorted(merged)
    && (forall i :: 0 <= i < |children| ==> children[i].Ok())
    && (forall i, e :: 0 <= i < |children| && e in children[i].run ==> e in merged)
    && (forall e :: e in merged ==> exists i :: 0 <= i < |children| && e in children[i].run)
    && (forall i, j :: 0 <= i < j < |children| ==> DisjointKeys(children[i].run, children[j].run))
  }

  /** A child's seek cuts its run where the merged run is cut. */
  lemma SeekCuts(merged: seq<Entry>, c: Cursor, target: InternalKey)
    requires Sorted(merged) && c.Ok() && forall e :: e in c.run ==> e in merged
    ensures c.Seek(target).Ok() && AfterCut(merged, c.Seek(target), SeekIndex(merged, target))
    ensures Split(merged, c.run, SeekIndex(c.run, target), SeekIndex(merged, target))
  {
    SeekSplits(c.run, target);
    forall j | 0 <= j < |c.run|
      ensures Rank(merged, c.run[j]) < SeekIndex(merged, target) <==> Less(KeyOf(c.run[j]), target)
    {
      RankOrder(merged, c.run[j], target);
    }
  }

  lemma RankIncreases(merged: seq<Entry>, run: seq<Entry>, i: nat, j: nat)
    requires Sorted(merged) && Sorted(run) && i < j < |run| && forall e :: e in run ==> e in merged
    ensures Rank(merged, run[i]) < Rank(merged, run[j])
  {
    assert Less(KeyOf(run[i]), KeyOf(run[j]));
    RankOrder(merged, run[i], KeyOf(run[j]));
  }

  /** Moving a child off the entry at position p. */
  lemma StepOver(merged: seq<Entry>, c: Cursor, p: nat)
    requires Sorted(merged) && c.Ok() && c.at.Some? && forall e :: e in c.run ==> e in merged
    requires Rank(merged, c.Entry()) == p
    ensures c.Next().Ok() && AfterCut(merged, c, p) && AfterCut(merged, c.Next(), p + 1)
    ensures c.Prev().Ok() && BeforeCut(merged, c, p + 1) && BeforeCut(merged, c.Prev(), p)
  {
    forall j | 0 <= j < |c.run| && j != c.at.value
      ensures if j < c.at.value then Rank(merged, c.run[j]) < p else Rank(merged, c.run[j]) > p
    {
      if j < c.at.value {
        RankIncreases(merged, c.run, j, c.at.value);
      } else {
        RankIncreases(merged, c.run, c.at.value, j);
      }
    }
  }

  /** A run that does not hold the entry at position p is cut alike by p and p + 1. */
  lemma Elsewhere(merged: seq<Entry>, run: seq<Entry>, n: nat, p: nat)
    requires Sorted(merged) && p < |merged| && merged[p] !in run && forall e :: e in run ==> e in merged
    ensures Split(merged, run, n, p) <==> Split(merged, run, n, p + 1)
  {
    forall j | 0 <= j < |run|
      ensures Rank(merged, run[j]) != p
    {
      RankOf(merged, run[j]);
    }
  }

  // ---- Choosing the current child ----

  /** smallest is the child with the least entry, or -1 when no child is on an entry. */
  ghost predicate IsSmallest(cs: seq<Cursor>, n: nat, smallest: int)
    requires n <= |cs| && forall i :: 0 <= i < |cs| ==> cs[i].Ok()
  {
    && -1 <= smallest < n
    && (smallest >= 0 ==> cs[smallest].at.Some?)
    && (forall j :: 0 <= j < n && cs[j].at.Some? ==>
          smallest >= 0 && !Less(KeyOf(cs[j].Entry()), KeyOf(cs[smallest].Entry())))
  }

  ghost predicate IsLargest(cs: seq<Cursor>, n: nat, largest: int)
    requires n <= |cs| && forall i :: 0 <= i < |cs| ==> cs[i].Ok()
  {
    && (largest == -1 || n <= largest < |cs|)
    && (largest >= 0 ==> cs[largest].at.Some?)
    && (forall j :: n <= j < |cs| && cs[j].at.Some? ==>
          largest >= 0 && !Less(KeyOf(cs[largest].Entry()), KeyOf(cs[j].Entry())))
  }

  /** A child cut at m that holds the entry at m is on it. */
  lemma HeadOnCut(merged: seq<Entry>, c: Cursor, m: nat)
    requires Sorted(merged) && c.Ok() && (forall e :: e in c.run ==> e in merged)
    requires m < |merged| && merged[m] in c.run
    ensures AfterCut(merged, c, m) ==> c.at.Some? && c.Entry() == merged[m]
    ensures BeforeCut(merged, c, m + 1) ==> c.at.Some? && c.Entry() == merged[m]
  {
    var j :| 0 <= j < |c.run| && c.run[j] == merged[m];
    RankIs(merged, m);
    if AfterCut(merged, c, m) && c.at.GetOr(|c.run|) < j {
      RankIncreases(merged, c.run, c.at.value, j);
    }
    if BeforeCut(merged, c, m + 1) && c.at.Some? && j < c.at.value {
      RankIncreases(merged, c.run, j, c.at.value);
    }
  }

  lemma Holder(merged: seq<Entry>, cs: seq<Cursor>, e: Entry) returns (i: nat)
    requires Merges(merged, cs) && e in merged
    ensures i < |cs| && e in cs[i].run && cs[i].Ok() && forall x :: x in cs[i].run ==> x in merged
  {
    i :| 0 <= i < |cs| && e in cs[i].run;
  }

  /** The child that holds the entry at m is on it, whichever way the children are cut. */
  lemma HolderOnCut(merged: seq<Entry>, cs: seq<Cursor>, m: nat) returns (i: nat)
    requires Merges(merged, cs) && m < |merged|
    ensures i < |cs| && cs[i].Ok()
    ensures AfterCut(merged, cs[i], m) ==> cs[i].at.Some? && cs[i].Entry() == merged[m]
    ensures BeforeCut(merged, cs[i], m + 1) ==> cs[i].at.Some? && cs[i].Entry() == merged[m]
  {
    i := Holder(merged, cs, merged[m]);
    HeadOnCut(merged, cs[i], m);
  }

  /** The entry a cut child is on lies on the child's side of the cut. */
  lemma EntryBeforeCut(merged: seq<Entry>, cs: seq<Cursor>, i: nat, m: nat)
    requires Merges(merged, cs) && i < |cs| && cs[i].Ok() && cs[i].at.Some? && BeforeCut(merged, cs[i], m)
    ensures cs[i].Entry() in merged && Rank(merged, cs[i].Entry()) < m
  {
    assert cs[i].run[cs[i].at.value] in cs[i].run;
  }

  lemma EntryAfterCut(merged: seq<Entry>, cs: seq<Cursor>, i: nat, m: nat)
    requires Merges(merged, cs) && i < |cs| && cs[i].Ok() && cs[i].at.Some? && AfterCut(merged, cs[i], m)
    ensures cs[i].Entry() in merged && m <= Rank(merged, cs[i].Entry()) < |merged|
  {
    assert cs[i].run[cs[i].at.value] in cs[i].run;
    RankOf(merged, cs[i].Entry());
  }

  lemma SmallestIsAtCut(merged: seq<Entry>, cs: seq<Cursor>, m: nat, smallest: int)
    requires Merges(merged, cs) && m <= |merged| && forall i :: 0 <= i < |cs| ==> AfterCut(merged, cs[i], m)
    requires IsSmallest(cs, |cs|, smallest)
    ensures if m == |merged| then smallest == -1 else smallest >= 0 && cs[smallest].Entry() == merged[m]
  {
    if smallest >= 0 {
      EntryAfterCut(merged, cs, smallest, m);
    }
    if m < |merged| {
      var i := HolderOnCut(merged, cs, m);
      assert AfterCut(merged, cs[i], m);
      NoneBetweenAfter(merged, merged[m], cs[smallest].Entry(), m);
    }
  }

  lemma LargestIsAtCut(merged: seq<Entry>, cs: seq<Cursor>, m: nat, largest: int)
    requires Merges(merged, cs) && m <= |merged| && forall i :: 0 <= i < |cs| ==> BeforeCut(merged, cs[i], m)
    requires IsLargest(cs, 0, largest)
    ensures if m == 0 then largest == -1 else largest >= 0 && cs[largest].Entry() == merged[m - 1]
  {
    if largest >= 0 {
      EntryBeforeCut(merged, cs, largest, m);
    }
    if m > 0 {
      var i := HolderOnCut(merged, cs, m - 1);
      assert BeforeCut(merged, cs[i], m);
      NoneBetween(merged, merged[m - 1], cs[largest].Entry(), m - 1);
    }
  }

  /** An entry from the cut on that is not after the entry at the cut is that entry. */
  lemma NoneBetweenAfter(merged: seq<Entry>, e: Entry, f: Entry, m: nat)
    requires Sorted(merged) && m < |merged| && merged[m] == e && f in merged
    requires m <= Rank(merged, f) && !Less(KeyOf(e), KeyOf(f))
    ensures f == e
  {
    RankOf(merged, f);
    RankIs(merged, m);
    RankOrder(merged, e, KeyOf(f));
  }

  /** An entry before the cut that is not before the entry at p is that entry. */
  lemma NoneBetween(merged: seq<Entry>, e: Entry, f: Entry, p: nat)
    requires Sorted(merged) && p < |merged| && merged[p] == e && f in merged
    requires Rank(merged, f) <= p && !Less(KeyOf(f), KeyOf(e))
    ensures f == e
  {
    RankOf(merged, f);
    RankIs(merged, p);
    RankOrder(merged, f, KeyOf(e));
  }

  /** Moving children keeps their runs, hence the merged run. */
  lemma MovedMerge(merged: seq<Entry>, cs: seq<Cursor>, cs': seq<Cursor>)
    requires Merges(merged, cs) && |cs'| == |cs|
    requires forall i :: 0 <= i < |cs| ==> cs'[i].run == cs[i].run && cs'[i].Ok()
    ensures Merges(merged, cs')
  {
    forall e | e in merged
      ensures exists i :: 0 <= i < |cs'| && e in cs'[i].run
    {
      var i :| 0 <= i < |cs| && e in cs[i].run;
      assert e in cs'[i].run;
    }
    forall i, e | 0 <= i < |cs'| && e in cs'[i].run
      ensures e in merged
    {
      assert e in cs[i].run;
    }
    forall i, j | 0 <= i < j < |cs'|
      ensures DisjointKeys(cs'[i].run, cs'[j].run)
    {
      assert DisjointKeys(cs[i].run, cs[j].run);
    }
  }

  /** No other child holds the current entry. */
  lemma NotElsewhere(merged: seq<Entry>, cs: seq<Cursor>, c: nat, i: nat, e: Entry)
    requires Merges(merged, cs) && c < |cs| && i < |cs| && i != c && e in cs[c].run
    ensures e !in cs[i].run
  {
    assert DisjointKeys(cs[if i < c then i else c].run, cs[if i < c then c else i].run);
  }

  // ---- The iterator ----

  /** A cursor over the merged run. */
  class MergingIterator {
    ghost const merged: seq<Entry>
    const children: array<Cursor>
    var current: int
    var forward: bool

    /** Every child is where the direction wants it; the current child is on the entry that the
        cursor stands for. */
    ghost predicate Valid()
      reads this, children
    {
      && Merges(merged, children[..])
      && -1 <= current < children.Length
      && (current >= 0 ==> children[current].at.Some? && Aligned(if forward then Index() else Index() + 1))
    }

    /** Position in the merged run. */
    ghost function Index(): (p: nat)
      requires Merges(merged, children[..]) && 0 <= current < children.Length && children[current].at.Some?
      reads this, children
      ensures p < |merged| && merged[p] == children[current].Entry()
    {
      assert children[..][current] == children[current];
      RankOf(merged, children[current].Entry());
      Rank(merged, children[current].Entry())
    }

    ghost predicate Aligned(m: nat)
      reads this, children
    {
      forall i :: 0 <= i < children.Length ==>
        if forward then AfterCut(merged, children[i], m) else BeforeCut(merged, children[i], m)
    }

    /** On the entry at position p, or on none when p is outside the merged run. */
    ghost predicate On(p: int)
      reads this, children
    {
      && Valid()
      && if 0 <= p < |merged| then Positioned() && Index() == p else !Positioned()
    }

    constructor (cursors: array<Cursor>, ghost merged: seq<Entry>)
      requires Merges(merged, cursors[..])
      ensures Valid() && !Positioned() && this.merged == merged && this.children == cursors
    {
      this.merged := merged;
      children, current, forward := cursors, -1, true;
    }

    /** Valid(): on an entry. */
    predicate Positioned()
      reads this
    {
      current >= 0
    }

    /** key() and value(). */
    function Entry(): (e: Entry)
      requires Valid() && Positioned()
      reads this, children
      ensures e == merged[Index()]
    {
      children[current].Entry()
    }

    method FindSmallest(ghost m: nat)
      requires Merges(merged, children[..]) && m <= |merged| && forward && Aligned(m)
      modifies this`current
      ensures On(m)
    {
      var smallest := -1;
      for i := 0 to children.Length
        invariant IsSmallest(children[..], i, smallest)
      {
        var child := children[i];
        if child.at.Some? {
          if smallest == -1 || Less(KeyOf(child.Entry()), KeyOf(children[smallest].Entry())) {
            smallest := i;
          }
        }
      }
      current := smallest;
      SmallestIsAtCut(merged, children[..], m, smallest);
      if m < |merged| {
        RankIs(merged, m);
      }
    }

    method FindLargest(ghost m: nat)
      requires Merges(merged, children[..]) && m <= |merged| && !forward && Aligned(m)
      modifies this`current
      ensures On(m - 1)
    {
      var largest := -1;
      for i := children.Length downto 0
        invariant IsLargest(children[..], i, largest)
      {
        var child := children[i];
        if child.at.Some? {
          if largest == -1 || Less(KeyOf(children[largest].Entry()), KeyOf(child.Entry())) {
            largest := i;
          }
        }
      }
      current := largest;
      LargestIsAtCut(merged, children[..], m, largest);
      if m > 0 {
        RankIs(merged, m - 1);
      }
    }

    method SeekToFirst()
      requires Valid()
      modifies this, children
      ensures On(0)
    {
      ghost var cs := children[..];
      for i := 0 to children.Length
        invariant forall j :: 0 <= j < i ==> children[j] == cs[j].SeekToFirst()
        invariant forall j :: i <= j < children.Length ==> children[j] == cs[j]
      {
        children[i] := children[i].SeekToFirst();
      }
      MovedMerge(merged, cs, children[..]);
      forward := true;
      FindSmallest(0);
    }

    method SeekToLast()
      requires Valid()
      modifies this, children
      ensures On(|merged| - 1)
    {
      ghost var cs := children[..];
      for i := 0 to children.Length
        invariant forall j :: 0 <= j < i ==> children[j] == cs[j].SeekToLast()
        invariant forall j :: i <= j < children.Length ==> children[j] == cs[j]
      {
        children[i] := children[i].SeekToLast();
      }
      MovedMerge(merged, cs, children[..]);
      forall i | 0 <= i < children.Length
        ensures BeforeCut(merged, children[i], |merged|)
      {
        forall j | 0 <= j < |cs[i].run|
          ensures Rank(merged, cs[i].run[j]) < |merged|
        {
          RankOf(merged, cs[i].run[j]);
        }
      }
      forward := false;
      FindLargest(|merged|);
    }

    /** Lands on the first entry at or after the target. */
    method Seek(target: InternalKey)
      requires Valid()
      modifies this, children
      ensures On(SeekIndex(merged, target))
    {
      ghost var cs := children[..];
      for i := 0 to children.Length
        invariant forall j :: 0 <= j < i ==> children[j] == cs[j].Seek(target)
        invariant forall j :: i <= j < children.Length ==> children[j] == cs[j]
      {
        children[i] := children[i].Seek(target);
      }
      forall i | 0 <= i < children.Length
        ensures children[i].Ok() && AfterCut(merged, children[i], SeekIndex(merged, target))
      {
        SeekCuts(merged, cs[i], target);
      }
      MovedMerge(merged, cs, children[..]);
      forward := true;
      FindSmallest(SeekIndex(merged, target));
    }

    /** Turns every other child to the entries after the current key. */
    method TurnForward()
      requires Valid() && Positioned() && !forward
      modifies this`forward, children
      ensures Valid() && Positioned() && forward && Index() == old(Index())
    {
      ghost var cs, p := children[..], Index();
      var key := KeyOf(Entry());
      for i := 0 to children.Length
        invariant forall j :: 0 <= j < i && j != current ==> children[j] == PastKey(cs[j], key)
        invariant forall j :: 0 <= j < children.Length && (i <= j || j == current) ==> children[j] == cs[j]
      {
        if i != current {
          children[i] := PastKey(children[i], key);
        }
      }
      forward := true;
      forall i | 0 <= i < children.Length
        ensures children[i].Ok() && children[i].run == cs[i].run && AfterCut(merged, children[i], p)
      {
        if i != current {
          NotElsewhere(merged, cs, current, i, merged[p]);
          PastKeyCuts(merged, cs[i], p);
        } else {
          StepOver(merged, cs[i], p);
        }
      }
      MovedMerge(merged, cs, children[..]);
    }

    /** Moves to the next entry of the merged run. */
    method Next()
      requires Valid() && Positioned()
      modifies this, children
      ensures On(old(Index()) + 1)
    {
      if !forward {
        TurnForward();
      }
      ghost var cs, p := children[..], Index();
      children[current] := children[current].Next();
      forall i | 0 <= i < children.Length
        ensures children[i].Ok() && children[i].run == cs[i].run && AfterCut(merged, children[i], p + 1)
      {
        if i != current {
          NotElsewhere(merged, cs, current, i, merged[p]);
          Elsewhere(merged, cs[i].run, cs[i].at.GetOr(|cs[i].run|), p);
        } else {
          StepOver(merged, cs[i], p);
        }
      }
      MovedMerge(merged, cs, children[..]);
      FindSmallest(p + 1);
    }

    /** Turns every other child to the entries before the current key. */
    method TurnBackward()
      requires Valid() && Positioned() && forward
      modifies this`forward, children
      ensures Valid() && Positioned() && !forward && Index() == old(Index())
    {
      ghost var cs, p := children[..], Index();
      var key := KeyOf(Entry());
      for i := 0 to children.Length
        invariant forall j :: 0 <= j < i && j != current ==> children[j] == BeforeKey(cs[j], key)
        invariant forall j :: 0 <= j < children.Length && (i <= j || j == current) ==> children[j] == cs[j]
      {
        if i != current {
          children[i] := BeforeKey(children[i], key);
        }
      }
      forward := false;
      forall i | 0 <= i < children.Length
        ensures children[i].Ok() && children[i].run == cs[i].run && BeforeCut(merged, children[i], p + 1)
      {
        if i != current {
          NotElsewhere(merged, cs, current, i, merged[p]);
          BeforeKeyCuts(merged, cs[i], p);
        } else {
          StepOver(merged, cs[i], p);
        }
      }
      MovedMerge(merged, cs, children[..]);
    }

    /** Moves to the previous entry of the merged run. */
    method Prev()
      requires Valid() && Positioned()
      modifies this, children
      ensures On(old(Index()) - 1)
    {
      if forward {
        TurnBackward();
      }
      ghost var cs, p := children[..], Index();
      children[current] := children[current].Prev();
      forall i | 0 <= i < children.Length
        ensures children[i].Ok() && children[i].run == cs[i].run && BeforeCut(merged, children[i], p)
      {
        if i != current {
          NotElsewhere(merged, cs, current, i, merged[p]);
          Elsewhere(merged, cs[i].run, if cs[i].at.Some? then cs[i].at.value + 1 else 0, p);
        } else {
          StepOver(merged, cs[i], p);
        }
      }
      MovedMerge(merged, cs, children[..]);
      FindLargest(p);
    }
  }

  /** The first entry of a child after the key; the key itself is stepped over. */
  function PastKey(c: Cursor, key: InternalKey): Cursor {
    var t := c.Seek(key);
    if t.at.Some? && KeyOf(c.run[t.at.value]) == key then t.Next() else t
  }

  /** The last entry of a child before the key. */
  function BeforeKey(c: Cursor, key: InternalKey): Cursor {
    var t := c.Seek(key);
    if t.at.Some? then t.Prev() else t.SeekToLast()
  }

  lemma PastKeyCuts(merged: seq<Entry>, c: Cursor, p: nat)
    requires Sorted(merged) && c.Ok() && p < |merged| && merged[p] !in c.run && forall e :: e in c.run ==> e in merged
    ensures PastKey(c, KeyOf(merged[p])).Ok() && AfterCut(merged, PastKey(c, KeyOf(merged[p])), p)
  {
    var t := c.Seek(KeyOf(merged[p]));
    RankIs(merged, p);
    SeekCuts(merged, c, KeyOf(merged[p]));
    if t.at.Some? && KeyOf(t.Entry()) == KeyOf(merged[p]) {
      RankOf(merged, t.Entry());
    }
  }

  lemma BeforeKeyCuts(merged: seq<Entry>, c: Cursor, p: nat)
    requires Sorted(merged) && c.Ok() && p < |merged| && merged[p] !in c.run && forall e :: e in c.run ==> e in merged
    ensures BeforeKey(c, KeyOf(merged[p])).Ok() && BeforeCut(merged, BeforeKey(c, KeyOf(merged[p])), p + 1)
  {
    RankIs(merged, p);
    SeekCuts(merged, c, KeyOf(merged[p]));
    Elsewhere(merged, c.run, SeekIndex(c.run, KeyOf(merged[p])), p);
  }
}
