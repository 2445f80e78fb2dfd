/** Sorted runs of entries: the contents of a memtable, a table file or a merge of several. */
module SortedRuns {
  import opened DbFormat
  import opened History

  ghost predicate Sorted(t: seq<Entry>) {
    forall i, j {:trigger KeyOf(t[i]), KeyOf(t[j])} :: 0 <= i < j < |t| ==> Less(KeyOf(t[i]), KeyOf(t[j]))
  }

  ghost function SetOf(t: seq<Entry>): set<Entry> {
    set e | e in t
  }

  /** Index of the first entry at or after the target; every iterator's Seek. */
  function SeekIndex(t: seq<Entry>, target: InternalKey): (r: nat)
    ensures r <= |t|
    ensures forall i :: 0 <= i < r ==> Less(KeyOf(t[i]), target)
    ensures r < |t| ==> !Less(KeyOf(t[r]), target)
  {
    if t == [] || !Less(KeyOf(t[0]), target) then 0 else
      var r := SeekIndex(t[1..], target);
      assert forall i :: 0 < i <= r ==> t[i] == t[1..][i - 1];
      r + 1
  }

  /** In a sorted run everything from the seek position on is at or after the target. */
  lemma SeekSplits(t: seq<Entry>, target: InternalKey)
    requires Sorted(t)
    ensures forall i :: SeekIndex(t, target) <= i < |t| ==> !Less(KeyOf(t[i]), target)
  {
    var r := SeekIndex(t, target);
    forall i | r <= i < |t|
      ensures !Less(KeyOf(t[i]), target)
    {
      if i > r {
        assert Less(KeyOf(t[r]), KeyOf(t[i]));
      }
    }
  }

  /** One seek, one user-key comparison: MemTable::Get and a table lookup (SaveValue). */
  function RunGet(t: seq<Entry>, k: UserKey, s: nat): Option<Op> {
    var r := SeekIndex(t, SeekKey(k, s));
    if r < |t| && t[r].user == k then Some(t[r].op) else None
  }

  /** If the run holds an entry of k at or below s, the seek lands on an entry of k. */
  lemma SeekHit(t: seq<Entry>, k: UserKey, s: nat, i: nat)
    requires Sorted(t) && i < |t| && t[i].user == k && t[i].num <= s
    ensures SeekIndex(t, SeekKey(k, s)) <= i
    ensures t[SeekIndex(t, SeekKey(k, s))].user == k
  {
    var r := SeekIndex(t, SeekKey(k, s));
    if r < i {
      assert Less(KeyOf(t[r]), KeyOf(t[i]));
    }
  }

  /** The entry a seek for (k, s) lands on is the newest entry of k at or below s. */
  lemma RunGetIsLookup(t: seq<Entry>, k: UserKey, s: nat)
    requires Sorted(t) && Consistent(SetOf(t))
    ensures RunGet(t, k, s) == Lookup(SetOf(t), k, s)
  {
    var r := SeekIndex(t, SeekKey(k, s));
    SeekSplits(t, SeekKey(k, s));
    if r < |t| && t[r].user == k {
      forall x | Candidate(SetOf(t), k, s, x)
        ensures x.num <= t[r].num
      {
        var i :| 0 <= i < |t| && t[i] == x;
        if r < i {
          assert Less(KeyOf(t[r]), KeyOf(t[i]));
        }
      }
      assert IsNewest(SetOf(t), k, s, t[r]);
      LookupIs(SetOf(t), k, s, t[r]);
    } else {
      forall x
        ensures !Candidate(SetOf(t), k, s, x)
      {
        if Candidate(SetOf(t), k, s, x) {
          var i :| 0 <= i < |t| && t[i] == x;
          SeekHit(t, k, s, i);
        }
      }
      LookupNone(SetOf(t), k, s);
    }
  }

  /** Two-way merge of sorted runs. */
  function Merge(a: seq<Entry>, b: seq<Entry>): seq<Entry> {
    if a == [] then b
    else if b == [] then a
    else if Less(KeyOf(b[0]), KeyOf(a[0])) then [b[0]] + Merge(a, b[1..])
    else [a[0]] + Merge(a[1..], b)
  }

  function MergeAll(ts: seq<seq<Entry>>): seq<Entry> {
    if ts == [] then [] else Merge(ts[0], MergeAll(ts[1..]))
  }

  ghost predicate DisjointKeys(a: seq<Entry>, b: seq<Entry>) {
    forall x, y :: x in a && y in b ==> KeyOf(x) != KeyOf(y)
  }

  lemma SortedTail(t: seq<Entry>)
    requires Sorted(t) && t != []
    ensures Sorted(t[1..])
    ensures forall x :: x in t[1..] ==> Less(KeyOf(t[0]), KeyOf(x))
  {
  }

  lemma SortedCons(h: Entry, t: seq<Entry>)
    requires Sorted(t) && forall x :: x in t ==> Less(KeyOf(h), KeyOf(x))
    ensures Sorted([h] + t)
  {
  }

  lemma {:induction false} MergeElements(a: seq<Entry>, b: seq<Entry>)
    ensures forall x :: x in Merge(a, b) <==> x in a || x in b
    decreases |a| + |b|
  {
    if a == [] || b == [] {
    } else if Less(KeyOf(b[0]), KeyOf(a[0])) {
      MergeElements(a, b[1..]);
      assert b == [b[0]] + b[1..];
    } else {
      MergeElements(a[1..], b);
      assert a == [a[0]] + a[1..];
    }
  }

  lemma {:induction false} MergeSorted(a: seq<Entry>, b: seq<Entry>)
    requires Sorted(a) && Sorted(b) && DisjointKeys(a, b)
    ensures Sorted(Merge(a, b))
    decreases |a| + |b|
  {
    if a == [] || b == [] {
    } else if Less(KeyOf(b[0]), KeyOf(a[0])) {
      SortedTail(b);
      SortedTail(a);
      MergeSorted(a, b[1..]);
      MergeElements(a, b[1..]);
      SortedCons(b[0], Merge(a, b[1..]));
    } else {
      SortedTail(a);
      SortedTail(b);
      assert KeyOf(a[0]) != KeyOf(b[0]);
      MergeSorted(a[1..], b);
      MergeElements(a[1..], b);
      SortedCons(a[0], Merge(a[1..], b));
    }
  }

  ghost predicate MergeableRuns(ts: seq<seq<Entry>>) {
    && (forall i :: 0 <= i < |ts| ==> Sorted(ts[i]))
    && (forall i, j :: 0 <= i < j < |ts| ==> DisjointKeys(ts[i], ts[j]))
  }

  /** Merging any number of sorted runs without common keys gives one sorted run of exactly
      their entries. */
  lemma {:induction false} MergeAllCorrect(ts: seq<seq<Entry>>)
    requires MergeableRuns(ts)
    ensures Sorted(MergeAll(ts))
    ensures forall x :: x in MergeAll(ts) <==> exists i :: 0 <= i < |ts| && x in ts[i]
  {
    if ts != [] {
      var rest := ts[1..];
      assert forall i :: 0 <= i < |rest| ==> rest[i] == ts[i + 1];
      MergeAllCorrect(rest);
      assert DisjointKeys(ts[0], MergeAll(rest)) by {
        forall x, y | x in ts[0] && y in MergeAll(rest)
          ensures KeyOf(x) != KeyOf(y)
        {
          var i :| 0 <= i < |rest| && y in rest[i];
          assert DisjointKeys(ts[0], ts[i + 1]);
        }
      }
      MergeSorted(ts[0], MergeAll(rest));
      MergeElements(ts[0], MergeAll(rest));
      forall x
        ensures x in MergeAll(ts) <==> exists i :: 0 <= i < |ts| && x in ts[i]
      {
        if i :| 0 <= i < |ts| && x in ts[i] {
          if i > 0 {
            assert x in rest[i - 1];
          }
        }
        if x in MergeAll(rest) {
          var i :| 0 <= i < |rest| && x in rest[i];
          assert x in ts[i + 1];
        }
      }
    }
  }

  /** A sorted run is determined by its entries. */
  lemma {:induction false} SortedUnique(a: seq<Entry>, b: seq<Entry>)
    requires Sorted(a) && Sorted(b) && forall x :: x in a <==> x in b
    ensures a == b
  {
    assert b == [] || b[0] in b;
    if a != [] {
      assert a[0] in b && b[0] in a;
      var i :| 0 <= i < |b| && b[i] == a[0];
      var j :| 0 <= j < |a| && a[j] == b[0];
      assert i > 0 ==> Less(KeyOf(b[0]), KeyOf(b[i]));
      assert j > 0 ==> Less(KeyOf(a[0]), KeyOf(a[j]));
      assert a[0] == b[0];
      SortedTail(a);
      SortedTail(b);
      forall x
        ensures x in a[1..] <==> x in b[1..]
      {
        assert a == [a[0]] + a[1..] && b == [b[0]] + b[1..];
        assert a[0] == b[0] && a[0] !in a[1..] && b[0] !in b[1..];
        assert x in a <==> x == a[0] || x in a[1..];
        assert x in b <==> x == b[0] || x in b[1..];
      }
      SortedUnique(a[1..], b[1..]);
      assert a == [a[0]] + a[1..] && b == [b[0]] + b[1..];
    }
  }
}
