/** The write groups of a database in commit order, and the log files that hold them. */
module GroupLog {
  import opened DbFormat
  import opened History

  /** Groups take consecutive sequence numbers, starting at 1. */
  ghost predicate Consecutive(hist: seq<Batch>) {
    forall i {:trigger FollowsOn(hist, i)} :: 0 <= i < |hist| ==> FollowsOn(hist, i)
  }

  ghost predicate FollowsOn(hist: seq<Batch>, i: nat)
    requires i < |hist|
  {
    hist[i].first == End(hist, i) + 1
  }

  /** The last sequence number of the first n groups. */
  function End(hist: seq<Batch>, n: nat): nat
    requires n <= |hist|
  {
    if n == 0 then 0 else End(hist, n - 1) + |hist[n - 1].ops|
  }

  ghost function GroupFacts(b: Batch): set<Entry> {
    set k | 0 <= k < |b.ops| :: BatchEntry(b, k)
  }

  /** The entries of groups i, i + 1, ..., j - 1. */
  ghost function Facts(hist: seq<Batch>, i: nat, j: nat): set<Entry>
    requires j <= |hist|
    decreases j
  {
    if j <= i then {} else Facts(hist, i, j - 1) + GroupFacts(hist[j - 1])
  }

  lemma {:induction false} EndMonotone(hist: seq<Batch>, i: nat, j: nat)
    requires i <= j <= |hist|
    ensures End(hist, i) <= End(hist, j)
    decreases j
  {
    if i < j {
      EndMonotone(hist, i, j - 1);
    }
  }

  lemma {:induction false} EndPrefix(hist: seq<Batch>, more: seq<Batch>, n: nat)
    requires n <= |hist|
    ensures End(hist + more, n) == End(hist, n)
    decreases n
  {
    if n > 0 {
      EndPrefix(hist, more, n - 1);
    }
  }

  /** Facts of a range of groups carry the sequence numbers of that range. */
  lemma {:induction false} FactRange(hist: seq<Batch>, i: nat, j: nat, e: Entry)
    requires Consecutive(hist) && i <= j <= |hist| && e in Facts(hist, i, j)
    ensures End(hist, i) < e.num <= End(hist, j)
    decreases j
  {
    if e in Facts(hist, i, j - 1) {
      FactRange(hist, i, j - 1, e);
    } else {
      assert i < j && FollowsOn(hist, j - 1);
      EndMonotone(hist, i, j - 1);
      var k :| 0 <= k < |hist[j - 1].ops| && e == BatchEntry(hist[j - 1], k);
    }
  }

  lemma {:induction false} FactsSplit(hist: seq<Batch>, i: nat, m: nat, j: nat)
    requires i <= m <= j <= |hist|
    ensures Facts(hist, i, j) == Facts(hist, i, m) + Facts(hist, m, j)
    decreases j
  {
    if m < j {
      FactsSplit(hist, i, m, j - 1);
    }
  }

  lemma {:induction false} FactsPrefix(hist: seq<Batch>, more: seq<Batch>, i: nat, j: nat)
    requires j <= |hist|
    ensures Facts(hist + more, i, j) == Facts(hist, i, j)
    decreases j
  {
    if i < j {
      FactsPrefix(hist, more, i, j - 1);
    }
  }

  /** A later range of groups is newer than an earlier one. */
  lemma LaterIsAbove(hist: seq<Batch>, i: nat, m: nat, j: nat)
    requires Consecutive(hist) && i <= m <= j <= |hist|
    ensures Above(Facts(hist, m, j), Facts(hist, i, m))
  {
    forall a, b | a in Facts(hist, m, j) && b in Facts(hist, i, m)
      ensures a.num > b.num
    {
      FactRange(hist, m, j, a);
      FactRange(hist, i, m, b);
    }
  }

  lemma GroupConsistent(b: Batch)
    ensures Consistent(GroupFacts(b))
  {
  }

  lemma {:induction false} FactsConsistent(hist: seq<Batch>, i: nat, j: nat)
    requires Consecutive(hist) && i <= j <= |hist|
    ensures Consistent(Facts(hist, i, j))
    decreases j
  {
    if i < j {
      FactsConsistent(hist, i, j - 1);
      GroupConsistent(hist[j - 1]);
      FactsSplit(hist, i, j - 1, j);
      LaterIsAbove(hist, i, j - 1, j);
      AboveConsistent(Facts(hist, j - 1, j), Facts(hist, i, j - 1));
    }
  }

  lemma AboveConsistent(A: set<Entry>, B: set<Entry>)
    requires Consistent(A) && Consistent(B) && Above(A, B)
    ensures Consistent(A + B)
  {
  }

  lemma SubsetConsistent(A: set<Entry>, B: set<Entry>)
    requires A <= B && Consistent(B)
    ensures Consistent(A)
  {
  }

  // ---- Log files ----

  /** The records of the log files numbered lo, ..., hi - 1, in order. */
  function Tail(logs: map<nat, seq<Batch>>, lo: nat, hi: nat): seq<Batch>
    decreases hi
  {
    if hi <= lo then [] else Tail(logs, lo, hi - 1) + (if hi - 1 in logs then logs[hi - 1] else [])
  }

  lemma {:induction false} TailSplit(logs: map<nat, seq<Batch>>, lo: nat, mid: nat, hi: nat)
    requires lo <= mid <= hi
    ensures Tail(logs, lo, hi) == Tail(logs, lo, mid) + Tail(logs, mid, hi)
    decreases hi
  {
    if mid < hi {
      TailSplit(logs, lo, mid, hi - 1);
    }
  }

  /** Only the log files in the range matter. */
  lemma {:induction false} TailLocal(logs: map<nat, seq<Batch>>, logs': map<nat, seq<Batch>>, lo: nat, hi: nat)
    requires forall n :: lo <= n < hi ==> (n in logs <==> n in logs')
    requires forall n :: lo <= n < hi && n in logs ==> logs[n] == logs'[n]
    ensures Tail(logs, lo, hi) == Tail(logs', lo, hi)
    decreases hi
  {
    if lo < hi {
      TailLocal(logs, logs', lo, hi - 1);
    }
  }

  lemma {:induction false} TailEmpty(logs: map<nat, seq<Batch>>, lo: nat, hi: nat)
    requires forall n :: lo <= n < hi && n in logs ==> logs[n] == []
    ensures Tail(logs, lo, hi) == []
    decreases hi
  {
    if lo < hi {
      TailEmpty(logs, lo, hi - 1);
    }
  }
}
