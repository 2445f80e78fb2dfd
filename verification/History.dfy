/** The meaning of a store: a plain set of (user key, sequence) -> operation facts and what a
    reader at a sequence number sees in it.  Everything else is proved against this. */
module History {
  import opened DbFormat

  /** One operation per (user key, sequence). */
  ghost predicate Consistent(E: set<Entry>) {
    forall a, b :: a in E && b in E && a.user == b.user && a.num == b.num ==> a == b
  }

  ghost predicate Candidate(E: set<Entry>, k: UserKey, s: nat, e: Entry) {
    e in E && e.user == k && e.num <= s
  }

  ghost predicate IsNewest(E: set<Entry>, k: UserKey, s: nat, e: Entry) {
    Candidate(E, k, s, e) && forall x :: Candidate(E, k, s, x) ==> x.num <= e.num
  }

  /** The newest operation on k at or below s. */
  ghost function Lookup(E: set<Entry>, k: UserKey, s: nat): (r: Option<Op>)
    ensures r.Some? ==> exists e :: IsNewest(E, k, s, e) && r.value == e.op
    ensures r.None? ==> forall e :: !IsNewest(E, k, s, e)
  {
    if exists e :: IsNewest(E, k, s, e) then
      var e :| IsNewest(E, k, s, e);
      Some(e.op)
    else None
  }

  /** What a user reading k at snapshot s sees: a value, or nothing. */
  ghost function Read(E: set<Entry>, k: UserKey, s: nat): Option<Bytes> {
    var r := Lookup(E, k, s);
    if r.Some? && r.value.Put? then Some(r.value.value) else None
  }

  /** Every entry of A on a key is newer than every entry of B on that key. */
  ghost predicate Above(A: set<Entry>, B: set<Entry>) {
    forall a, b :: a in A && b in B && a.user == b.user ==> a.num > b.num
  }

  /** A and B read alike at every sequence number from floor on. */
  ghost predicate ReadsAlike(A: set<Entry>, B: set<Entry>, floor: nat) {
    forall k, s :: s >= floor ==> Read(A, k, s) == Read(B, k, s)
  }

  lemma LookupIs(E: set<Entry>, k: UserKey, s: nat, e: Entry)
    requires Consistent(E) && IsNewest(E, k, s, e)
    ensures Lookup(E, k, s) == Some(e.op)
  {
    var x :| IsNewest(E, k, s, x) && Lookup(E, k, s).value == x.op;
    assert IsNewest(E, k, s, x);
    assert Candidate(E, k, s, x) && Candidate(E, k, s, e);
  }

  lemma LookupNone(E: set<Entry>, k: UserKey, s: nat)
    requires forall x :: !Candidate(E, k, s, x)
    ensures Lookup(E, k, s) == None
  {
  }

  lemma {:induction false} NewestExists(E: set<Entry>, k: UserKey, s: nat, e: Entry) returns (n: Entry)
    requires Candidate(E, k, s, e)
    ensures IsNewest(E, k, s, n)
    decreases s - e.num
  {
    if x :| Candidate(E, k, s, x) && x.num > e.num {
      n := NewestExists(E, k, s, x);
    } else {
      n := e;
    }
  }

  /** Facts newer than s cannot be seen at s. */
  lemma ReadIgnoresNewer(E: set<Entry>, N: set<Entry>, k: UserKey, s: nat)
    requires Consistent(E + N)
    requires forall e :: e in N && e.user == k ==> e.num > s
    ensures Lookup(E + N, k, s) == Lookup(E, k, s)
  {
    assert forall x :: Candidate(E + N, k, s, x) <==> Candidate(E, k, s, x);
    if e :| Candidate(E, k, s, e) {
      var n := NewestExists(E, k, s, e);
      assert IsNewest(E + N, k, s, n);
      LookupIs(E, k, s, n);
      LookupIs(E + N, k, s, n);
    } else {
      LookupNone(E, k, s);
      LookupNone(E + N, k, s);
    }
  }

  /** A newer layer that has the key decides the lookup; otherwise the older one does. */
  lemma LookupLayered(A: set<Entry>, B: set<Entry>, k: UserKey, s: nat)
    requires Consistent(A + B) && Above(A, B)
    ensures Lookup(A + B, k, s) ==
            if Lookup(A, k, s).Some? then Lookup(A, k, s) else Lookup(B, k, s)
  {
    assert forall x :: Candidate(A + B, k, s, x) <==> Candidate(A, k, s, x) || Candidate(B, k, s, x);
    if e :| Candidate(A, k, s, e) {
      var n := NewestExists(A, k, s, e);
      assert IsNewest(A + B, k, s, n);
      LookupIs(A, k, s, n);
      LookupIs(A + B, k, s, n);
    } else {
      LookupNone(A, k, s);
      if e :| Candidate(B, k, s, e) {
        var n := NewestExists(B, k, s, e);
        assert IsNewest(A + B, k, s, n);
        LookupIs(B, k, s, n);
        LookupIs(A + B, k, s, n);
      } else {
        LookupNone(B, k, s);
        LookupNone(A + B, k, s);
      }
    }
  }

  /** Putting the same newer layer on two stores that read alike keeps them alike. */
  lemma AlikeUnderLayer(A: set<Entry>, B: set<Entry>, N: set<Entry>, floor: nat)
    requires Consistent(N + A) && Consistent(N + B)
    requires Above(N, A) && Above(N, B)
    requires ReadsAlike(A, B, floor)
    ensures ReadsAlike(N + A, N + B, floor)
  {
    forall k, s: nat | s >= floor
      ensures Read(N + A, k, s) == Read(N + B, k, s)
    {
      LookupLayered(N, A, k, s);
      LookupLayered(N, B, k, s);
      assert Read(A, k, s) == Read(B, k, s);
    }
  }
}
