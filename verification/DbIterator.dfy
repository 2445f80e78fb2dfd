/** The user-visible cursor over internal entries (db/db_iter.cc). */
module DbIterator {
  import opened DbFormat
  import opened History
  import opened SortedRuns
  import opened MergingIterators

  // ---- Visible entries ----

  /** Entry i is what a reader at s sees of its user key: the newest at or below s, and a value. */
  ghost predicate Visible(m: seq<Entry>, s: nat, i: nat) {
    && i < |m| && m[i].num <= s && m[i].op.Put?
    && forall j :: 0 <= j < i && m[j].user == m[i].user ==> m[j].num > s
  }

  lemma UsersIncrease(m: seq<Entry>, i: nat, j: nat)
    requires Sorted(m) && i <= j < |m|
    ensures m[i].user <= m[j].user
  {
    assert i == j || Less(KeyOf(m[i]), KeyOf(m[j]));
  }

  lemma VisibleReads(m: seq<Entry>, s: nat, i: nat)
    requires Sorted(m) && Consistent(SetOf(m)) && Visible(m, s, i)
    ensures Read(SetOf(m), m[i].user, s) == Some(m[i].op.value)
  {
    forall x | Candidate(SetOf(m), m[i].user, s, x)
      ensures x.num <= m[i].num
    {
      var j :| 0 <= j < |m| && m[j] == x;
      assert i < j ==> Less(KeyOf(m[i]), KeyOf(m[j]));
    }
    assert IsNewest(SetOf(m), m[i].user, s, m[i]);
    LookupIs(SetOf(m), m[i].user, s, m[i]);
  }

  lemma ReadIsVisible(m: seq<Entry>, s: nat, u: UserKey) returns (i: nat)
    requires Sorted(m) && Consistent(SetOf(m)) && Read(SetOf(m), u, s).Some?
    ensures Visible(m, s, i) && m[i].user == u
  {
    var e :| IsNewest(SetOf(m), u, s, e) && Lookup(SetOf(m), u, s).value == e.op;
    assert Candidate(SetOf(m), u, s, e);
    i :| 0 <= i < |m| && m[i] == e;
    forall j | 0 <= j < i && m[j].user == u
      ensures m[j].num > s
    {
      assert Less(KeyOf(m[j]), KeyOf(m[i]));
      assert Candidate(SetOf(m), u, s, m[j]) <==> m[j].num <= s;
    }
  }

  // ---- The keys a move may yield ----

  /** Keys after one key (exclusive) or from one key on (inclusive). */
  predicate Wanted(after: Option<UserKey>, from: Option<UserKey>, u: UserKey) {
    (after.None? || u > after.value) && (from.None? || u >= from.value)
  }

  /** No visible entry among the first n is wanted. */
  ghost predicate NoneBelow(m: seq<Entry>, s: nat, n: nat, after: Option<UserKey>, from: Option<UserKey>) {
    forall i :: 0 <= i < n && Visible(m, s, i) ==> !Wanted(after, from, m[i].user)
  }

  /** No visible entry from index n on is before the key. */
  ghost predicate NoneAbove(m: seq<Entry>, s: nat, n: nat, before: Option<UserKey>) {
    forall i :: n <= i < |m| && Visible(m, s, i) ==> before.Some? && m[i].user >= before.value
  }

  lemma LeastKey(m: seq<Entry>, s: nat, n: nat, after: Option<UserKey>, from: Option<UserKey>, u: UserKey)
    requires Sorted(m) && Consistent(SetOf(m)) && n <= |m| && NoneBelow(m, s, n, after, from)
    requires Wanted(after, from, u) && (n < |m| ==> u < m[n].user)
    ensures Read(SetOf(m), u, s).None?
  {
    if Read(SetOf(m), u, s).Some? {
      var i := ReadIsVisible(m, s, u);
      if n <= i {
        UsersIncrease(m, n, i);
      }
    }
  }

  lemma GreatestKey(m: seq<Entry>, s: nat, n: nat, before: Option<UserKey>, u: UserKey)
    requires Sorted(m) && Consistent(SetOf(m)) && n <= |m| && NoneAbove(m, s, n, before)
    requires (before.Some? ==> u < before.value) && (n > 0 ==> u > m[n - 1].user)
    ensures Read(SetOf(m), u, s).None?
  {
    if Read(SetOf(m), u, s).Some? {
      var i := ReadIsVisible(m, s, u);
      if i < n {
        UsersIncrease(m, i, n - 1);
      }
    }
  }

  // ---- The forward scan ----

  /** State of FindNextUserEntry before entry n.  Every entry passed that a reader at s could see
      is of a skipped key or before the start; entries to come of a skipped key are not wanted;
      nothing wanted has been passed. */
  ghost predicate Scanning(m: seq<Entry>, s: nat, n: nat, skip: Option<UserKey>, after: Option<UserKey>, from: Option<UserKey>) {
    && n <= |m|
    && (after.Some? ==> skip.Some? && skip.value >= after.value)
    && (forall i :: n <= i < |m| && m[i].num <= s ==> NotBefore(after, m[i].user) && NotBefore(from, m[i].user))
    && (forall i :: 0 <= i < n && m[i].num <= s ==> AtMost(m[i].user, skip) || !NotBefore(from, m[i].user))
    && (forall i :: n <= i < |m| && AtMost(m[i].user, skip) && Visible(m, s, i) ==> !Wanted(after, from, m[i].user))
    && NoneBelow(m, s, n, after, from)
  }

  predicate NotBefore(k: Option<UserKey>, u: UserKey) {
    k.Some? ==> u >= k.value
  }

  predicate AtMost(u: UserKey, k: Option<UserKey>) {
    k.Some? && u <= k.value
  }

  lemma ScanDeletion(m: seq<Entry>, s: nat, n: nat, skip: Option<UserKey>, after: Option<UserKey>, from: Option<UserKey>)
    requires Sorted(m) && Scanning(m, s, n, skip, after, from) && n < |m| && m[n].num <= s && m[n].op.Del?
    ensures Scanning(m, s, n + 1, Some(m[n].user), after, from)
  {
    UsersBefore(m, n);
  }

  /** An entry that is too new, or of a skipped key. */
  lemma ScanHidden(m: seq<Entry>, s: nat, n: nat, skip: Option<UserKey>, after: Option<UserKey>, from: Option<UserKey>)
    requires Scanning(m, s, n, skip, after, from) && n < |m| && (m[n].num > s || AtMost(m[n].user, skip))
    ensures Scanning(m, s, n + 1, skip, after, from)
  {
  }

  lemma ScanFinds(m: seq<Entry>, s: nat, n: nat, skip: Option<UserKey>, after: Option<UserKey>, from: Option<UserKey>)
    requires Scanning(m, s, n, skip, after, from) && n < |m| && m[n].num <= s && m[n].op.Put? && !AtMost(m[n].user, skip)
    ensures Visible(m, s, n) && Wanted(after, from, m[n].user)
  {
  }

  lemma UsersBefore(m: seq<Entry>, i: nat)
    requires Sorted(m) && i < |m|
    ensures forall j :: 0 <= j < i ==> m[j].user <= m[i].user
    ensures forall j :: i < j < |m| ==> m[i].user <= m[j].user
  {
    forall j | 0 <= j < |m|
      ensures j < i ==> m[j].user <= m[i].user
      ensures i < j ==> m[i].user <= m[j].user
    {
      UsersIncrease(m, if j < i then j else i, if j < i then i else j);
    }
  }

  /** Where the scan of FindNextUserEntry ends: the entry to yield, or |m|. */
  function Scan(m: seq<Entry>, s: nat, n: nat, skip: Option<UserKey>): nat
    requires n <= |m|
    decreases |m| - n
  {
    if n == |m| then n
    else if m[n].num <= s && m[n].op.Del? then Scan(m, s, n + 1, Some(m[n].user))
    else if m[n].num <= s && !AtMost(m[n].user, skip) then n
    else Scan(m, s, n + 1, skip)
  }

  /** The scan yields the first wanted visible entry. */
  lemma {:induction false} ScanCorrect(m: seq<Entry>, s: nat, n: nat, skip: Option<UserKey>, after: Option<UserKey>, from: Option<UserKey>)
    requires Sorted(m) && Scanning(m, s, n, skip, after, from)
    ensures var r := Scan(m, s, n, skip);
      && n <= r <= |m| && NoneBelow(m, s, r, after, from)
      && (r < |m| ==> Visible(m, s, r) && Wanted(after, from, m[r].user))
    decreases |m| - n
  {
    if n == |m| {
    } else if m[n].num <= s && m[n].op.Del? {
      ScanDeletion(m, s, n, skip, after, from);
      ScanCorrect(m, s, n + 1, Some(m[n].user), after, from);
    } else if m[n].num <= s && !AtMost(m[n].user, skip) {
      ScanFinds(m, s, n, skip, after, from);
    } else {
      ScanHidden(m, s, n, skip, after, from);
      ScanCorrect(m, s, n + 1, skip, after, from);
    }
  }

  // ---- The backward scan ----

  /** State of FindPrevUserEntry after entry n has been passed going down.  best is the last entry
      passed that a reader at s could see, if it is a value. */
  ghost predicate ScanningBack(m: seq<Entry>, s: nat, n: int, best: Option<nat>, before: Option<UserKey>) {
    && -1 <= n < |m|
    && (forall i :: 0 <= i <= n ==> Before(m[i].user, before))
    && (best.Some? ==>
          && n < best.value < |m| && m[best.value].num <= s && m[best.value].op.Put? && Before(m[best.value].user, before)
          && forall i :: n < i < best.value ==> m[i].num > s)
    && (forall i :: n < i < |m| && Visible(m, s, i) && Before(m[i].user, before) ==> best == Some(i))
  }

  predicate Before(u: UserKey, k: Option<UserKey>) {
    k.Some? ==> u < k.value
  }

  lemma BackOne(m: seq<Entry>, s: nat, n: nat, best: Option<nat>, before: Option<UserKey>)
    requires Sorted(m) && ScanningBack(m, s, n, best, before) && n < |m|
    requires m[n].num <= s ==> best.None? || m[n].user >= m[best.value].user
    ensures ScanningBack(m, s, n - 1, if m[n].num > s then best else if m[n].op.Put? then Some(n) else None, before)
  {
    if m[n].num <= s && best.Some? {
      UsersIncrease(m, n, best.value);
    }
  }

  /** The scan stops: the best entry is what a reader sees, and nothing wanted lies above it. */
  lemma BackFinds(m: seq<Entry>, s: nat, n: int, best: nat, before: Option<UserKey>)
    requires Sorted(m) && ScanningBack(m, s, n, Some(best), before)
    requires n >= 0 ==> m[n].user < m[best].user
    ensures Visible(m, s, best) && NoneAbove(m, s, best + 1, before)
    ensures forall i :: n < i < best ==> m[i].num > s
  {
    forall j | 0 <= j < best && m[j].user == m[best].user
      ensures m[j].num > s
    {
      if j <= n {
        UsersIncrease(m, j, n);
      }
    }
  }

  /** Where the scan of FindPrevUserEntry ends: the entry it stops before, and the best entry. */
  function ScanBack(m: seq<Entry>, s: nat, n: int, best: Option<nat>): (r: (int, Option<nat>))
    requires -1 <= n < |m| && (best.Some? ==> best.value < |m|)
    ensures -1 <= r.0 <= n && (r.1.Some? ==> r.1.value < |m|)
    decreases n
  {
    if n < 0 then (n, best)
    else if m[n].num > s then ScanBack(m, s, n - 1, best)
    else if best.Some? && m[n].user < m[best.value].user then (n, best)
    else ScanBack(m, s, n - 1, if m[n].op.Put? then Some(n) else None)
  }

  /** From index r, the next entry going up that a reader at s could see is b. */
  ghost predicate JustBefore(m: seq<Entry>, s: nat, r: int, b: nat) {
    && -1 <= r < b < |m|
    && (r >= 0 ==> m[r].user < m[b].user)
    && forall i :: r < i < b ==> m[i].num > s
  }

  /** b is the last visible entry before the key, if there is one. */
  ghost predicate LastVisible(m: seq<Entry>, s: nat, b: Option<nat>, before: Option<UserKey>) {
    if b.None? then NoneAbove(m, s, 0, before)
    else Visible(m, s, b.value) && Before(m[b.value].user, before) && NoneAbove(m, s, b.value + 1, before)
  }

  /** The backward scan yields the last wanted visible entry and stops just before its key. */
  lemma {:induction false} ScanBackCorrect(m: seq<Entry>, s: nat, n: int, best: Option<nat>, before: Option<UserKey>)
    requires Sorted(m) && ScanningBack(m, s, n, best, before)
    ensures var (r, b) := ScanBack(m, s, n, best);
      LastVisible(m, s, b, before) && (b.Some? ==> JustBefore(m, s, r, b.value))
    decreases n
  {
    if n < 0 || (m[n].num <= s && best.Some? && m[n].user < m[best.value].user) {
      if best.Some? {
        BackFinds(m, s, n, best.value, before);
      }
    } else {
      BackOne(m, s, n, best, before);
      ScanBackCorrect(m, s, n - 1, if m[n].num > s then best else if m[n].op.Put? then Some(n) else None, before);
    }
  }

  // ---- What a move yields, said on the store ----

  /** r is the least wanted key that has a value at s. */
  ghost predicate Least(E: set<Entry>, s: nat, r: Option<UserKey>, after: Option<UserKey>, from: Option<UserKey>) {
    && (r.Some? ==> Wanted(after, from, r.value) && Read(E, r.value, s).Some?)
    && forall u :: Wanted(after, from, u) && (r.Some? ==> u < r.value) ==> Read(E, u, s).None?
  }

  /** r is the greatest key before the given one that has a value at s. */
  ghost predicate Greatest(E: set<Entry>, s: nat, r: Option<UserKey>, before: Option<UserKey>) {
    && (r.Some? ==> Before(r.value, before) && Read(E, r.value, s).Some?)
    && forall u :: Before(u, before) && (r.Some? ==> u > r.value) ==> Read(E, u, s).None?
  }

  function KeyAt(m: seq<Entry>, i: nat): Option<UserKey> {
    if i < |m| then Some(m[i].user) else None
  }

  /** The forward scan from n yields the least wanted key. */
  ghost predicate Yields(m: seq<Entry>, s: nat, n: nat, after: Option<UserKey>, from: Option<UserKey>) {
    && n <= |m|
    && Least(SetOf(m), s, KeyAt(m, Scan(m, s, n, after)), after, from)
    && (Scan(m, s, n, after) < |m| ==> Visible(m, s, Scan(m, s, n, after)))
  }

  lemma ScanIsLeast(m: seq<Entry>, s: nat, n: nat, after: Option<UserKey>, from: Option<UserKey>)
    requires Sorted(m) && Consistent(SetOf(m)) && Scanning(m, s, n, after, after, from)
    ensures Yields(m, s, n, after, from)
  {
    ScanCorrect(m, s, n, after, after, from);
    var r := Scan(m, s, n, after);
    if r < |m| {
      VisibleReads(m, s, r);
    }
    forall u | Wanted(after, from, u) && (r < |m| ==> u < m[r].user)
      ensures Read(SetOf(m), u, s).None?
    {
      LeastKey(m, s, r, after, from, u);
    }
  }

  lemma LastVisibleIsGreatest(m: seq<Entry>, s: nat, b: Option<nat>, before: Option<UserKey>)
    requires Sorted(m) && Consistent(SetOf(m)) && LastVisible(m, s, b, before)
    ensures Greatest(SetOf(m), s, if b.Some? then Some(m[b.value].user) else None, before)
  {
    if b.Some? {
      VisibleReads(m, s, b.value);
    }
    forall u | Before(u, before) && (b.Some? ==> u > m[b.value].user)
      ensures Read(SetOf(m), u, s).None?
    {
      GreatestKey(m, s, if b.Some? then b.value + 1 else 0, before, u);
    }
  }

  /** The backward scan from n yields the greatest wanted key. */
  ghost predicate YieldsBack(m: seq<Entry>, s: nat, n: int, before: Option<UserKey>) {
    && -1 <= n < |m|
    && var (r, b) := ScanBack(m, s, n, None);
       && Greatest(SetOf(m), s, if b.Some? then Some(m[b.value].user) else None, before)
       && (b.Some? ==> Visible(m, s, b.value) && JustBefore(m, s, r, b.value))
  }

  lemma ScanBackIsGreatest(m: seq<Entry>, s: nat, n: int, before: Option<UserKey>)
    requires Sorted(m) && Consistent(SetOf(m)) && ScanningBack(m, s, n, None, before)
    ensures YieldsBack(m, s, n, before)
  {
    ScanBackCorrect(m, s, n, None, before);
    LastVisibleIsGreatest(m, s, ScanBack(m, s, n, None).1, before);
  }

  /** Seeking to (k, s): everything before is of a smaller key or too new. */
  lemma SeekStarts(m: seq<Entry>, s: nat, k: UserKey)
    requires Sorted(m) && Consistent(SetOf(m))
    ensures Yields(m, s, SeekIndex(m, SeekKey(k, s)), None, Some(k))
  {
    SeekScanning(m, s, k);
    ScanIsLeast(m, s, SeekIndex(m, SeekKey(k, s)), None, Some(k));
  }

  lemma SeekScanning(m: seq<Entry>, s: nat, k: UserKey)
    requires Sorted(m)
    ensures Scanning(m, s, SeekIndex(m, SeekKey(k, s)), None, None, Some(k))
  {
    var n := SeekIndex(m, SeekKey(k, s));
    SeekSplits(m, SeekKey(k, s));
    assert forall i :: 0 <= i < n && m[i].num <= s ==> m[i].user < k;
    assert forall i :: n <= i < |m| ==> m[i].user >= k;
  }

  /** Starting over the entries of key k and before. */
  lemma NextStarts(m: seq<Entry>, s: nat, n: nat, k: UserKey)
    requires n <= |m|
    requires forall i :: 0 <= i < n && m[i].num <= s ==> m[i].user <= k
    requires forall i :: n <= i < |m| && m[i].num <= s ==> m[i].user >= k
    ensures Scanning(m, s, n, Some(k), Some(k), None)
  {
  }

  // ---- DBIter ----

  class DBIter {
    const iter: MergingIterator
    const sequence: nat
    var savedKey: Option<UserKey>
    var savedValue: Bytes
    var forward: bool
    var valid: bool
    ghost var at: nat

    /** The store this iterator looks at. */
    ghost function Store(): set<Entry> {
      SetOf(iter.merged)
    }

    /** Where the internal iterator is; -1 when it is on no entry. */
    ghost function Inner(): int
      requires iter.Valid()
      reads this, iter, iter.children
    {
      if iter.Positioned() then iter.Index() else -1
    }

    /** Going forward the internal iterator is on the entry yielded; going backward it is before
        every entry that could be seen at the key yielded or after it. */
    ghost predicate Valid()
      reads this, iter, iter.children
    {
      && iter.Valid()
      && (valid ==> Visible(iter.merged, sequence, at))
      && (valid && forward ==> Inner() == at)
      && (valid && !forward ==>
            && savedKey == Some(iter.merged[at].user) && savedValue == iter.merged[at].op.value
            && JustBefore(iter.merged, sequence, Inner(), at))
    }

    constructor (iter: MergingIterator, sequence: nat)
      requires iter.Valid()
      ensures Valid() && !valid && this.iter == iter && this.sequence == sequence
    {
      this.iter, this.sequence := iter, sequence;
      savedKey, savedValue, forward, valid := None, [], true, false;
    }

    function Key(): (k: UserKey)
      requires Valid() && valid
      reads this, iter, iter.children
      ensures k == iter.merged[at].user
    {
      if forward then iter.Entry().user else savedKey.value
    }

    function Value(): (v: Bytes)
      requires Valid() && valid
      reads this, iter, iter.children
      ensures v == iter.merged[at].op.value
    {
      if forward then iter.Entry().op.value else savedValue
    }

    /** The scan is before entry i, and will end where the whole scan does. */
    ghost predicate ScanAt(i: nat, skip: Option<UserKey>, end: nat)
      reads this, iter, iter.children
    {
      i <= |iter.merged| && iter.On(i) && Scan(iter.merged, sequence, i, skip) == end
    }

    /** One turn of the forward scan: stops on the entry to yield, or moves on. */
    method ScanTurn(skipping0: bool, skip0: Option<UserKey>, ghost i: nat, ghost end: nat)
      returns (found: bool, skipping: bool, skip: Option<UserKey>)
      requires ScanAt(i, skip0, end) && iter.Positioned() && (skipping0 <==> skip0.Some?)
      modifies iter, iter.children
      ensures skipping <==> skip.Some?
      ensures found ==> i == end < |iter.merged| && iter.On(i)
      ensures !found ==> i < |iter.merged| && ScanAt(i + 1, skip, end)
    {
      var e := iter.Entry();
      found, skipping, skip := false, skipping0, skip0;
      if e.num <= sequence && e.op.Del? {
        skipping, skip := true, Some(e.user);
      } else if e.num <= sequence && !(skipping && e.user <= skip.value) {
        found := true;
        return;
      }
      iter.Next();
    }

    method ScanForward(skipping0: bool, skip0: Option<UserKey>) returns (found: bool, ghost end: nat)
      requires iter.Valid() && iter.Positioned() && (skipping0 <==> skip0.Some?)
      modifies iter, iter.children
      ensures end == Scan(iter.merged, sequence, old(iter.Index()), skip0) && iter.On(end)
      ensures found == iter.Positioned()
    {
      var skipping, skip := skipping0, skip0;
      ghost var i := iter.Index();
      end := Scan(iter.merged, sequence, i, skip0);
      found := false;
      while iter.Positioned()
        invariant ScanAt(i, skip, end) && (skipping <==> skip.Some?)
        decreases |iter.merged| - i
      {
        found, skipping, skip := ScanTurn(skipping, skip, i, end);
        if found {
          return;
        }
        i := i + 1;
      }
      found := false;
    }

    /** Scans forward to the entry to yield; skip holds a key whose entries are hidden. */
    method FindNextUserEntry(skipping0: bool, skip0: Option<UserKey>)
      requires iter.Valid() && iter.Positioned() && forward && (skipping0 <==> skip0.Some?)
      modifies this, iter, iter.children
      ensures forward && iter.On(Scan(iter.merged, sequence, old(iter.Index()), skip0))
      ensures valid == iter.Positioned() && (valid ==> at == Scan(iter.merged, sequence, old(iter.Index()), skip0))
    {
      ghost var end;
      valid, end := ScanForward(skipping0, skip0);
      savedKey, at := None, end;
    }

    /** The backward scan is at entry i with the best entry so far, and will end where the whole
        scan does. */
    ghost predicate BackAt(i: int, best: Option<nat>, end: (int, Option<nat>))
      reads this, iter, iter.children
    {
      && -1 <= i < |iter.merged| && iter.On(i) && (best.Some? ==> best.value < |iter.merged|)
      && ScanBack(iter.merged, sequence, i, best) == end
    }

    /** deletion, key and value say what the best entry is. */
    ghost predicate Remembers(best: Option<nat>, deletion: bool, key: Option<UserKey>, value: Bytes) {
      && deletion == best.None?
      && (best.Some? ==> best.value < |iter.merged| && key == Some(iter.merged[best.value].user)
                         && iter.merged[best.value].op == Put(value))
    }

    /** One turn of the backward scan: stops below the key found, or moves on. */
    method BackTurn(deletion0: bool, key0: Option<UserKey>, value0: Bytes, ghost i: int, ghost best0: Option<nat>,
                    ghost end: (int, Option<nat>))
      returns (done: bool, deletion: bool, key: Option<UserKey>, value: Bytes, ghost best: Option<nat>)
      requires BackAt(i, best0, end) && iter.Positioned() && Remembers(best0, deletion0, key0, value0)
      modifies iter, iter.children
      ensures Remembers(best, deletion, key, value)
      ensures done ==> end == (i, best) && iter.On(i)
      ensures !done ==> i >= 0 && BackAt(i - 1, best, end)
    {
      var e := iter.Entry();
      done, deletion, key, value, best := false, deletion0, key0, value0, best0;
      if e.num <= sequence {
        if !deletion && e.user < key.value {
          done := true;
          return;
        }
        if e.op.Del? {
          deletion, key, value, best := true, None, [], None;
        } else {
          deletion, key, value, best := false, Some(e.user), e.op.value, Some(i);
        }
      }
      iter.Prev();
    }

    method ScanBackward() returns (deletion: bool, key: Option<UserKey>, value: Bytes, ghost r: int, ghost best: Option<nat>)
      requires iter.Valid()
      modifies iter, iter.children
      ensures (r, best) == ScanBack(iter.merged, sequence, old(Inner()), None) && iter.On(r)
      ensures Remembers(best, deletion, key, value)
    {
      var done := false;
      deletion, key, value, best, r := true, None, [], None, Inner();
      ghost var end := ScanBack(iter.merged, sequence, r, None);
      while iter.Positioned()
        invariant BackAt(r, best, end) && Remembers(best, deletion, key, value)
        decreases r
      {
        done, deletion, key, value, best := BackTurn(deletion, key, value, r, best, end);
        if done {
          break;
        }
        r := r - 1;
      }
    }

    /** Scans backward to the entry to yield, stopping just before the entries of its key. */
    method FindPrevUserEntry()
      requires iter.Valid() && !forward
      modifies this, iter, iter.children
      ensures var (r, best) := ScanBack(iter.merged, sequence, old(Inner()), None);
        && iter.On(r) && valid == best.Some? == !forward
        && (valid ==> at == best.value && savedKey == Some(iter.merged[at].user) && iter.merged[at].op == Put(savedValue))
    {
      var deletion;
      ghost var r, best;
      deletion, savedKey, savedValue, r, best := ScanBackward();
      valid := !deletion;
      if deletion {
        forward := true;
      } else {
        at := best.value;
      }
    }

    ghost function Current(): Option<UserKey>
      requires Valid()
      reads this, iter, iter.children
    {
      if valid then Some(Key()) else None
    }

    /** The value yielded is what a reader at the sequence number sees. */
    lemma KeyHasValue()
      requires Valid() && valid && Consistent(Store())
      ensures Read(Store(), Key(), sequence) == Some(Value())
    {
      VisibleReads(iter.merged, sequence, at);
    }

    /** From the internal iterator's position, yields the next key that is not skipped. */
    method YieldForward(ghost n: nat, skip: Option<UserKey>, ghost from: Option<UserKey>)
      requires iter.On(n) && forward && Yields(iter.merged, sequence, n, skip, from)
      modifies this, iter, iter.children
      ensures Valid() && Least(Store(), sequence, Current(), skip, from)
    {
      if iter.Positioned() {
        FindNextUserEntry(skip.Some?, skip);
      } else {
        valid, savedKey := false, None;
      }
    }

    /** From the internal iterator's position, yields the next key going down. */
    method YieldBackward(ghost n: int, ghost before: Option<UserKey>)
      requires iter.On(n) && !forward && YieldsBack(iter.merged, sequence, n, before)
      modifies this, iter, iter.children
      ensures Valid() && Greatest(Store(), sequence, Current(), before)
    {
      FindPrevUserEntry();
    }

    /** Yields the least key from target on. */
    method Seek(target: UserKey)
      requires Valid() && Consistent(Store())
      modifies this, iter, iter.children
      ensures Valid() && Least(Store(), sequence, Current(), None, Some(target))
    {
      forward, savedKey, savedValue := true, None, [];
      SeekStarts(iter.merged, sequence, target);
      iter.Seek(SeekKey(target, sequence));
      YieldForward(SeekIndex(iter.merged, SeekKey(target, sequence)), None, Some(target));
    }

    method SeekToFirst()
      requires Valid() && Consistent(Store())
      modifies this, iter, iter.children
      ensures Valid() && Least(Store(), sequence, Current(), None, None)
    {
      forward, savedValue := true, [];
      ScanIsLeast(iter.merged, sequence, 0, None, None);
      iter.SeekToFirst();
      YieldForward(0, None, None);
    }

    method SeekToLast()
      requires Valid() && Consistent(Store())
      modifies this, iter, iter.children
      ensures Valid() && Greatest(Store(), sequence, Current(), None)
    {
      forward, savedValue := false, [];
      ScanBackIsGreatest(iter.merged, sequence, |iter.merged| - 1, None);
      iter.SeekToLast();
      YieldBackward(|iter.merged| - 1, None);
    }

    /** The first half of Next: the internal iterator moves on, turning round if need be. */
    method StepForward()
      requires Valid() && valid
      modifies this, iter, iter.children
      ensures forward && iter.On(old(Inner()) + 1)
    {
      if !forward {
        forward := true;
        if !iter.Positioned() {
          iter.SeekToFirst();
        } else {
          iter.Next();
        }
      } else {
        savedKey := Some(iter.Entry().user);
        iter.Next();
      }
    }

    /** What is wanted next is found from behind the internal iterator's position. */
    lemma PassEntries(k: UserKey) returns (n: nat)
      requires Valid() && valid && Consistent(Store()) && k == Key()
      ensures n == Inner() + 1 && Yields(iter.merged, sequence, n, Some(k), None)
    {
      NextPasses(iter.merged, sequence, Inner(), at);
      n := Inner() + 1;
    }

    method Advance(k: UserKey) returns (ghost n: nat)
      requires Valid() && valid && Consistent(Store()) && k == Key()
      modifies this, iter, iter.children
      ensures forward && iter.On(n) && Yields(iter.merged, sequence, n, Some(k), None)
    {
      n := PassEntries(k);
      StepForward();
    }

    /** Moves to the least key after the current one, whichever way the iterator was going. */
    method Next()
      requires Valid() && valid && Consistent(Store())
      modifies this, iter, iter.children
      ensures Valid() && Least(Store(), sequence, Current(), Some(old(Key())), None)
    {
      var k := Key();
      ghost var n := Advance(k);
      YieldForward(n, Some(k), None);
    }

    /** The first half of Prev going forward: back to the entries of smaller keys. */
    method StepBackward(k: UserKey)
      requires Valid() && valid && forward && k == Key()
      modifies this`savedKey, iter, iter.children
      ensures iter.Valid() && -1 <= Inner() < |iter.merged| && iter.On(Inner())
      ensures Inner() >= 0 ==> iter.merged[Inner()].user < k
      ensures forall j :: Inner() < j < |iter.merged| ==> iter.merged[j].user >= k
    {
      savedKey := Some(k);
      ghost var i := Inner();
      UsersBefore(iter.merged, i);
      while true
        invariant iter.On(i) && 0 <= i <= at < |iter.merged|
        invariant forall j :: i <= j < |iter.merged| ==> iter.merged[j].user >= k
        decreases i
      {
        iter.Prev();
        i := i - 1;
        if !iter.Positioned() {
          return;
        }
        if iter.Entry().user < k {
          break;
        }
      }
    }

    /** The first half of Prev: the internal iterator is turned round if need be.  There may be
        nothing before the current key. */
    method StepToBackward(k: UserKey) returns (some: bool)
      requires Valid() && valid && Consistent(Store()) && k == Key()
      modifies this`savedKey, this`forward, iter, iter.children
      ensures iter.Valid() && iter.On(Inner())
      ensures some ==> !forward && YieldsBack(iter.merged, sequence, Inner(), Some(k))
      ensures !some ==> Greatest(Store(), sequence, None, Some(k))
    {
      some := true;
      if forward {
        StepBackward(k);
        if !iter.Positioned() {
          NothingBefore(iter.merged, sequence, k);
          return false;
        }
        PrevStarts(iter.merged, sequence, Inner(), k);
        forward := false;
      } else {
        ReversePrevStarts(iter.merged, sequence, Inner(), at);
      }
    }

    /** Moves to the greatest key before the current one, whichever way the iterator was going. */
    method Prev()
      requires Valid() && valid && Consistent(Store())
      modifies this, iter, iter.children
      ensures Valid() && Greatest(Store(), sequence, Current(), Some(old(Key())))
    {
      var k := Key();
      var some := StepToBackward(k);
      if !some {
        valid, savedKey, savedValue := false, None, [];
        return;
      }
      YieldBackward(Inner(), Some(k));
    }
  }

  /** Past the entries of the current key, seen from either direction. */
  lemma NextPasses(m: seq<Entry>, s: nat, r: int, b: nat)
    requires Sorted(m) && Consistent(SetOf(m)) && Visible(m, s, b) && (r == b || JustBefore(m, s, r, b))
    ensures Yields(m, s, r + 1, Some(m[b].user), None)
  {
    AroundCurrent(m, s, r, b);
    NextStarts(m, s, r + 1, m[b].user);
    ScanIsLeast(m, s, r + 1, Some(m[b].user), None);
  }

  lemma AroundCurrent(m: seq<Entry>, s: nat, r: int, b: nat)
    requires Sorted(m) && b < |m| && (r == b || JustBefore(m, s, r, b))
    ensures r < |m| && forall i :: 0 <= i < r + 1 && m[i].num <= s ==> m[i].user <= m[b].user
    ensures forall i :: r + 1 <= i < |m| && m[i].num <= s ==> m[i].user >= m[b].user
  {
    UsersBefore(m, b);
    if r >= 0 {
      UsersBefore(m, r);
    }
  }

  lemma NothingBefore(m: seq<Entry>, s: nat, k: UserKey)
    requires Sorted(m) && Consistent(SetOf(m)) && forall i :: 0 <= i < |m| ==> m[i].user >= k
    ensures Greatest(SetOf(m), s, None, Some(k))
  {
    LastVisibleIsGreatest(m, s, None, Some(k));
  }

  lemma PrevStarts(m: seq<Entry>, s: nat, n: nat, k: UserKey)
    requires Sorted(m) && Consistent(SetOf(m)) && n < |m| && m[n].user < k && forall i :: n < i < |m| ==> m[i].user >= k
    ensures YieldsBack(m, s, n, Some(k))
  {
    UsersBefore(m, n);
    ScanBackIsGreatest(m, s, n, Some(k));
  }

  lemma ReversePrevStarts(m: seq<Entry>, s: nat, r: int, b: nat)
    requires Sorted(m) && Consistent(SetOf(m)) && JustBefore(m, s, r, b)
    ensures YieldsBack(m, s, r, Some(m[b].user))
  {
    UsersBefore(m, b);
    if r >= 0 {
      UsersBefore(m, r);
    }
    ScanBackIsGreatest(m, s, r, Some(m[b].user));
  }
}
