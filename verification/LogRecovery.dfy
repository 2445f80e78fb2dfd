/** Replaying the write-ahead logs into level-0 tables (db/db_impl.cc: RecoverLogFile, Recover;
    db/write_batch.cc: InsertInto). */
module LogRecovery {
  import opened DbFormat
  import opened History
  import opened SortedRuns
  import opened Versions
  import opened GroupLog
  import opened Protocol
  import opened ProtocolSafety
  import opened ProtocolRecovery

  // ---- Memtables ----

  /** The first i entries of a group. */
  ghost function Leading(b: Batch, i: nat): set<Entry>
    requires i <= |b.ops|
  {
    set k | 0 <= k < i :: BatchEntry(b, k)
  }

  lemma LeadingStep(b: Batch, i: nat)
    requires i < |b.ops|
    ensures Leading(b, i + 1) == Leading(b, i) + {BatchEntry(b, i)}
  {
  }

  lemma InsertedSet(e: Entry, mem: seq<Entry>)
    requires Sorted(mem) && forall x :: x in mem ==> KeyOf(x) != KeyOf(e)
    ensures Sorted(Merge([e], mem)) && SetOf(Merge([e], mem)) == SetOf(mem) + {e}
  {
    MergeSorted([e], mem);
    MergeElements([e], mem);
  }

  /** The memtable holds no entry under a key of the group: what SkipList::Insert asks for. */
  ghost predicate KeysNew(b: Batch, mem: seq<Entry>) {
    forall e, k :: e in mem && 0 <= k < |b.ops| ==> KeyOf(e) != KeyOf(BatchEntry(b, k))
  }

  /** The entries of a group have different keys. */
  lemma NextKeyNew(b: Batch, mem: seq<Entry>, r: seq<Entry>, i: nat)
    requires KeysNew(b, mem) && i < |b.ops| && SetOf(r) == SetOf(mem) + Leading(b, i)
    ensures forall x :: x in r ==> KeyOf(x) != KeyOf(BatchEntry(b, i))
  {
    forall x | x in r
      ensures KeyOf(x) != KeyOf(BatchEntry(b, i))
    {
      assert x in SetOf(r);
      if x !in mem {
        assert x.num < BatchEntry(b, i).num;
        SamePackedNumber(x, BatchEntry(b, i));
      }
    }
  }

  lemma SamePackedNumber(x: Entry, y: Entry)
    ensures KeyOf(x) == KeyOf(y) ==> x.num == y.num
  {
  }

  /** WriteBatchInternal::InsertInto: each entry goes to its place in the sorted memtable. */
  method InsertInto(b: Batch, mem: seq<Entry>) returns (r: seq<Entry>)
    requires Sorted(mem) && KeysNew(b, mem)
    ensures Sorted(r) && SetOf(r) == SetOf(mem) + GroupFacts(b)
  {
    r := mem;
    for i := 0 to |b.ops|
      invariant Sorted(r) && SetOf(r) == SetOf(mem) + Leading(b, i)
    {
      NextKeyNew(b, mem, r, i);
      InsertedSet(BatchEntry(b, i), r);
      LeadingStep(b, i);
      r := Merge([BatchEntry(b, i)], r);
    }
    assert Leading(b, |b.ops|) == GroupFacts(b);
  }

  // ---- Level-0 tables ----

  /** The table file of a memtable; an empty one gives no file. */
  function TableOf(mem: seq<Entry>, number: nat, size: nat): seq<File> {
    if mem == [] then [] else [File(number, size, KeyOf(mem[0]), KeyOf(mem[|mem| - 1]), mem)]
  }

  /** One more, newer table. */
  lemma AppendRecovered(facts: set<Entry>, first: nat, fs: seq<File>, f: File)
    requires RecoveredFiles(facts, first, fs) && ValidFile(f) && first <= f.number
    requires forall g :: g in fs ==> g.number < f.number
    requires forall x, y :: x in facts && y in f.table ==> x.num < y.num
    ensures RecoveredFiles(facts + SetOf(f.table), first, fs + [f])
  {
    ContentsAppend(fs, f);
    var gs := fs + [f];
    forall i, j | 0 <= i < j < |gs|
      ensures Precedes(gs[i], gs[j])
    {
      if j < |fs| {
        assert Precedes(fs[i], fs[j]);
      } else {
        assert fs[i] in fs && forall x :: x in fs[i].table ==> x in Contents(fs);
      }
    }
  }

  /** The groups c, ..., m - 1 are in fs; the groups m, ..., p - 1 join them as one more table. */
  lemma TableJoins(hist: seq<Batch>, c: nat, m: nat, p: nat, first: nat, fs: seq<File>, mem: seq<Entry>, number: nat, size: nat)
    requires HistOk(hist) && c <= m <= p <= |hist|
    requires RecoveredFiles(Facts(hist, c, m), first, fs) && (forall f :: f in fs ==> f.number < number) && first <= number
    requires Sorted(mem) && SetOf(mem) == Facts(hist, m, p)
    ensures RecoveredFiles(Facts(hist, c, p), first, fs + TableOf(mem, number, size))
  {
    FactsSplit(hist, c, m, p);
    if mem == [] {
      assert fs + TableOf(mem, number, size) == fs;
    } else {
      var f := TableOf(mem, number, size)[0];
      NewTableValid(hist, m, p, f);
      FactsRise(hist, c, m, p);
      assert forall y :: y in f.table ==> y in SetOf(mem);
      AppendRecovered(Facts(hist, c, m), first, fs, f);
    }
  }

  lemma NewTableValid(hist: seq<Batch>, m: nat, p: nat, f: File)
    requires HistOk(hist) && m <= p <= |hist| && SetOf(f.table) == Facts(hist, m, p)
    requires f.table != [] && Sorted(f.table) && f.smallest == KeyOf(f.table[0]) && f.largest == KeyOf(f.table[|f.table| - 1])
    ensures ValidFile(f)
  {
    forall e | e in f.table
      ensures e.num <= MAX_SEQUENCE
    {
      assert e in SetOf(f.table);
      FactRange(hist, m, p, e);
      EndMonotone(hist, p, |hist|);
    }
  }

  lemma FactsRise(hist: seq<Batch>, c: nat, m: nat, p: nat)
    requires Consecutive(hist) && c <= m <= p <= |hist|
    ensures forall x, y :: x in Facts(hist, c, m) && y in Facts(hist, m, p) ==> x.num < y.num
  {
    forall x, y | x in Facts(hist, c, m) && y in Facts(hist, m, p)
      ensures x.num < y.num
    {
      FactRange(hist, c, m, x);
      FactRange(hist, m, p, y);
    }
  }

  lemma ContentsAppend(fs: seq<File>, f: File)
    ensures Contents(fs + [f]) == Contents(fs) + SetOf(f.table)
  {
    forall e
      ensures e in Contents(fs + [f]) <==> e in Contents(fs) || e in f.table
    {
      if g :| g in fs + [f] && e in g.table {
        assert g == f || g in fs;
      }
      if g :| g in fs && e in g.table {
        assert g in fs + [f];
      }
      if e in f.table {
        assert f in fs + [f];
      }
    }
  }

  // ---- One log ----

  /** How far replay has come: groups c, ..., m - 1 are in tables, m, ..., p - 1 in the memtable. */
  ghost predicate Replayed(hist: seq<Batch>, c: nat, m: nat, p: nat, first: nat, fs: seq<File>, next: nat,
                           mem: Option<seq<Entry>>, maxSequence: nat) {
    && c <= m <= p <= |hist|
    && RecoveredFiles(Facts(hist, c, m), first, fs) && (forall f :: f in fs ==> f.number < next) && first <= next
    && (if mem.None? then m == p else Sorted(mem.value) && SetOf(mem.value) == Facts(hist, m, p))
    && maxSequence == MaxSequence(hist[c..p])
  }

  /** One more record in the memtable. */
  lemma RecordInserted(hist: seq<Batch>, c: nat, m: nat, p: nat, first: nat, fs: seq<File>, next: nat,
                       mem: Option<seq<Entry>>, maxSequence: nat, t: seq<Entry>)
    requires HistOk(hist) && Replayed(hist, c, m, p, first, fs, next, mem, maxSequence) && p < |hist|
    requires Sorted(t) && SetOf(t) == SetOf(mem.GetOr([])) + GroupFacts(hist[p])
    ensures Replayed(hist, c, m, p + 1, first, fs, next, Some(t), Max(maxSequence, LastSequence(hist[p])))
  {
    assert hist[c..p + 1][..p - c] == hist[c..p];
    assert SetOf(mem.GetOr([])) == Facts(hist, m, p);
  }

  function LastSequence(b: Batch): nat {
    if b.first + |b.ops| > 0 then b.first + |b.ops| - 1 else 0
  }

  lemma MemtableOlder(hist: seq<Batch>, m: nat, p: nat, mem: seq<Entry>)
    requires Consecutive(hist) && m <= p < |hist| && SetOf(mem) == Facts(hist, m, p)
    ensures KeysNew(hist[p], mem)
  {
    assert FollowsOn(hist, p);
    forall e, k | e in mem && 0 <= k < |hist[p].ops|
      ensures KeyOf(e) != KeyOf(BatchEntry(hist[p], k))
    {
      assert e in SetOf(mem);
      FactRange(hist, m, p, e);
      SamePackedNumber(e, BatchEntry(hist[p], k));
    }
  }

  lemma MemtableWritten(hist: seq<Batch>, c: nat, m: nat, p: nat, first: nat, fs: seq<File>, next: nat,
                        mem: seq<Entry>, maxSequence: nat, size: nat)
    requires HistOk(hist) && Replayed(hist, c, m, p, first, fs, next, Some(mem), maxSequence)
    ensures Replayed(hist, c, p, p, first, fs + TableOf(mem, next, size), next + 1, None, maxSequence)
  {
    TableJoins(hist, c, m, p, first, fs, mem, next, size);
  }

  /** InsertInto for the next record of the history. */
  method InsertRecord(b: Batch, mem: Option<seq<Entry>>, maxSequence: nat, fs: seq<File>, next: nat,
                      ghost hist: seq<Batch>, ghost c: nat, ghost m: nat, ghost p: nat, ghost first: nat)
    returns (t: seq<Entry>)
    requires HistOk(hist) && Replayed(hist, c, m, p, first, fs, next, mem, maxSequence) && p < |hist| && b == hist[p]
    ensures Replayed(hist, c, m, p + 1, first, fs, next, Some(t), Max(maxSequence, LastSequence(b)))
  {
    MemtableOlder(hist, m, p, mem.GetOr([]));
    t := InsertInto(b, mem.GetOr([]));
    RecordInserted(hist, c, m, p, first, fs, next, mem, maxSequence, t);
  }

  /** One turn of the loop in RecoverLogFile: the next record goes into the memtable, which is
      written to a table when it has grown beyond the buffer size. */
  method ReplayRecord(record: Batch, bufferSize: nat, usage: seq<Entry> -> nat, fs0: seq<File>, next0: nat,
                      mem0: Option<seq<Entry>>, max0: nat,
                      ghost hist: seq<Batch>, ghost c: nat, ghost m0: nat, ghost q: nat, ghost first: nat)
    returns (fs: seq<File>, next: nat, mem: Option<seq<Entry>>, maxSequence: nat, ghost m: nat)
    requires HistOk(hist) && Replayed(hist, c, m0, q, first, fs0, next0, mem0, max0) && q < |hist| && record == hist[q]
    ensures Replayed(hist, c, m, q + 1, first, fs, next, mem, maxSequence) && next0 <= next
  {
    var t := InsertRecord(record, mem0, max0, fs0, next0, hist, c, m0, q, first);
    fs, next, mem, maxSequence, m := fs0, next0, Some(t), max0, m0;
    if LastSequence(record) > maxSequence {
      maxSequence := LastSequence(record);
    }
    if usage(t) > bufferSize {
      MemtableWritten(hist, c, m0, q + 1, first, fs0, next0, t, maxSequence, usage(t));
      fs, next, mem, m := fs0 + TableOf(t, next0, usage(t)), next0 + 1, None, q + 1;
    }
  }

  /** RecoverLogFile: replays one log; what is left in the memtable at the end of the log is
      written to a level-0 table. */
  method RecoverLogFile(records: seq<Batch>, bufferSize: nat, usage: seq<Entry> -> nat, done: seq<File>, from: nat, maxBefore: nat,
                        ghost hist: seq<Batch>, ghost c: nat, ghost p: nat, ghost first: nat)
    returns (fs: seq<File>, next: nat, maxSequence: nat)
    requires HistOk(hist) && Replayed(hist, c, p, p, first, done, from, None, maxBefore)
    requires p + |records| <= |hist| && forall i :: 0 <= i < |records| ==> records[i] == hist[p + i]
    ensures Replayed(hist, c, p + |records|, p + |records|, first, fs, next, None, maxSequence) && from <= next
  {
    fs, next, maxSequence := done, from, maxBefore;
    var mem: Option<seq<Entry>> := None;
    ghost var m, q: nat := p, p;
    for i := 0 to |records|
      invariant q == p + i && Replayed(hist, c, m, q, first, fs, next, mem, maxSequence) && from <= next
    {
      fs, next, mem, maxSequence, m := ReplayRecord(records[i], bufferSize, usage, fs, next, mem, maxSequence, hist, c, m, q, first);
      q := q + 1;
    }
    if mem.Some? {
      var t := mem.value;
      MemtableWritten(hist, c, m, q, first, fs, next, t, maxSequence, usage(t));
      fs, next := fs + TableOf(t, next, usage(t)), next + 1;
    }
  }

  /** One turn of the loop in DBImpl::Recover. */
  method ReplayLog(logs: map<nat, seq<Batch>>, n: nat, bufferSize: nat, usage: seq<Entry> -> nat,
                   done: seq<File>, from: nat, maxBefore: nat,
                   ghost hist: seq<Batch>, ghost c: nat, ghost p: nat, ghost first: nat, ghost lo: nat, ghost limit: nat)
    returns (fs: seq<File>, next: nat, maxSequence: nat)
    requires HistOk(hist) && c <= |hist| && lo <= n < limit && Tail(logs, lo, limit) == hist[c..]
    requires p == ReplayedUpTo(logs, lo, n, c) && Replayed(hist, c, p, p, first, done, from, None, maxBefore)
    ensures var q := ReplayedUpTo(logs, lo, n + 1, c); Replayed(hist, c, q, q, first, fs, next, None, maxSequence)
    ensures from <= next && (n in logs ==> n < next)
  {
    if n in logs {
      NextRecords(logs, lo, n, limit, hist, c);
      fs, next, maxSequence := RecoverLogFile(logs[n], bufferSize, usage, done, from, maxBefore, hist, c, p, first);
      NumberUsed(hist, c, p + |logs[n]|, first, fs, next, maxSequence, Max(next, n + 1));
      next := Max(next, n + 1);
    } else {
      fs, next, maxSequence := done, from, maxBefore;
      NoLog(logs, lo, n);
    }
  }

  /** The logs below n are replayed. */
  ghost predicate LogsReplayed(logs: map<nat, seq<Batch>>, minLog: nat, n: nat, hist: seq<Batch>, c: nat, first: nat,
                               fs: seq<File>, next: nat, maxSequence: nat) {
    var p := ReplayedUpTo(logs, minLog, n, c);
    && Replayed(hist, c, p, p, first, fs, next, None, maxSequence)
    && forall k :: k in logs && minLog <= k < n ==> k < next
  }

  method ReplayNext(logs: map<nat, seq<Batch>>, minLog: nat, n: nat, limit: nat, bufferSize: nat, usage: seq<Entry> -> nat,
                    done: seq<File>, from: nat, maxBefore: nat, ghost hist: seq<Batch>, ghost c: nat, ghost first: nat)
    returns (fs: seq<File>, next: nat, maxSequence: nat)
    requires HistOk(hist) && c <= |hist| && minLog <= n < limit && Tail(logs, minLog, limit) == hist[c..]
    requires LogsReplayed(logs, minLog, n, hist, c, first, done, from, maxBefore)
    ensures LogsReplayed(logs, minLog, n + 1, hist, c, first, fs, next, maxSequence)
  {
    fs, next, maxSequence := ReplayLog(logs, n, bufferSize, usage, done, from, maxBefore, hist, c,
                                       ReplayedUpTo(logs, minLog, n, c), first, minLog, limit);
  }

  /** The part of DBImpl::Recover that replays every log from min_log on, in the order of their
      numbers.  The tables and the sequence number are what the Recover step asks for. */
  method RecoverLogs(logs: map<nat, seq<Batch>>, minLog: nat, limit: nat, bufferSize: nat, usage: seq<Entry> -> nat, first: nat,
                     ghost hist: seq<Batch>, ghost c: nat)
    returns (fs: seq<File>, next: nat, maxSequence: nat)
    requires HistOk(hist) && c <= |hist| && minLog <= limit && Tail(logs, minLog, limit) == hist[c..]
    ensures RecoveredFiles(RecordFacts(Tail(logs, minLog, limit)), first, fs)
    ensures maxSequence == MaxSequence(Tail(logs, minLog, limit))
    ensures first <= next && (forall f :: f in fs ==> f.number < next) && forall n :: n in logs && minLog <= n < limit ==> n < next
  {
    fs, next, maxSequence := [], first, 0;
    NothingReplayed(hist, c, first);
    for n := minLog to limit
      invariant LogsReplayed(logs, minLog, n, hist, c, first, fs, next, maxSequence)
    {
      fs, next, maxSequence := ReplayNext(logs, minLog, n, limit, bufferSize, usage, fs, next, maxSequence, hist, c, first);
    }
    AllReplayed(hist, c, first, fs, next, maxSequence);
  }

  lemma NothingReplayed(hist: seq<Batch>, c: nat, first: nat)
    requires c <= |hist|
    ensures Replayed(hist, c, c, c, first, [], first, None, 0)
  {
    assert hist[c..c] == [];
  }

  lemma AllReplayed(hist: seq<Batch>, c: nat, first: nat, fs: seq<File>, next: nat, maxSequence: nat)
    requires Replayed(hist, c, |hist|, |hist|, first, fs, next, None, maxSequence)
    ensures RecoveredFiles(RecordFacts(hist[c..]), first, fs) && first <= next && (forall f :: f in fs ==> f.number < next)
    ensures maxSequence == MaxSequence(hist[c..])
  {
    assert hist[c..|hist|] == hist[c..];
    RecordsAreFacts(hist, c);
  }

  /** MarkFileNumberUsed. */
  lemma NumberUsed(hist: seq<Batch>, c: nat, p: nat, first: nat, fs: seq<File>, next: nat, maxSequence: nat, next': nat)
    requires Replayed(hist, c, p, p, first, fs, next, None, maxSequence) && next <= next'
    ensures Replayed(hist, c, p, p, first, fs, next', None, maxSequence)
  {
  }

  lemma NoLog(logs: map<nat, seq<Batch>>, lo: nat, n: nat)
    requires lo <= n && n !in logs
    ensures Tail(logs, lo, n + 1) == Tail(logs, lo, n)
  {
  }

  /** The number of groups replayed once the logs below n are done. */
  function ReplayedUpTo(logs: map<nat, seq<Batch>>, lo: nat, n: nat, c: nat): nat {
    c + |Tail(logs, lo, n)|
  }

  lemma NextRecords(logs: map<nat, seq<Batch>>, lo: nat, n: nat, limit: nat, hist: seq<Batch>, c: nat)
    requires lo <= n < limit && n in logs && c <= |hist| && Tail(logs, lo, limit) == hist[c..]
    ensures var p := ReplayedUpTo(logs, lo, n, c);
      p + |logs[n]| == ReplayedUpTo(logs, lo, n + 1, c) <= |hist| && forall i :: 0 <= i < |logs[n]| ==> logs[n][i] == hist[p + i]
  {
    TailSplit(logs, lo, n + 1, limit);
    var before := Tail(logs, lo, n);
    forall i | 0 <= i < |logs[n]|
      ensures logs[n][i] == hist[c + |before| + i]
    {
      assert logs[n][i] == Tail(logs, lo, n + 1)[|before| + i] == hist[c..][|before| + i];
    }
  }
}
