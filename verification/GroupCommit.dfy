/** The writer queue of DBImpl::Write: the writer at the front commits for a group of the writers
    behind it (db/db_impl.cc). */
module GroupCommit {
  import opened DbFormat
  import opened Coding
  import opened WriteBatches

  // ---- Which writers join a group ----

  /** A call of Write: its operations (none for a call with a null batch) and its sync option. */
  datatype Request = Request(ops: Option<seq<KeyOp>>, sync: bool)

  function OpsOf(r: Request): seq<KeyOp> {
    if r.ops.Some? then r.ops.value else []
  }

  /** WriteBatchInternal::ByteSize; a null batch adds nothing. */
  function ByteSize(r: Request): nat {
    if r.ops.Some? then HEADER + |OpsBytes(OpsOf(r))| else 0
  }

  function TotalSize(rs: seq<Request>, n: nat): nat
    requires n <= |rs|
  {
    if n == 0 then 0 else TotalSize(rs, n - 1) + ByteSize(rs[n - 1])
  }

  /** A small first write limits the growth of its group. */
  function MaxSize(first: Request): nat {
    if ByteSize(first) <= 131072 then ByteSize(first) + 131072 else 1048576
  }

  /** Writer k may join the group of writer 0 once all before it have. */
  predicate Joins(rs: seq<Request>, k: nat)
    requires k < |rs|
  {
    && (rs[k].sync ==> rs[0].sync)
    && (rs[k].ops.Some? ==> TotalSize(rs, k + 1) <= MaxSize(rs[0]))
  }

  ghost predicate GroupFits(rs: seq<Request>, n: nat) {
    0 < n <= |rs| && forall k {:trigger Joins(rs, k)} :: 0 < k < n ==> Joins(rs, k)
  }

  /** The longest run of writers that may join. */
  ghost predicate IsGroup(rs: seq<Request>, n: nat) {
    GroupFits(rs, n) && (n < |rs| ==> !Joins(rs, n))
  }

  /** The operations of the first n writers, in queue order. */
  function GroupOps(rs: seq<Request>, n: nat): seq<KeyOp>
    requires n <= |rs|
  {
    if n == 0 then [] else GroupOps(rs, n - 1) + OpsOf(rs[n - 1])
  }

  lemma {:induction false} CountWithinBytes(ops: seq<KeyOp>)
    ensures |ops| <= |OpsBytes(ops)|
  {
    if ops != [] {
      CountWithinBytes(ops[..|ops| - 1]);
    }
  }

  /** Every operation takes at least one byte of the total. */
  lemma {:induction false} CountWithinSize(rs: seq<Request>, n: nat)
    requires n <= |rs|
    ensures |GroupOps(rs, n)| <= TotalSize(rs, n)
    decreases n
  {
    if n > 0 {
      CountWithinSize(rs, n - 1);
      CountWithinBytes(OpsOf(rs[n - 1]));
    }
  }

  ghost predicate Holds(b: WriteBatch, ops: seq<KeyOp>)
    reads b
  {
    b.Valid() && b.count == |ops| && b.body == OpsBytes(ops)
  }

  datatype Writer = Writer(batch: WriteBatch?, sync: bool)

  ghost predicate Carries(w: Writer, r: Request)
    reads w.batch
  {
    && w.sync == r.sync && (w.batch == null <==> r.ops.None?)
    && (w.batch != null ==> Holds(w.batch, OpsOf(r)))
  }

  /** Appending one batch to another that holds the operations before it. */
  method AppendOps(result: WriteBatch, source: WriteBatch, ghost ops: seq<KeyOp>, ghost more: seq<KeyOp>)
    requires result != source && Holds(result, ops) && Holds(source, more) && |ops| + |more| < WORD32
    modifies result
    ensures Holds(result, ops + more)
  {
    OpsBytesAppend(ops, more);
    result.Append(source);
  }

  /** The group's batch so far: the first writer's own, or the temporary one. */
  ghost predicate Gathered(result: WriteBatch, own: WriteBatch, tmp: WriteBatch, ops: seq<KeyOp>)
    reads result, own, tmp
  {
    && (result == tmp || (result == own && Holds(tmp, [])))
    && own != tmp && Holds(result, ops)
  }

  /** One more batch joins; the temporary batch takes over from the caller's. */
  method Gather(own: WriteBatch, tmp: WriteBatch, batch: WriteBatch, so: WriteBatch, ghost ops: seq<KeyOp>, ghost more: seq<KeyOp>)
    returns (result: WriteBatch)
    requires Gathered(so, own, tmp, ops) && batch != tmp && Holds(batch, more)
    requires |ops| + |more| < WORD32
    modifies tmp
    ensures Gathered(result, own, tmp, ops + more)
  {
    result := so;
    if result == own {
      result := tmp;
      assert [] + ops == ops;
      AppendOps(result, own, [], ops);
    }
    AppendOps(result, batch, ops, more);
  }

  /** The batch holds the operations of the first n writers. */
  ghost predicate GatheredUpTo(result: WriteBatch, own: WriteBatch, tmp: WriteBatch, rs: seq<Request>, n: nat)
    requires n <= |rs|
    reads result, own, tmp
  {
    Gathered(result, own, tmp, GroupOps(rs, n))
  }

  ghost predicate AllCarry(ws: seq<Writer>, rs: seq<Request>, tmp: WriteBatch)
    reads set i | 0 <= i < |ws| :: ws[i].batch
  {
    |ws| == |rs| && forall i {:trigger ws[i]} :: 0 <= i < |ws| ==> ws[i].batch != tmp && Carries(ws[i], rs[i])
  }

  lemma RepSize(b: WriteBatch, r: Request)
    requires Holds(b, OpsOf(r)) && r.ops.Some?
    ensures |b.rep| == ByteSize(r)
  {
    assert |Header(b.first, b.count)| == HEADER;
  }

  /** The bytes taken in so far bound the operations taken in. */
  lemma GroupCountFits(rs: seq<Request>, n: nat)
    requires 0 < n < |rs| && Joins(rs, n) && rs[n].ops.Some?
    ensures |GroupOps(rs, n)| + |OpsOf(rs[n])| < WORD32
  {
    CountWithinSize(rs, n + 1);
  }

  lemma GroupFitsNext(rs: seq<Request>, n: nat)
    requires GroupFits(rs, n) && n < |rs| && Joins(rs, n)
    ensures GroupFits(rs, n + 1)
  {
  }

  /** Takes in the batch of a writer that joins; a null batch brings nothing. */
  method TakeIn(ws: seq<Writer>, ghost rs: seq<Request>, n: nat, own: WriteBatch, tmp: WriteBatch, so: WriteBatch)
    returns (result: WriteBatch)
    requires AllCarry(ws, rs, tmp) && 0 < n < |ws| && Joins(rs, n)
    requires GatheredUpTo(so, own, tmp, rs, n)
    modifies tmp
    ensures AllCarry(ws, rs, tmp) && GatheredUpTo(result, own, tmp, rs, n + 1)
  {
    var w := ws[n];
    assert w.batch != tmp && Carries(w, rs[n]);
    result := so;
    if w.batch != null {
      GroupCountFits(rs, n);
      result := Gather(own, tmp, w.batch, result, GroupOps(rs, n), OpsOf(rs[n]));
      forall i {:trigger ws[i]} | 0 <= i < |ws|
        ensures ws[i].batch != tmp && Carries(ws[i], rs[i])
      {
        assert old(ws[i].batch != tmp && Carries(ws[i], rs[i]));
      }
    } else {
      assert GroupOps(rs, n + 1) == GroupOps(rs, n);
    }
  }

  /** May the next writer join?  size counts its batch when it may. */
  method TryJoin(ws: seq<Writer>, ghost rs: seq<Request>, n: nat, tmp: WriteBatch, size: nat)
    returns (joins: bool, newSize: nat)
    requires AllCarry(ws, rs, tmp) && 0 < n < |ws| && size == TotalSize(rs, n) && ws[0].batch != null
    ensures joins == Joins(rs, n)
    ensures joins ==> newSize == TotalSize(rs, n + 1)
  {
    var first, w := ws[0], ws[n];
    assert Carries(ws[0], rs[0]) && Carries(ws[n], rs[n]);
    newSize := size;
    if w.sync && !first.sync {
      return false, newSize;
    }
    RepSize(first.batch, rs[0]);
    var maxSize := if |first.batch.rep| <= 131072 then |first.batch.rep| + 131072 else 1048576;
    if w.batch != null {
      RepSize(w.batch, rs[n]);
      newSize := newSize + |w.batch.rep|;
      if newSize > maxSize {
        return false, newSize;
      }
    }
    joins := true;
  }

  ghost predicate Progress(ws: seq<Writer>, rs: seq<Request>, own: WriteBatch, tmp: WriteBatch, result: WriteBatch,
                           size: nat, n: nat)
    reads own, tmp, result, set i | 0 <= i < |ws| :: ws[i].batch
  {
    && AllCarry(ws, rs, tmp) && 0 < n <= |ws| && ws[0].batch != null
    && size == TotalSize(rs, n) && GroupFits(rs, n) && GatheredUpTo(result, own, tmp, rs, n)
  }

  /** One turn of the loop. */
  method Turn(ws: seq<Writer>, ghost rs: seq<Request>, n: nat, own: WriteBatch, tmp: WriteBatch, so: WriteBatch, size: nat)
    returns (joins: bool, result: WriteBatch, newSize: nat)
    requires Progress(ws, rs, own, tmp, so, size, n) && n < |ws|
    modifies tmp
    ensures joins == Joins(rs, n)
    ensures joins ==> Progress(ws, rs, own, tmp, result, newSize, n + 1)
    ensures !joins ==> result == so && Progress(ws, rs, own, tmp, so, size, n)
  {
    result := so;
    joins, newSize := TryJoin(ws, rs, n, tmp, size);
    if joins {
      GroupFitsNext(rs, n);
      result := TakeIn(ws, rs, n, own, tmp, result);
    }
  }

  /** The longest group, with the operations of all its writers in queue order in one batch.  The
      batches of the writers stay as they are. */
  method BuildBatchGroup(ws: seq<Writer>, tmp: WriteBatch, ghost rs: seq<Request>)
    returns (result: WriteBatch, n: nat)
    requires AllCarry(ws, rs, tmp) && ws != [] && ws[0].batch != null
    requires Holds(tmp, [])
    modifies tmp
    ensures IsGroup(rs, n) && Holds(result, GroupOps(rs, n))
    ensures result == ws[0].batch || result == tmp
  {
    assert ws[0].batch != tmp && Carries(ws[0], rs[0]);
    var own: WriteBatch := ws[0].batch;
    result := own;
    RepSize(own, rs[0]);
    GroupOfOne(rs);
    var size: nat := |own.rep|;
    n := 1;
    while n < |ws|
      invariant Progress(ws, rs, own, tmp, result, size, n)
      decreases |ws| - n
    {
      var joins, more, newSize := Turn(ws, rs, n, own, tmp, result, size);
      if !joins {
        break;
      }
      result, size, n := more, newSize, n + 1;
    }
  }

  lemma GroupOfOne(rs: seq<Request>)
    requires rs != []
    ensures GroupFits(rs, 1) && GroupOps(rs, 1) == OpsOf(rs[0]) && TotalSize(rs, 1) == ByteSize(rs[0])
  {
    assert GroupOps(rs, 0) == [] && TotalSize(rs, 0) == 0;
  }

  // ---- The queue as a protocol ----

  /** Where a writer is: waiting on its condition variable, at the front and making room, writing
      its group with the mutex released, or back from Write. */
  datatype Phase = Parked(signaled: bool) | Leading | Committing(n: nat) | Returned

  datatype Outcome = Done | Failed | SyncFailed

  /** told is the status a leader stored, or the writer's own result. */
  datatype Call = Call(request: Request, phase: Phase, told: Option<Outcome>)

  /** A finished group: its writers, the operations it wrote from sequence number first on, the
      sync option of its leader, and how it ended. */
  datatype Group = Group(members: seq<nat>, first: nat, ops: seq<KeyOp>, sync: bool, outcome: Outcome)

  /** Calls are numbered as they enter the queue; queue lists those not served yet.  groups is the
      history. */
  datatype State = State(calls: seq<Call>, queue: seq<nat>, last: nat, bgError: bool, groups: seq<Group>)

  ghost predicate Init(s: State) {
    s.calls == [] && s.queue == [] && s.groups == []
  }

  /** A call enters the queue, and waits unless it is at the front. */
  ghost predicate Arrive(s: State, s': State, r: Request) {
    s' == s.(calls := s.calls + [Call(r, if s.queue == [] then Leading else Parked(false), None)],
             queue := s.queue + [|s.calls|])
  }

  /** A writer leaves its wait, signaled or not, and looks at its condition again. */
  ghost predicate Wake(s: State, s': State, w: nat) {
    && w < |s.calls| && s.calls[w].phase.Parked?
    && var c := s.calls[w];
       s' == s.(calls := s.calls[w := c.(phase :=
             if c.told.Some? then Returned else if s.queue != [] && s.queue[0] == w then Leading else Parked(false))])
  }

  ghost predicate BackgroundError(s: State, s': State) {
    s' == s.(bgError := true)
  }

  function Requests(calls: seq<Call>, ids: seq<nat>): (rs: seq<Request>)
    requires forall i :: 0 <= i < |ids| ==> ids[i] < |calls|
    ensures |rs| == |ids|
  {
    seq(|ids|, i requires 0 <= i < |ids| => calls[ids[i]].request)
  }

  ghost predicate Known(s: State) {
    forall i :: 0 <= i < |s.queue| ==> s.queue[i] < |s.calls|
  }

  /** Room was made: the leader fixes its group and releases the mutex. */
  ghost predicate StartGroup(s: State, s': State, n: nat) {
    && Known(s) && s.queue != [] && !s.bgError
    && var w := s.queue[0];
       && s.calls[w].phase == Leading && s.calls[w].request.ops.Some?
       && IsGroup(Requests(s.calls, s.queue), n)
       && s' == s.(calls := s.calls[w := s.calls[w].(phase := Committing(n))])
  }

  /** One call after the group of n writers at the front was served. */
  function Served(c: Call, i: nat, queue: seq<nat>, n: nat, outcome: Outcome): Call
    requires 0 < n <= |queue|
  {
    if i == queue[0] then c.(phase := Returned, told := Some(outcome))
    else if i in queue[1..n] then Call(c.request, if c.phase.Parked? then Parked(true) else c.phase, Some(outcome))
    else if n < |queue| && i == queue[n] && c.phase.Parked? then c.(phase := Parked(true))
    else c
  }

  /** The group is taken off the queue, its writers are told, the new front is woken. */
  function Pop(s: State, n: nat, ops: seq<KeyOp>, outcome: Outcome): (s': State)
    requires 0 < n <= |s.queue| && s.queue[0] < |s.calls|
  {
    State(seq(|s.calls|, i requires 0 <= i < |s.calls| => Served(s.calls[i], i, s.queue, n, outcome)),
          s.queue[n..], s.last + |ops|, s.bgError || outcome == SyncFailed,
          s.groups + [Group(s.queue[..n], s.last + 1, ops, s.calls[s.queue[0]].request.sync, outcome)])
  }

  /** MakeRoomForWrite failed, or the batch is null: the leader serves itself alone. */
  ghost predicate FinishAlone(s: State, s': State, outcome: Outcome) {
    && Known(s) && s.queue != [] && s.calls[s.queue[0]].phase == Leading
    && (outcome == Failed || (outcome == Done && !s.bgError && s.calls[s.queue[0]].request.ops.None?))
    && s' == Pop(s, 1, [], outcome)
  }

  /** The record was written, synced if asked, and inserted, or one of these failed. */
  ghost predicate FinishGroup(s: State, s': State, outcome: Outcome) {
    && Known(s) && s.queue != [] && s.calls[s.queue[0]].phase.Committing?
    && (outcome == SyncFailed ==> s.calls[s.queue[0]].request.sync)
    && var n := s.calls[s.queue[0]].phase.n;
       && 0 < n <= |s.queue|
       && s' == Pop(s, n, GroupOps(Requests(s.calls, s.queue), n), outcome)
  }

  ghost predicate Next(s: State, s': State) {
    || (exists r :: Arrive(s, s', r)) || (exists w :: Wake(s, s', w)) || BackgroundError(s, s')
    || (exists n :: StartGroup(s, s', n)) || (exists o :: FinishAlone(s, s', o)) || (exists o :: FinishGroup(s, s', o))
  }

  ghost predicate Run(states: seq<State>) {
    && states != [] && Init(states[0])
    && forall i :: 0 <= i < |states| - 1 ==> Next(states[i], states[i + 1])
  }

  // ---- Invariants ----

  function Members(groups: seq<Group>): seq<nat> {
    if groups == [] then [] else Members(groups[..|groups| - 1]) + groups[|groups| - 1].members
  }

  /** Everyone is in one finished group or still queued, in the order of arrival. */
  ghost predicate Ordered(s: State) {
    && |Members(s.groups)| + |s.queue| == |s.calls|
    && (forall i {:trigger Members(s.groups)[i]} :: 0 <= i < |Members(s.groups)| ==> Members(s.groups)[i] == i)
    && (forall i {:trigger s.queue[i]} :: 0 <= i < |s.queue| ==> s.queue[i] == |Members(s.groups)| + i)
  }

  predicate Active(c: Call) {
    c.phase.Leading? || c.phase.Committing?
  }

  /** What a call may be doing, given how many calls have been served. */
  ghost predicate CallOk(s: State, i: nat)
    requires i < |s.calls|
  {
    var c := s.calls[i];
    && (c.told.Some? <==> i < |Members(s.groups)|)
    && (Active(c) ==> i == |Members(s.groups)|)
    && (c.phase.Returned? ==> c.told.Some?)
    && (c.phase == Parked(false) ==> c.told.None? && i != |Members(s.groups)|)
    && (c.phase.Committing? ==>
          Known(s) && GroupFits(Requests(s.calls, s.queue), c.phase.n) && !HasSyncFailure(s.groups))
  }

  ghost predicate AllCallsOk(s: State) {
    forall i {:trigger CallOk(s, i)} :: 0 <= i < |s.calls| ==> CallOk(s, i)
  }

  /** A finished group: the members were told its outcome, their operations were written in order
      (or nothing was), and a sync write is only in a group whose leader syncs. */
  ghost predicate GroupOk(calls: seq<Call>, g: Group) {
    && g.members != []
    && (forall i {:trigger g.members[i]} :: 0 <= i < |g.members| ==> g.members[i] < |calls|)
    && (forall i {:trigger g.members[i]} :: 0 <= i < |g.members| ==>
          calls[g.members[i]].told == Some(g.outcome) && (calls[g.members[i]].request.sync ==> g.sync))
    && g.sync == calls[g.members[0]].request.sync
    && (g.ops == GroupOps(Requests(calls, g.members), |g.members|) || (g.ops == [] && g.outcome == Failed))
  }

  ghost predicate AllGroupsOk(s: State) {
    forall k {:trigger GroupOk(s.calls, s.groups[k])} :: 0 <= k < |s.groups| ==> GroupOk(s.calls, s.groups[k])
  }

  /** Groups take consecutive sequence numbers. */
  predicate Numbered(groups: seq<Group>) {
    |groups| < 2 ||
    (var g, h := groups[|groups| - 2], groups[|groups| - 1];
     h.first == g.first + |g.ops| && Numbered(groups[..|groups| - 1]))
  }

  predicate HasSyncFailure(groups: seq<Group>) {
    groups != [] && (groups[|groups| - 1].outcome == SyncFailed || HasSyncFailure(groups[..|groups| - 1]))
  }

  /** After a failed sync every later group fails. */
  predicate SyncErrorsStick(groups: seq<Group>) {
    groups == [] ||
    (SyncErrorsStick(groups[..|groups| - 1]) && (HasSyncFailure(groups[..|groups| - 1]) ==> groups[|groups| - 1].outcome == Failed))
  }

  ghost predicate HistoryOk(s: State) {
    && Numbered(s.groups) && SyncErrorsStick(s.groups)
    && (s.groups != [] ==> s.last + 1 == s.groups[|s.groups| - 1].first + |s.groups[|s.groups| - 1].ops|)
    && (HasSyncFailure(s.groups) ==> s.bgError)
  }

  ghost predicate Inv(s: State) {
    Ordered(s) && AllCallsOk(s) && AllGroupsOk(s) && HistoryOk(s)
  }

  // ---- Steps keep the invariant ----

  lemma InitInv(s: State)
    requires Init(s)
    ensures Inv(s)
  {
  }

  /** The next call to serve is the one at the front. */
  lemma FrontIsNext(s: State)
    requires Ordered(s)
    ensures Known(s) && (s.queue != [] ==> s.queue[0] == |Members(s.groups)|)
  {
    forall i | 0 <= i < |s.queue|
      ensures s.queue[i] < |s.calls|
    {
      assert s.queue[i] == |Members(s.groups)| + i;
    }
  }

  /** More calls, and later phases of the same calls, leave the finished groups as they were. */
  lemma GroupsStay(calls: seq<Call>, calls': seq<Call>, g: Group)
    requires GroupOk(calls, g) && |calls| <= |calls'|
    requires forall i {:trigger calls'[i]} :: 0 <= i < |calls| ==>
               calls'[i].request == calls[i].request && (calls[i].told.Some? ==> calls'[i].told == calls[i].told)
    ensures GroupOk(calls', g)
  {
    assert Requests(calls', g.members) == Requests(calls, g.members);
  }

  lemma AllGroupsStay(s: State, calls': seq<Call>)
    requires AllGroupsOk(s) && |s.calls| <= |calls'|
    requires forall i {:trigger calls'[i]} :: 0 <= i < |s.calls| ==>
               calls'[i].request == s.calls[i].request && (s.calls[i].told.Some? ==> calls'[i].told == s.calls[i].told)
    ensures AllGroupsOk(s.(calls := calls'))
  {
    forall k {:trigger GroupOk(calls', s.groups[k])} | 0 <= k < |s.groups|
      ensures GroupOk(calls', s.groups[k])
    {
      assert GroupOk(s.calls, s.groups[k]);
      GroupsStay(s.calls, calls', s.groups[k]);
    }
  }

  lemma ArriveKeepsInv(s: State, s': State, r: Request)
    requires Inv(s) && Arrive(s, s', r)
    ensures Inv(s')
  {
    FrontIsNext(s);
    AllGroupsStay(s, s'.calls);
    assert Ordered(s');
    FrontIsNext(s');
    forall i {:trigger CallOk(s', i)} | 0 <= i < |s'.calls|
      ensures CallOk(s', i)
    {
      if i < |s.calls| {
        assert CallOk(s, i);
        if s.calls[i].phase.Committing? {
          FitsStay(s, s', s.calls[i].phase.n);
        }
      }
    }
  }

  /** A group fixed earlier still fits when more writers queue up behind it. */
  lemma FitsStay(s: State, s': State, n: nat)
    requires Known(s) && Known(s') && GroupFits(Requests(s.calls, s.queue), n)
    requires s.queue <= s'.queue && |s.calls| <= |s'.calls|
    requires forall i {:trigger s'.calls[i]} :: 0 <= i < |s.calls| ==> s'.calls[i].request == s.calls[i].request
    ensures GroupFits(Requests(s'.calls, s'.queue), n)
    ensures GroupOps(Requests(s'.calls, s'.queue), n) == GroupOps(Requests(s.calls, s.queue), n)
  {
    var rs, rs' := Requests(s.calls, s.queue), Requests(s'.calls, s'.queue);
    assert rs <= rs';
    GroupFitsPrefix(rs, rs', n);
  }

  lemma {:induction false} PrefixTotals(rs: seq<Request>, rs': seq<Request>, n: nat)
    requires rs <= rs' && n <= |rs|
    ensures TotalSize(rs', n) == TotalSize(rs, n) && GroupOps(rs', n) == GroupOps(rs, n)
  {
    if n > 0 {
      PrefixTotals(rs, rs', n - 1);
    }
  }

  lemma GroupFitsPrefix(rs: seq<Request>, rs': seq<Request>, n: nat)
    requires rs <= rs' && GroupFits(rs, n)
    ensures GroupFits(rs', n) && GroupOps(rs', n) == GroupOps(rs, n)
  {
    PrefixTotals(rs, rs', n);
    forall k {:trigger Joins(rs', k)} | 0 < k < n
      ensures Joins(rs', k)
    {
      PrefixTotals(rs, rs', k + 1);
      assert Joins(rs, k);
    }
  }

  lemma WakeKeepsInv(s: State, s': State, w: nat)
    requires Inv(s) && Wake(s, s', w)
    ensures Inv(s')
  {
    FrontIsNext(s);
    AllGroupsStay(s, s'.calls);
    FrontIsNext(s');
    assert CallOk(s, w);
    forall i {:trigger CallOk(s', i)} | 0 <= i < |s'.calls|
      ensures CallOk(s', i)
    {
      assert CallOk(s, i);
      if s.calls[i].phase.Committing? {
        FitsStay(s, s', s.calls[i].phase.n);
      }
    }
  }

  lemma StartGroupKeepsInv(s: State, s': State, n: nat)
    requires Inv(s) && StartGroup(s, s', n)
    ensures Inv(s')
  {
    FrontIsNext(s);
    AllGroupsStay(s, s'.calls);
    FrontIsNext(s');
    assert CallOk(s, s.queue[0]);
    FitsStay(s, s', n);
    forall i {:trigger CallOk(s', i)} | 0 <= i < |s'.calls|
      ensures CallOk(s', i)
    {
      assert CallOk(s, i);
    }
  }

  lemma BackgroundErrorKeepsInv(s: State, s': State)
    requires Inv(s) && BackgroundError(s, s')
    ensures Inv(s')
  {
    forall i {:trigger CallOk(s', i)} | 0 <= i < |s'.calls|
      ensures CallOk(s', i)
    {
      assert CallOk(s, i);
    }
    assert s'.groups == s.groups && s'.calls == s.calls;
    forall k {:trigger GroupOk(s'.calls, s'.groups[k])} | 0 <= k < |s'.groups|
      ensures GroupOk(s'.calls, s'.groups[k])
    {
      assert GroupOk(s.calls, s.groups[k]);
    }
  }

  /** Which calls Pop changes: the n next ones are told, the one behind them is woken. */
  lemma ServedByNumber(s: State, n: nat, outcome: Outcome, i: nat)
    requires Ordered(s) && 0 < n <= |s.queue| && i < |s.calls|
    ensures var m, c, c' := |Members(s.groups)|, s.calls[i], Served(s.calls[i], i, s.queue, n, outcome);
      && c'.request == c.request
      && c'.told == (if m <= i < m + n then Some(outcome) else c.told)
      && c'.phase == (if i == m then Returned
                      else if m < i <= m + n && c.phase.Parked? then Parked(true) else c.phase)
  {
    var m := |Members(s.groups)|;
    assert s.queue[0] == m;
    if m < i < m + n {
      assert s.queue[i - m] == i && s.queue[1..n][i - m - 1] == i;
    }
    if n < |s.queue| {
      assert s.queue[n] == m + n;
    }
  }

  lemma PopOrdered(s: State, n: nat, ops: seq<KeyOp>, outcome: Outcome)
    requires Ordered(s) && 0 < n <= |s.queue| && s.queue[0] < |s.calls|
    ensures Ordered(Pop(s, n, ops, outcome))
    ensures Members(Pop(s, n, ops, outcome).groups) == Members(s.groups) + s.queue[..n]
  {
    var s' := Pop(s, n, ops, outcome);
    assert s'.groups[..|s'.groups| - 1] == s.groups;
    forall i {:trigger Members(s'.groups)[i]} | 0 <= i < |Members(s'.groups)|
      ensures Members(s'.groups)[i] == i
    {
      if i < |Members(s.groups)| {
        assert Members(s.groups)[i] == i;
      } else {
        assert s.queue[i - |Members(s.groups)|] == i;
      }
    }
    forall i {:trigger s'.queue[i]} | 0 <= i < |s'.queue|
      ensures s'.queue[i] == |Members(s'.groups)| + i
    {
      assert s'.queue[i] == s.queue[n + i];
    }
  }

  /** The group just served. */
  lemma NewGroupOk(s: State, n: nat, ops: seq<KeyOp>, outcome: Outcome)
    requires Ordered(s) && Known(s) && 0 < n <= |s.queue|
    requires GroupFits(Requests(s.calls, s.queue), n)
    requires ops == GroupOps(Requests(s.calls, s.queue), n) || (ops == [] && outcome == Failed)
    ensures var s' := Pop(s, n, ops, outcome); GroupOk(s'.calls, s'.groups[|s.groups|])
  {
    var s' := Pop(s, n, ops, outcome);
    var g := s'.groups[|s.groups|];
    var rs := Requests(s.calls, s.queue);
    forall i {:trigger g.members[i]} | 0 <= i < |g.members|
      ensures g.members[i] < |s'.calls|
      ensures s'.calls[g.members[i]].told == Some(g.outcome) && (s'.calls[g.members[i]].request.sync ==> g.sync)
      ensures s'.calls[g.members[i]].request == rs[i]
    {
      assert s.queue[i] == |Members(s.groups)| + i;
      ServedByNumber(s, n, outcome, g.members[i]);
      assert i > 0 ==> Joins(rs, i);
    }
    assert Requests(s'.calls, g.members) <= rs;
    PrefixTotals(Requests(s'.calls, g.members), rs, n);
  }

  lemma PopKeepsInv(s: State, n: nat, ops: seq<KeyOp>, outcome: Outcome)
    requires Inv(s) && Known(s) && 0 < n <= |s.queue| && Active(s.calls[s.queue[0]])
    requires GroupFits(Requests(s.calls, s.queue), n)
    requires ops == GroupOps(Requests(s.calls, s.queue), n) || (ops == [] && outcome == Failed)
    requires HasSyncFailure(s.groups) ==> outcome == Failed
    ensures Inv(Pop(s, n, ops, outcome))
  {
    var s' := Pop(s, n, ops, outcome);
    var m := |Members(s.groups)|;
    PopOrdered(s, n, ops, outcome);
    FrontIsNext(s);
    FrontIsNext(s');
    assert s'.groups[..|s'.groups| - 1] == s.groups;
    forall i {:trigger s'.calls[i]} | 0 <= i < |s.calls|
      ensures s'.calls[i].request == s.calls[i].request && (s.calls[i].told.Some? ==> s'.calls[i].told == s.calls[i].told)
    {
      ServedByNumber(s, n, outcome, i);
      assert CallOk(s, i);
    }
    AllGroupsStay(s, s'.calls);
    NewGroupOk(s, n, ops, outcome);
    forall k {:trigger GroupOk(s'.calls, s'.groups[k])} | 0 <= k < |s'.groups|
      ensures GroupOk(s'.calls, s'.groups[k])
    {
      if k < |s.groups| {
        assert GroupOk(s'.calls, s.(calls := s'.calls).groups[k]);
      }
    }
    forall i {:trigger CallOk(s', i)} | 0 <= i < |s'.calls|
      ensures CallOk(s', i)
    {
      ServedByNumber(s, n, outcome, i);
      assert CallOk(s, i);
    }
  }

  function Told(c: Call, outcome: Outcome): Call {
    Call(c.request, if c.phase.Parked? then Parked(true) else c.phase, Some(outcome))
  }

  /** The calls with those numbered from..to told. */
  function ToldRange(calls: seq<Call>, from: nat, to: nat, outcome: Outcome): (r: seq<Call>)
    ensures |r| == |calls|
    ensures forall i {:trigger r[i]} :: 0 <= i < |calls| ==> r[i] == if from <= i < to then Told(calls[i], outcome) else calls[i]
  {
    seq(|calls|, i requires 0 <= i < |calls| => if from <= i < to then Told(calls[i], outcome) else calls[i])
  }

  lemma ToldNext(calls: seq<Call>, from: nat, to: nat, outcome: Outcome)
    requires from <= to < |calls|
    ensures ToldRange(calls, from, to + 1, outcome) == ToldRange(calls, from, to, outcome)[to := Told(calls[to], outcome)]
  {
  }

  /** The loop at the end of Write: writers are taken off the queue and told, until the last one of
      the group comes up. */
  method TakeOff(s: State, lastWriter: nat, ghost n: nat, outcome: Outcome) returns (calls: seq<Call>, queue: seq<nat>)
    requires Ordered(s) && Known(s) && 0 < n <= |s.queue| && s.queue[n - 1] == lastWriter
    ensures queue == s.queue[n..]
    ensures calls == ToldRange(s.calls, |Members(s.groups)| + 1, |Members(s.groups)| + n, outcome)
  {
    var w := s.queue[0];
    var ready := w;
    ghost var k := 0;
    ghost var m := |Members(s.groups)|;
    calls, queue := s.calls, s.queue;
    assert calls == ToldRange(s.calls, m + 1, m + 1, outcome);
    while true
      invariant 0 <= k < n && queue == s.queue[k..]
      invariant calls == ToldRange(s.calls, m + 1, if k == 0 then m + 1 else m + k, outcome)
      decreases n - k
    {
      ready, queue := queue[0], queue[1..];
      assert ready == s.queue[k] == m + k;
      if ready != w {
        ToldNext(s.calls, m + 1, m + k, outcome);
        calls := calls[ready := Told(calls[ready], outcome)];
      }
      if ready == lastWriter {
        assert s.queue[n - 1] == m + n - 1;
        break;
      }
      k := k + 1;
    }
  }

  /** Write after the group is done: its writers are told, the new front is woken, and the leader
      returns. */
  method TellGroup(s: State, lastWriter: nat, ghost n: nat, outcome: Outcome) returns (calls: seq<Call>, queue: seq<nat>)
    requires Ordered(s) && Known(s) && 0 < n <= |s.queue| && s.queue[n - 1] == lastWriter
    ensures calls == Pop(s, n, [], outcome).calls && queue == Pop(s, n, [], outcome).queue
  {
    calls, queue := TakeOff(s, lastWriter, n, outcome);
    ghost var told := calls;
    if queue != [] && calls[queue[0]].phase.Parked? {
      calls := calls[queue[0] := calls[queue[0]].(phase := Parked(true))];
    }
    var w := s.queue[0];
    calls := calls[w := calls[w].(phase := Returned, told := Some(outcome))];
    forall i | 0 <= i < |calls|
      ensures calls[i] == Served(s.calls[i], i, s.queue, n, outcome)
    {
      assert queue != [] ==> queue[0] == s.queue[n];
      ServedByNumber(s, n, outcome, i);
      assert told[i].request == s.calls[i].request;
    }
    assert calls == Pop(s, n, [], outcome).calls;
  }

  lemma FinishAloneKeepsInv(s: State, s': State, outcome: Outcome)
    requires Inv(s) && FinishAlone(s, s', outcome)
    ensures Inv(s')
  {
    var rs := Requests(s.calls, s.queue);
    assert GroupFits(rs, 1);
    GroupOfOne(rs);
    PopKeepsInv(s, 1, [], outcome);
  }

  lemma FinishGroupKeepsInv(s: State, s': State, outcome: Outcome)
    requires Inv(s) && FinishGroup(s, s', outcome)
    ensures Inv(s')
  {
    assert CallOk(s, s.queue[0]);
    var n := s.calls[s.queue[0]].phase.n;
    PopKeepsInv(s, n, GroupOps(Requests(s.calls, s.queue), n), outcome);
  }

  lemma NextKeepsInv(s: State, s': State)
    requires Inv(s) && Next(s, s')
    ensures Inv(s')
  {
    if r :| Arrive(s, s', r) {
      ArriveKeepsInv(s, s', r);
    } else if w :| Wake(s, s', w) {
      WakeKeepsInv(s, s', w);
    } else if BackgroundError(s, s') {
      BackgroundErrorKeepsInv(s, s');
    } else if n :| StartGroup(s, s', n) {
      StartGroupKeepsInv(s, s', n);
    } else if o :| FinishAlone(s, s', o) {
      FinishAloneKeepsInv(s, s', o);
    } else {
      var o :| FinishGroup(s, s', o);
      FinishGroupKeepsInv(s, s', o);
    }
  }

  lemma {:induction false} RunInv(states: seq<State>, k: nat)
    requires Run(states) && k < |states|
    ensures Inv(states[k])
  {
    if k == 0 {
      InitInv(states[0]);
    } else {
      RunInv(states, k - 1);
      assert Next(states[k - 1], states[k]);
      NextKeepsInv(states[k - 1], states[k]);
    }
  }

  // ---- What every interleaving guarantees ----

  /** At any time at most one writer is making room or writing, and it is the front of the queue. */
  lemma OneLeader(states: seq<State>, k: nat, i: nat, j: nat)
    requires Run(states) && k < |states| && i < |states[k].calls| && j < |states[k].calls|
    requires Active(states[k].calls[i]) && Active(states[k].calls[j])
    ensures i == j && states[k].queue != [] && states[k].queue[0] == i
  {
    RunInv(states, k);
    var s := states[k];
    assert CallOk(s, i) && CallOk(s, j);
    FrontIsNext(s);
  }

  /** Nobody sleeps through its turn: a writer that was told its status, or stands at the front of
      the queue, is running or has been signaled. */
  lemma NoLostWakeup(states: seq<State>, k: nat, i: nat)
    requires Run(states) && k < |states| && i < |states[k].calls|
    requires states[k].calls[i].told.Some? || (states[k].queue != [] && states[k].queue[0] == i)
    ensures states[k].calls[i].phase != Parked(false)
  {
    RunInv(states, k);
    assert CallOk(states[k], i);
    FrontIsNext(states[k]);
  }

  /** Position p of group k. */
  ghost predicate IsMember(groups: seq<Group>, k: nat, p: nat, w: nat) {
    k < |groups| && p < |groups[k].members| && groups[k].members[p] == w
  }

  /** How many calls the first k groups serve. */
  function Before(groups: seq<Group>, k: nat): nat
    requires k <= |groups|
  {
    if k == 0 then 0 else Before(groups, k - 1) + |groups[k - 1].members|
  }

  /** Where a member of a group stands in the order of arrival. */
  lemma {:induction false} MemberAt(groups: seq<Group>, k: nat, p: nat)
    requires k < |groups| && p < |groups[k].members|
    ensures Before(groups, k) + p < |Members(groups)|
    ensures Members(groups)[Before(groups, k) + p] == groups[k].members[p]
    ensures |Members(groups)| == Before(groups, |groups|)
    decreases |groups|
  {
    var init := groups[..|groups| - 1];
    BeforePrefix(groups, |groups| - 1);
    MembersLength(init);
    if k < |groups| - 1 {
      MemberAt(init, k, p);
      BeforePrefix(groups, k);
    }
  }

  lemma {:induction false} MembersLength(groups: seq<Group>)
    ensures |Members(groups)| == Before(groups, |groups|)
  {
    if groups != [] {
      MembersLength(groups[..|groups| - 1]);
      BeforePrefix(groups, |groups| - 1);
    }
  }

  lemma {:induction false} BeforePrefix(groups: seq<Group>, k: nat)
    requires k < |groups|
    ensures Before(groups[..|groups| - 1], k) == Before(groups, k)
    decreases k
  {
    if k > 0 {
      BeforePrefix(groups, k - 1);
    }
  }

  lemma {:induction false} BeforeMonotone(groups: seq<Group>, j: nat, k: nat)
    requires j <= k <= |groups|
    ensures Before(groups, j) <= Before(groups, k)
    decreases k
  {
    if j < k {
      BeforeMonotone(groups, j, k - 1);
    }
  }

  /** The group that serves call w. */
  lemma {:induction false} FindGroup(groups: seq<Group>, w: nat) returns (k: nat, p: nat)
    requires w < |Members(groups)|
    ensures IsMember(groups, k, p, Members(groups)[w]) && w == Before(groups, k) + p
    decreases |groups|
  {
    var init := groups[..|groups| - 1];
    BeforePrefix(groups, |groups| - 1);
    MembersLength(init);
    if w < |Members(init)| {
      k, p := FindGroup(init, w);
      BeforePrefix(groups, k);
    } else {
      k, p := |groups| - 1, w - |Members(init)|;
    }
  }

  /** A call has a status exactly if it is in a finished group, the status is the outcome of that
      group, and no other group or position has it; a call without a status is still queued.  Only
      calls with a status have returned. */
  lemma ServedExactlyOnce(states: seq<State>, t: nat, w: nat)
    requires Run(states) && t < |states| && w < |states[t].calls|
    ensures var s := states[t];
      && (s.calls[w].phase.Returned? ==> s.calls[w].told.Some?)
      && (s.calls[w].told.Some? <==> exists k: nat, p: nat :: IsMember(s.groups, k, p, w))
      && (s.calls[w].told.None? <==> w in s.queue)
      && (forall k: nat, p: nat :: IsMember(s.groups, k, p, w) ==> s.calls[w].told == Some(s.groups[k].outcome))
      && (forall k: nat, p: nat, k': nat, p': nat :: IsMember(s.groups, k, p, w) && IsMember(s.groups, k', p', w) ==>
            k == k' && p == p')
  {
    RunInv(states, t);
    var s := states[t];
    assert CallOk(s, w);
    if s.calls[w].told.Some? {
      var k, p := FindGroup(s.groups, w);
      assert Members(s.groups)[w] == w && IsMember(s.groups, k, p, w);
    } else {
      assert s.queue[w - |Members(s.groups)|] == w;
    }
    forall k: nat, p: nat | IsMember(s.groups, k, p, w)
      ensures s.calls[w].told == Some(s.groups[k].outcome)
    {
      assert GroupOk(s.calls, s.groups[k]) && s.groups[k].members[p] == w;
    }
    forall k: nat, p: nat, k': nat, p': nat | IsMember(s.groups, k, p, w) && IsMember(s.groups, k', p', w)
      ensures k == k' && p == p'
    {
      OnePlace(s, k, p, k', p', w);
    }
  }

  /** A status, once stored, never changes. */
  lemma StatusStays(states: seq<State>, t: nat, w: nat)
    requires Run(states) && t + 1 < |states| && w < |states[t].calls| && states[t].calls[w].told.Some?
    ensures w < |states[t + 1].calls| && states[t + 1].calls[w].told == states[t].calls[w].told
    ensures states[t].groups <= states[t + 1].groups
  {
    assert Next(states[t], states[t + 1]);
    ServedExactlyOnce(states, t, w);
    var k: nat, p: nat :| IsMember(states[t].groups, k, p, w);
    assert IsMember(states[t + 1].groups, k, p, w);
    ServedExactlyOnce(states, t + 1, w);
  }

  lemma OnePlace(s: State, k: nat, p: nat, k': nat, p': nat, w: nat)
    requires Ordered(s) && IsMember(s.groups, k, p, w) && IsMember(s.groups, k', p', w)
    ensures k == k' && p == p'
  {
    SamePlace(s, k, p, w);
    SamePlace(s, k', p', w);
    if k < k' {
      BeforeMonotone(s.groups, k + 1, k');
    } else if k' < k {
      BeforeMonotone(s.groups, k' + 1, k);
    }
  }

  lemma SamePlace(s: State, k: nat, p: nat, w: nat)
    requires Ordered(s) && IsMember(s.groups, k, p, w)
    ensures w == Before(s.groups, k) + p < |Members(s.groups)|
  {
    MemberAt(s.groups, k, p);
    assert Members(s.groups)[Before(s.groups, k) + p] == Before(s.groups, k) + p;
  }

  /** Groups are served in the order in which their writers queued up, and take disjoint sequence
      ranges in that order. */
  lemma {:induction false} GroupsInOrder(states: seq<State>, t: nat, j: nat, k: nat)
    requires Run(states) && t < |states| && j < k < |states[t].groups|
    ensures var groups := states[t].groups;
      && groups[j].first + |groups[j].ops| <= groups[k].first
      && (forall p, q :: 0 <= p < |groups[j].members| && 0 <= q < |groups[k].members| ==>
            groups[j].members[p] < groups[k].members[q])
      && (groups[j].outcome == SyncFailed ==> groups[k].outcome == Failed)
  {
    RunInv(states, t);
    var s := states[t];
    Ranges(s.groups, j, k);
    AfterSyncFailure(s.groups, j, k);
    forall p, q | 0 <= p < |s.groups[j].members| && 0 <= q < |s.groups[k].members|
      ensures s.groups[j].members[p] < s.groups[k].members[q]
    {
      SamePlace(s, j, p, s.groups[j].members[p]);
      SamePlace(s, k, q, s.groups[k].members[q]);
      BeforeMonotone(s.groups, j + 1, k);
    }
  }

  lemma {:induction false} Ranges(groups: seq<Group>, j: nat, k: nat)
    requires Numbered(groups) && j < k < |groups|
    ensures groups[j].first + |groups[j].ops| <= groups[k].first
    decreases |groups|
  {
    var init := groups[..|groups| - 1];
    if k < |groups| - 1 {
      Ranges(init, j, k);
    } else if j < k - 1 {
      Ranges(init, j, k - 1);
    }
  }

  lemma {:induction false} AfterSyncFailure(groups: seq<Group>, j: nat, k: nat)
    requires SyncErrorsStick(groups) && j < k < |groups|
    ensures groups[j].outcome == SyncFailed ==> groups[k].outcome == Failed
    decreases |groups|
  {
    var init := groups[..|groups| - 1];
    if k < |groups| - 1 {
      AfterSyncFailure(init, j, k);
    } else if groups[j].outcome == SyncFailed {
      FailureStays(init, j);
    }
  }

  lemma {:induction false} FailureStays(groups: seq<Group>, j: nat)
    requires j < |groups| && groups[j].outcome == SyncFailed
    ensures HasSyncFailure(groups)
    decreases |groups|
  {
    if j < |groups| - 1 {
      FailureStays(groups[..|groups| - 1], j);
    }
  }

  /** A sync write that succeeded was in a group whose leader syncs, and the whole group's
      operations were written, in queue order. */
  lemma SyncedAndWritten(states: seq<State>, t: nat, k: nat, p: nat, w: nat)
    requires Run(states) && t < |states| && IsMember(states[t].groups, k, p, w)
    ensures forall i :: 0 <= i < |states[t].groups[k].members| ==> states[t].groups[k].members[i] < |states[t].calls|
    ensures var s, g := states[t], states[t].groups[k];
      && w == g.members[p]
      && (s.calls[w].request.sync ==> g.sync && s.calls[g.members[0]].request.sync)
      && (s.calls[w].told == Some(Done) ==> g.ops == GroupOps(Requests(s.calls, g.members), |g.members|))
  {
    RunInv(states, t);
    assert GroupOk(states[t].calls, states[t].groups[k]);
    assert states[t].groups[k].members[p] == w;
  }
}
