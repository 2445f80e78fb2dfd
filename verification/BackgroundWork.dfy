/** Scheduling of background work: MaybeScheduleCompaction, BackgroundCall and the threads that wait
    for it (db/db_impl.cc).  A step is what one thread does between taking the mutex and giving it
    up, by unlocking or by waiting. */
module BackgroundWork {
  import opened DbFormat

  const L0_COMPACTION_TRIGGER: nat := 4
  const L0_STOP_WRITES_TRIGGER: nat := 12

  // ---- State ----

  /** What a thread waits for on the one condition variable: room for a write, the end of a flush,
      its turn at or the end of a manual compaction, or the end of background work on closing. */
  datatype Reason = Room | Flush | Manual | Closing

  datatype Wait = Wait(reason: Reason, signaled: bool)

  /** The background call: none, handed to the environment, or running with the mutex released. */
  datatype Call = NoCall | Queued | Flushing | Compacting(manual: bool)

  /** The current version, as far as scheduling looks at it: the level-0 files, and whether another
      level is too big or a file was read in vain too often. */
  datatype Shape = Shape(level0: nat, other: bool)

  /** manual is manual_compaction_, as the thread that owns the request; done are the requests
      marked done.  crashed says that the background call used a request that was gone. */
  datatype State = State(scheduled: bool, call: Call, imm: bool, shape: Shape, manual: Option<nat>, done: set<nat>,
                         error: bool, shutdown: bool, waits: map<nat, Wait>, crashed: bool)

  /** NeedsCompaction. */
  predicate Needs(v: Shape) {
    v.level0 >= L0_COMPACTION_TRIGGER || v.other
  }

  predicate Work(s: State) {
    s.imm || s.manual.Some? || Needs(s.shape)
  }

  function MaybeSchedule(s: State): State {
    if s.scheduled || s.shutdown || s.error || !Work(s) then s
    else s.(scheduled := true, call := Queued)
  }

  function SignalAll(s: State): State {
    s.(waits := map t | t in s.waits :: s.waits[t].(signaled := true))
  }

  function RecordError(s: State): State {
    if s.error then s else SignalAll(s.(error := true))
  }

  /** The end of BackgroundCall. */
  function EndCall(s: State): State {
    SignalAll(MaybeSchedule(s.(scheduled := false, call := NoCall)))
  }

  // ---- Steps ----

  /** DB::Open: whatever version was recovered. */
  ghost predicate Open(s: State, v: Shape) {
    s == MaybeSchedule(State(false, NoCall, false, v, None, {}, false, false, map[], false))
  }

  function Sleep(s: State, t: nat, why: Reason): State {
    s.(waits := s.waits[t := Wait(why, false)])
  }

  /** MakeRoomForWrite finds the memtable full. */
  ghost predicate SwitchMemtable(s: State, s': State) {
    && !s.error && !s.imm && s.shape.level0 < L0_STOP_WRITES_TRIGGER
    && s' == MaybeSchedule(s.(imm := true))
  }

  ghost predicate WaitForRoom(s: State, s': State, t: nat) {
    && t !in s.waits && !s.error && (s.imm || s.shape.level0 >= L0_STOP_WRITES_TRIGGER)
    && s' == Sleep(s, t, Room)
  }

  ghost predicate WaitForFlush(s: State, s': State, t: nat) {
    t !in s.waits && !s.error && s.imm && s' == Sleep(s, t, Flush)
  }

  /** One pass of the loop of TEST_CompactRange: the request is placed if none is there, and then,
      in either case, the thread waits. */
  ghost predicate WaitForManual(s: State, s': State, t: nat) {
    && t !in s.waits && t !in s.done && !s.error && !s.shutdown
    && s' == Sleep(if s.manual.None? then MaybeSchedule(s.(manual := Some(t))) else s, t, Manual)
  }

  /** The loop of TEST_CompactRange was left: a request still in place is withdrawn. */
  ghost predicate LeaveManual(s: State, s': State, t: nat) {
    && t !in s.waits && (t in s.done || s.error || s.shutdown)
    && s' == if s.manual == Some(t) then s.(manual := None) else s
  }

  /** A waiting thread comes back from its wait, signaled or not. */
  ghost predicate Wake(s: State, s': State, t: nat) {
    t in s.waits && s' == s.(waits := s.waits - {t})
  }

  /** UpdateStats or RecordReadSample marks a file of the current version. */
  ghost predicate SeekCharge(s: State, s': State) {
    s' == MaybeSchedule(s.(shape := s.shape.(other := true)))
  }

  /** A failed sync in Write. */
  ghost predicate SyncError(s: State, s': State) {
    s' == RecordError(s)
  }

  ghost predicate BeginShutdown(s: State, s': State) {
    s' == s.(shutdown := true)
  }

  ghost predicate WaitForClose(s: State, s': State, t: nat) {
    t !in s.waits && s.shutdown && s.scheduled && s' == Sleep(s, t, Closing)
  }

  /** The background call starts: with nothing to do it ends at once.  noInputs: CompactRange found
      no file for the manual compaction. */
  ghost predicate StartCall(s: State, s': State, noInputs: bool) {
    && s.call == Queued
    && s' == if s.shutdown || s.error then EndCall(s)
             else if s.imm then s.(call := Flushing)
             else if s.manual.Some? then
               if noInputs then EndCall(s.(done := s.done + {s.manual.value}, manual := None))
               else s.(call := Compacting(true))
             else if Needs(s.shape) then s.(call := Compacting(false))
             else EndCall(s)
  }

  /** The rest of CompactMemTable: a new version and no immutable memtable, or an error. */
  function FlushResult(s: State, ok: bool, v: Shape): State {
    if ok then s.(imm := false, shape := v) else RecordError(s)
  }

  ghost predicate EndFlush(s: State, s': State, ok: bool, v: Shape) {
    && s.call == Flushing
    && s' == EndCall(FlushResult(s, ok, v))
  }

  /** DoCompactionWork flushes the immutable memtable in its middle. */
  ghost predicate FlushInside(s: State, s': State, ok: bool, v: Shape) {
    && s.call.Compacting? && s.imm
    && s' == SignalAll(FlushResult(s, ok, v))
  }

  /** The end of BackgroundCompaction: a new version or an error; a failed manual compaction is
      done, and the request is over in any case.  The request is used without a look at whether it
      is still there. */
  function CompactionResult(s: State, ok: bool, v: Shape): State
    requires s.call.Compacting? && (s.call.manual ==> s.manual.Some?)
  {
    var s1 := if ok then s.(shape := v) else RecordError(s);
    if !s.call.manual then s1
    else s1.(done := if !ok then s1.done + {s1.manual.value} else s1.done, manual := None)
  }

  ghost predicate EndCompaction(s: State, s': State, ok: bool, v: Shape) {
    && s.call.Compacting? && (s.call.manual ==> s.manual.Some?)
    && s' == EndCall(CompactionResult(s, ok, v))
  }

  /** A manual compaction whose request is gone ends by using a null pointer. */
  ghost predicate UseMissingRequest(s: State, s': State) {
    Lost(s) && s' == s.(crashed := true)
  }

  /** A manual compaction runs, and its request has been withdrawn. */
  predicate Lost(s: State) {
    s.call == Compacting(true) && s.manual.None?
  }

  /** A step of thread t that takes or leaves a wait. */
  ghost predicate ThreadStep(s: State, s': State, t: nat) {
    || WaitForRoom(s, s', t) || WaitForFlush(s, s', t) || WaitForManual(s, s', t) || WaitForClose(s, s', t)
    || LeaveManual(s, s', t) || Wake(s, s', t)
  }

  /** A step of the background call. */
  ghost predicate CallStep(s: State, s': State, noInputs: bool, ok: bool, v: Shape) {
    StartCall(s, s', noInputs) || EndFlush(s, s', ok, v) || FlushInside(s, s', ok, v) || EndCompaction(s, s', ok, v)
  }

  ghost predicate Next(s: State, s': State) {
    !s.crashed &&
    (|| (exists t :: ThreadStep(s, s', t)) || (exists n, ok, v :: CallStep(s, s', n, ok, v))
     || SwitchMemtable(s, s') || SeekCharge(s, s') || SyncError(s, s') || BeginShutdown(s, s') || UseMissingRequest(s, s'))
  }

  ghost predicate StepAt(states: seq<State>, i: nat)
    requires i + 1 < |states|
  {
    Next(states[i], states[i + 1])
  }

  ghost predicate Run(states: seq<State>) {
    && states != [] && (exists v :: Open(states[0], v))
    && forall i {:trigger StepAt(states, i)} :: 0 <= i < |states| - 1 ==> StepAt(states, i)
  }

  // ---- Invariant ----

  /** Work that may be done has a call. */
  predicate WorkIsScheduled(s: State) {
    Work(s) && !s.error && !s.shutdown ==> s.scheduled
  }

  predicate Asleep(s: State, t: nat) {
    t in s.waits && !s.waits[t].signaled
  }

  /** A thread that sleeps waits for a call that is scheduled; when an error ended its hopes it was
      signaled.  Only a thread that sleeps on after shutdown has begun may sleep for good. */
  predicate WaitOk(s: State, t: nat) {
    Asleep(s, t) ==>
      && (s.scheduled || (s.shutdown && s.waits[t].reason != Closing))
      && (s.error ==> s.waits[t].reason == Closing)
      && (s.waits[t].reason == Closing ==> s.shutdown)
  }

  ghost predicate Inv(s: State) {
    && (s.scheduled <==> s.call != NoCall)
    && WorkIsScheduled(s)
    && (forall t {:trigger WaitOk(s, t)} :: WaitOk(s, t))
    && (s.call == Flushing ==> s.imm)
    && (s.call == Compacting(true) ==> s.manual.Some? || s.error || s.shutdown)
    && PendingRequest(s)
    && (s.crashed ==> s.error || s.shutdown)
  }

  /** A request in place is not done. */
  predicate PendingRequest(s: State) {
    s.manual.Some? ==> s.manual.value !in s.done
  }

  lemma EndCallSignals(s: State, t: nat)
    ensures !Asleep(EndCall(s), t)
  {
  }

  lemma EndCallKeepsInv(s: State)
    requires PendingRequest(s) && !s.crashed
    ensures Inv(EndCall(s))
  {
    var s' := EndCall(s);
    forall t {:trigger WaitOk(s', t)}
      ensures WaitOk(s', t)
    {
      EndCallSignals(s, t);
    }
  }

  lemma SleepKeepsInv(s: State, t: nat, why: Reason)
    requires Inv(s) && t !in s.waits
    requires s.scheduled || (s.shutdown && why != Closing)
    requires s.error ==> why == Closing
    requires why == Closing ==> s.shutdown
    ensures Inv(Sleep(s, t, why))
  {
    var s' := Sleep(s, t, why);
    forall u {:trigger WaitOk(s', u)}
      ensures WaitOk(s', u)
    {
      assert WaitOk(s, u);
    }
  }

  lemma SignalKeepsInv(s: State)
    requires (s.scheduled <==> s.call != NoCall) && WorkIsScheduled(s) && PendingRequest(s)
    requires (s.call == Flushing ==> s.imm) && (s.call == Compacting(true) ==> s.manual.Some? || s.error || s.shutdown)
    requires s.crashed ==> s.error || s.shutdown
    ensures Inv(SignalAll(s))
  {
    var s' := SignalAll(s);
    forall t {:trigger WaitOk(s', t)}
      ensures WaitOk(s', t)
    {
      assert t in s'.waits ==> s'.waits[t].signaled;
    }
  }

  lemma ScheduleKeepsInv(s: State, s0: State)
    requires Inv(s0) && s.waits == s0.waits && s.scheduled == s0.scheduled && s.call == s0.call
    requires s.error == s0.error && s.shutdown == s0.shutdown && s.crashed == s0.crashed
    requires s0.imm ==> s.imm
    requires s0.manual.Some? ==> s.manual.Some?
    requires PendingRequest(s)
    ensures Inv(MaybeSchedule(s))
  {
    var s' := MaybeSchedule(s);
    forall t {:trigger WaitOk(s', t)}
      ensures WaitOk(s', t)
    {
      assert WaitOk(s0, t);
    }
  }

  lemma ErrorKeepsInv(s: State)
    requires Inv(s)
    ensures Inv(RecordError(s))
  {
    if !s.error {
      SignalKeepsInv(s.(error := true));
    }
  }

  lemma OpenInv(s: State, v: Shape)
    requires Open(s, v)
    ensures Inv(s)
  {
  }

  lemma WaitingKeepsInv(s: State, s': State, t: nat)
    requires Inv(s)
    requires WaitForRoom(s, s', t) || WaitForFlush(s, s', t) || WaitForManual(s, s', t) || WaitForClose(s, s', t)
    ensures Inv(s')
  {
    if WaitForRoom(s, s', t) {
      SleepKeepsInv(s, t, Room);
    } else if WaitForFlush(s, s', t) {
      SleepKeepsInv(s, t, Flush);
    } else if WaitForManual(s, s', t) {
      var s1 := if s.manual.None? then MaybeSchedule(s.(manual := Some(t))) else s;
      if s.manual.None? {
        ScheduleKeepsInv(s.(manual := Some(t)), s);
      }
      SleepKeepsInv(s1, t, Manual);
    } else {
      SleepKeepsInv(s, t, Closing);
    }
  }

  lemma LeavingKeepsInv(s: State, s': State, t: nat)
    requires Inv(s) && (LeaveManual(s, s', t) || Wake(s, s', t) || BeginShutdown(s, s'))
    ensures Inv(s')
  {
    forall u {:trigger WaitOk(s', u)}
      ensures WaitOk(s', u)
    {
      assert WaitOk(s, u);
    }
  }

  lemma CallKeepsInv(s: State, s': State, noInputs: bool, ok: bool, v: Shape)
    requires Inv(s) && !s.crashed
    requires CallStep(s, s', noInputs, ok, v)
    ensures Inv(s')
  {
    if StartCall(s, s', noInputs) {
      EndCallKeepsInv(s);
      if s.manual.Some? {
        EndCallKeepsInv(s.(done := s.done + {s.manual.value}, manual := None));
      }
      forall u {:trigger WaitOk(s', u)}
        ensures WaitOk(s', u)
      {
        assert WaitOk(s, u);
      }
    } else if EndFlush(s, s', ok, v) {
      EndCallKeepsInv(FlushResult(s, ok, v));
    } else if FlushInside(s, s', ok, v) {
      SignalKeepsInv(FlushResult(s, ok, v));
    } else {
      EndCallKeepsInv(CompactionResult(s, ok, v));
    }
  }

  lemma OtherStepKeepsInv(s: State, s': State)
    requires Inv(s)
    requires SwitchMemtable(s, s') || SeekCharge(s, s') || SyncError(s, s') || BeginShutdown(s, s') || UseMissingRequest(s, s')
    ensures Inv(s')
  {
    if SwitchMemtable(s, s') {
      ScheduleKeepsInv(s.(imm := true), s);
    } else if SeekCharge(s, s') {
      ScheduleKeepsInv(s.(shape := s.shape.(other := true)), s);
    } else if SyncError(s, s') {
      ErrorKeepsInv(s);
    } else if BeginShutdown(s, s') {
      LeavingKeepsInv(s, s', 0);
    } else {
      forall t {:trigger WaitOk(s', t)}
        ensures WaitOk(s', t)
      {
        assert WaitOk(s, t);
      }
    }
  }

  lemma ThreadStepKeepsInv(s: State, s': State, t: nat)
    requires Inv(s) && ThreadStep(s, s', t)
    ensures Inv(s')
  {
    if LeaveManual(s, s', t) || Wake(s, s', t) {
      LeavingKeepsInv(s, s', t);
    } else {
      WaitingKeepsInv(s, s', t);
    }
  }

  lemma NextKeepsInv(s: State, s': State)
    requires Inv(s) && Next(s, s')
    ensures Inv(s')
  {
    if t :| ThreadStep(s, s', t) {
      ThreadStepKeepsInv(s, s', t);
    } else if n, ok, v :| CallStep(s, s', n, ok, v) {
      CallKeepsInv(s, s', n, ok, v);
    } else {
      OtherStepKeepsInv(s, s');
    }
  }

  lemma {:induction false} RunInv(states: seq<State>, k: nat)
    requires Run(states) && k < |states|
    ensures Inv(states[k])
  {
    if k == 0 {
      var v :| Open(states[0], v);
      OpenInv(states[0], v);
    } else {
      RunInv(states, k - 1);
      assert StepAt(states, k - 1);
      NextKeepsInv(states[k - 1], states[k]);
    }
  }

  // ---- What every run guarantees ----

  /** From Open on, whenever the mutex is free: an immutable memtable, a manual compaction or a
      needed compaction has a background call scheduled or running, unless an error was recorded
      or the database is closing. */
  lemma NoLostWork(states: seq<State>, k: nat)
    requires Run(states) && k < |states|
    requires states[k].imm || states[k].manual.Some? || Needs(states[k].shape)
    requires !states[k].error && !states[k].shutdown
    ensures states[k].scheduled && states[k].call != NoCall
  {
    RunInv(states, k);
  }

  /** The background call comes to its end. */
  ghost predicate CallEnds(s: State, s': State) {
    || (exists n :: StartCall(s, s', n) && (s'.call.NoCall? || s'.call.Queued?))
    || (exists ok, v :: EndFlush(s, s', ok, v))
    || (exists ok, v :: EndCompaction(s, s', ok, v))
  }

  lemma EndSignals(s: State, s': State, t: nat)
    requires CallEnds(s, s')
    ensures !Asleep(s', t)
  {
    if n :| StartCall(s, s', n) && (s'.call.NoCall? || s'.call.Queued?) {
      EndCallSignals(s, t);
      if s.manual.Some? {
        EndCallSignals(s.(done := s.done + {s.manual.value}, manual := None), t);
      }
    } else if ok, v :| EndFlush(s, s', ok, v) {
      EndCallSignals(FlushResult(s, ok, v), t);
    } else {
      var ok, v :| EndCompaction(s, s', ok, v);
      EndCallSignals(CompactionResult(s, ok, v), t);
    }
  }

  /** Only the end of a call takes the flag back. */
  lemma OnlyEndsUnschedule(s: State, s': State)
    requires Next(s, s') && s.scheduled && !s'.scheduled && s'.call.NoCall?
    ensures CallEnds(s, s')
  {
    assert forall t :: !ThreadStep(s, s', t);
    var n, ok, v :| CallStep(s, s', n, ok, v);
    assert StartCall(s, s', n) || EndFlush(s, s', ok, v) || EndCompaction(s, s', ok, v);
  }

  /** Whoever records the first error signals everyone. */
  lemma ErrorSignals(s: State, s': State, t: nat)
    requires Next(s, s') && !s.error && s'.error
    ensures !Asleep(s', t)
  {
    if n, ok, v :| CallStep(s, s', n, ok, v) {
      if EndFlush(s, s', ok, v) {
        EndCallSignals(FlushResult(s, ok, v), t);
      } else if EndCompaction(s, s', ok, v) {
        EndCallSignals(CompactionResult(s, ok, v), t);
      }
    }
  }

  /** A thread that sleeps while the database is open, or that sleeps to close it, has a wake-up
      ahead: a call is scheduled or running, only the end of a call takes that back, and the end of
      a call wakes the thread, as does the step that records an error.  CrashExactlyAfterFailure says
      when a call may fail to come to its end. */
  lemma NoLostWakeup(states: seq<State>, k: nat, t: nat)
    requires Run(states) && k + 1 < |states| && Asleep(states[k], t)
    requires !states[k].shutdown || states[k].waits[t].reason == Closing
    ensures states[k].scheduled
    ensures CallEnds(states[k], states[k + 1]) || !states[k + 1].scheduled ==> !Asleep(states[k + 1], t)
    ensures !states[k].error && states[k + 1].error ==> !Asleep(states[k + 1], t)
  {
    RunInv(states, k);
    RunInv(states, k + 1);
    var s, s' := states[k], states[k + 1];
    assert WaitOk(s, t);
    assert StepAt(states, k);
    if !s'.scheduled {
      OnlyEndsUnschedule(s, s');
    }
    if CallEnds(s, s') {
      EndSignals(s, s', t);
    }
    if !s.error && s'.error {
      ErrorSignals(s, s', t);
    }
  }

  /** Once the destructor has seen the end of background work, none starts again. */
  lemma {:induction false} ClosedForGood(states: seq<State>, i: nat, j: nat)
    requires Run(states) && i <= j < |states| && states[i].shutdown && !states[i].scheduled
    ensures states[j].shutdown && !states[j].scheduled && states[j].call.NoCall?
    decreases j
  {
    RunInv(states, i);
    if i < j {
      ClosedForGood(states, i, j - 1);
      assert StepAt(states, j - 1);
    }
  }

  // ---- The request of a manual compaction ----

  /** A manual compaction that is running still finds its request in place, unless an error was
      recorded or closing began. */
  lemma RequestOutlivesCompaction(states: seq<State>, k: nat)
    requires Run(states) && k < |states| && states[k].call == Compacting(true)
    requires !states[k].error && !states[k].shutdown
    ensures states[k].manual.Some?
  {
    RunInv(states, k);
  }

  /** Steps within one call that record no error and begin no shutdown. */
  ghost predicate Quiet(path: seq<State>) {
    path != [] && forall i {:trigger QuietAt(path, i)} :: 0 <= i < |path| - 1 ==> QuietAt(path, i)
  }

  ghost predicate QuietAt(path: seq<State>, i: nat)
    requires i + 1 < |path|
  {
    && Next(path[i], path[i + 1]) && path[i + 1].call == path[i].call
    && path[i + 1].error == path[i].error && path[i + 1].shutdown == path[i].shutdown
  }

  /** From s the call can come to a state in which its request is gone, with no further failure. */
  ghost predicate MayLose(s: State) {
    exists path: seq<State> :: Quiet(path) && path[0] == s && Lost(path[|path| - 1])
  }

  /** ... and from there to the use of the missing request. */
  ghost predicate MayCrash(s: State) {
    exists path: seq<State> :: Quiet(path) && path[0] == s && path[|path| - 1].crashed
  }

  /** Once there is an error or a shutdown, the thread that owns the request wakes up, if it waits,
      and withdraws it. */
  lemma OwnerWithdraws(s: State) returns (path: seq<State>)
    requires Inv(s) && !s.crashed && s.call == Compacting(true) && (s.error || s.shutdown)
    ensures Quiet(path) && path[0] == s && Lost(path[|path| - 1]) && !path[|path| - 1].crashed
  {
    path := [s];
    if s.manual.Some? {
      var t := s.manual.value;
      var awake := s.(waits := s.waits - {t});
      var gone := awake.(manual := None);
      assert LeaveManual(awake, gone, t) && ThreadStep(awake, gone, t);
      if t in s.waits {
        assert Wake(s, awake, t) && ThreadStep(s, awake, t);
        path := [s, awake, gone];
        assert QuietAt(path, 0) && QuietAt(path, 1);
      } else {
        assert awake == s;
        path := [s, gone];
        assert QuietAt(path, 0);
      }
    }
  }

  lemma {:induction false} QuietKeeps(path: seq<State>, k: nat)
    requires Quiet(path) && k < |path| && Inv(path[0])
    ensures Inv(path[k]) && path[k].call == path[0].call && path[k].error == path[0].error && path[k].shutdown == path[0].shutdown
  {
    if k > 0 {
      QuietKeeps(path, k - 1);
      assert QuietAt(path, k - 1);
      NextKeepsInv(path[k - 1], path[k]);
    }
  }

  /** While a manual compaction runs, its request can be lost exactly if an error has been recorded
      or closing has begun. */
  lemma LostExactlyAfterFailure(states: seq<State>, k: nat)
    requires Run(states) && k < |states| && states[k].call == Compacting(true) && !states[k].crashed
    ensures MayLose(states[k]) <==> states[k].error || states[k].shutdown
  {
    RunInv(states, k);
    var s := states[k];
    if s.error || s.shutdown {
      var path := OwnerWithdraws(s);
    }
    if MayLose(s) {
      var path: seq<State> :| Quiet(path) && path[0] == s && Lost(path[|path| - 1]);
      QuietKeeps(path, |path| - 1);
    }
  }

  /** ... and the call can end by using a missing request exactly then. */
  lemma CrashExactlyAfterFailure(states: seq<State>, k: nat)
    requires Run(states) && k < |states| && states[k].call == Compacting(true) && !states[k].crashed
    ensures MayCrash(states[k]) <==> states[k].error || states[k].shutdown
  {
    RunInv(states, k);
    var s := states[k];
    if s.error || s.shutdown {
      var path := OwnerWithdraws(s);
      var n := |path|;
      var longer := path + [path[n - 1].(crashed := true)];
      assert UseMissingRequest(longer[n - 1], longer[n]);
      forall i {:trigger QuietAt(longer, i)} | 0 <= i < |longer| - 1
        ensures QuietAt(longer, i)
      {
        if i < n - 1 {
          assert QuietAt(path, i);
        }
      }
    }
    if MayCrash(s) {
      var path: seq<State> :| Quiet(path) && path[0] == s && path[|path| - 1].crashed;
      QuietKeeps(path, |path| - 1);
    }
  }

  /** A request that is lost stays lost: the call cannot end in any other way. */
  lemma LostForGood(states: seq<State>, k: nat)
    requires Run(states) && k + 1 < |states| && Lost(states[k])
    ensures Lost(states[k + 1]) && !CallEnds(states[k], states[k + 1])
  {
    RunInv(states, k);
    assert StepAt(states, k);
  }

  /** No run crashes without an error or a shutdown. */
  lemma CrashedOnlyAfterFailure(states: seq<State>, k: nat)
    requires Run(states) && k < |states| && states[k].crashed
    ensures states[k].error || states[k].shutdown
  {
    RunInv(states, k);
  }

  function WithdrawnState(n: nat, closing: bool): State {
    var asleep := map[7 := Wait(Manual, false)];
    var started := State(true, Compacting(true), false, Shape(0, false), Some(7), {}, false, false, asleep, false);
    var failed := if closing then started.(shutdown := true) else SignalAll(started.(error := true));
    if n == 0 then State(false, NoCall, false, Shape(0, false), None, {}, false, false, map[], false)
    else if n == 1 then State(true, Queued, false, Shape(0, false), Some(7), {}, false, false, asleep, false)
    else if n == 2 then started
    else if n == 3 then failed
    else if n == 4 then failed.(waits := map[])
    else if n == 5 then failed.(waits := map[], manual := None)
    else failed.(waits := map[], manual := None, crashed := true)
  }

  /** Both failures are real: a run from Open on in which a failed sync, and one in which the
      destructor, lets the request go while the compaction it asked for still runs. */
  lemma RequestMayBeWithdrawn(closing: bool) returns (states: seq<State>)
    ensures Run(states) && |states| >= 2 && Lost(states[|states| - 2]) && states[|states| - 1].crashed
    ensures states[|states| - 1].shutdown == closing && states[|states| - 1].error == !closing
  {
    states := [WithdrawnState(0, closing), WithdrawnState(1, closing), WithdrawnState(2, closing), WithdrawnState(3, closing),
               WithdrawnState(4, closing), WithdrawnState(5, closing), WithdrawnState(6, closing)];
    assert Open(states[0], Shape(0, false));
    assert WaitForManual(states[0], states[1], 7) && ThreadStep(states[0], states[1], 7);
    assert StartCall(states[1], states[2], false) && CallStep(states[1], states[2], false, true, states[1].shape);
    assert if closing then BeginShutdown(states[2], states[3]) else SyncError(states[2], states[3]);
    assert states[3].waits.Keys == {7};
    assert states[3].waits - {7} == map[];
    assert Wake(states[3], states[4], 7) && ThreadStep(states[3], states[4], 7);
    assert LeaveManual(states[4], states[5], 7) && ThreadStep(states[4], states[5], 7);
    assert UseMissingRequest(states[5], states[6]);
    forall i {:trigger StepAt(states, i)} | 0 <= i < |states| - 1
      ensures StepAt(states, i)
    {
    }
  }
}
