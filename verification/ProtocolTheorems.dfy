/** What holds in every run of the protocol. */
module ProtocolTheorems {
  import opened Base
  import opened EventTable
  import opened EventTableInv
  import opened Protocol
  import opened ProtocolInv
  import opened ProtocolSteps
  import opened ProtocolHistory
  import opened ProtocolFired

  /** A step that trips no assert and schedules no fiber that has a resume already. */
  ghost predicate CanStep(s: State, step: Step) {
    CanStepWild(s, step) && Polite(s, step)
  }

  ghost predicate CanStepWild(s: State, step: Step) {
    SlotsMatch(s.table) && |s.table.fds| >= 32 && Enabled(s, step) && AssertsHold(s, step)
  }

  /** `steps` leads from `s` to `s'`, one such step after another. */
  ghost predicate Runs(s: State, steps: seq<Step>, s': State)
    decreases |steps|
  {
    if steps == [] then s' == s
    else CanStep(s, steps[0]) && Runs(Next(s, steps[0]), steps[1..], s')
  }

  /** The same without the caller's promise about schedule(fiber). */
  ghost predicate WildRuns(s: State, steps: seq<Step>, s': State)
    decreases |steps|
  {
    if steps == [] then s' == s
    else CanStepWild(s, steps[0]) && WildRuns(Next(s, steps[0]), steps[1..], s')
  }

  lemma {:induction false} RunKeepsInv(s: State, steps: seq<Step>, s': State)
    requires Inv(s) && LostWasDropped(s) && Runs(s, steps, s')
    ensures Inv(s') && LostWasDropped(s') && Later(s, s')
    decreases |steps|
  {
    if steps == [] {
      LaterReflexive(s);
    } else {
      var s1 := Next(s, steps[0]);
      StepKeepsInv(s, steps[0]);
      StepGoesForward(s, steps[0]);
      RunKeepsInv(s1, steps[1..], s');
      LaterTransitive(s, s1, s');
    }
  }

  lemma ReachableInv(n: nat, clock: nat, steps: seq<Step>, s: State)
    requires Runs(Initial(n, clock), steps, s)
    ensures Inv(s) && LostWasDropped(s)
  {
    InitialInv(n, clock);
    RunKeepsInv(Initial(n, clock), steps, s);
  }

  lemma {:induction false} RunsAppend(a: State, xs: seq<Step>, b: State, step: Step)
    requires Runs(a, xs, b) && CanStep(b, step)
    ensures Runs(a, xs + [step], Next(b, step))
    decreases |xs|
  {
    if xs == [] {
      assert [step][1..] == [];
      assert Runs(Next(a, step), [], Next(b, step));
    } else {
      RunsAppend(Next(a, xs[0]), xs[1..], b, step);
      assert (xs + [step])[1..] == xs[1..] + [step];
    }
  }

  // ----- fibers

  /** No fiber ever executes on two workers at once. */
  lemma NoDoubleExecution(n: nat, clock: nat, steps: seq<Step>, s: State, w1: nat, w2: nat)
    requires Runs(Initial(n, clock), steps, s)
    requires w1 < |s.workers| && s.workers[w1].loc.On? && w2 < |s.workers| && s.workers[w2].loc.On?
    requires s.workers[w1].loc.fiber == s.workers[w2].loc.fiber
    ensures w1 == w2
  {
    ReachableInv(n, clock, steps, s);
    assert WorkerOk(s, w1) && WorkerOk(s, w2);
  }

  /** A fiber has at most one outstanding resume, wherever it is. */
  lemma OneResume(n: nat, clock: nat, steps: seq<Step>, s: State, f: nat, p: Place, q: Place)
    requires Runs(Initial(n, clock), steps, s)
    requires Resumes(s, p, f) && Resumes(s, q, f)
    ensures p == q && f < |s.fibers|
  {
    ReachableInv(n, clock, steps, s);
    forall r | Resumes(s, r, f)
      ensures f < |s.fibers| && s.fibers[f].home ==
              match r case InQueue(tid) => Queued(tid) case InSlot(fd, ev) => Slotted(fd, ev) case InHand(w) => Held(w)
    {
      match r {
        case InQueue(tid) => assert TaskOk(s, tid);
        case InSlot(fd, ev) =>
        case InHand(w) => assert WorkerOk(s, w);
      }
    }
  }

  /** While a fiber is still on a worker's stack, a queued wake-up for it stays ineligible, and
      an eligible entry's fiber is on no stack. */
  lemma QueuedWakeUpWaits(n: nat, clock: nat, steps: seq<Step>, s: State, w: nat, tid: nat)
    requires Runs(Initial(n, clock), steps, s)
    requires tid in s.queue && tid < |s.tasks| && s.tasks[tid].work.FiberWork?
    ensures s.tasks[tid].work.fiber < |s.fibers|
    ensures s.fibers[s.tasks[tid].work.fiber].state.EXEC? <==> OnStack(s, s.tasks[tid].work.fiber)
  {
    ReachableInv(n, clock, steps, s);
    var f := s.tasks[tid].work.fiber;
    assert TaskOk(s, tid) && StackOk(s, f);
    if OnStack(s, f) {
      var v: nat :| v < |s.workers| && s.workers[v].loc.On? && s.workers[v].loc.fiber == f;
      assert WorkerOk(s, v);
    }
  }

  /** A fiber that has not finished and is on no stack will be resumed from exactly one place,
      unless it is a worker's reset callback fiber or delEvent removed a registration of it. */
  lemma NoFiberForgotten(n: nat, clock: nat, steps: seq<Step>, s: State, f: nat)
    requires Runs(Initial(n, clock), steps, s)
    requires f < |s.fibers| && !Finished(s.fibers[f].state) && !OnStack(s, f)
    ensures (exists p :: Resumes(s, p, f)) || IsCached(s, f) || DroppedOnce(s.table, f)
  {
    ReachableInv(n, clock, steps, s);
    WhereFibersAre(s, f);
  }

  /** The destructor's assert on the state. A fiber that no queue entry, slot or worker refers to has
      finished, or delEvent removed its registration while it sleeps in do_io; then the frame it
      sleeps in holds the last reference to it and no destructor runs. */
  lemma DestructorAssertHolds(n: nat, clock: nat, steps: seq<Step>, s: State, f: nat)
    requires Runs(Initial(n, clock), steps, s)
    requires f < |s.fibers| && !OnStack(s, f) && !IsCached(s, f) && forall p :: !Resumes(s, p, f)
    ensures Finished(s.fibers[f].state)
            || (DroppedOnce(s.table, f) && s.fibers[f].pc.InIo? && s.fibers[f].pc.stage.Wake?)
  {
    ReachableInv(n, clock, steps, s);
    if !Finished(s.fibers[f].state) {
      WhereFibersAre(s, f);
    }
  }

  /** At the loop head the cached callback fiber is null or INIT, so reset's precondition holds
      and a fiber that yielded is never reused. */
  lemma CachedFiberIsReset(n: nat, clock: nat, steps: seq<Step>, s: State, w: nat)
    requires Runs(Initial(n, clock), steps, s)
    requires w < |s.workers| && !s.workers[w].loc.On? && s.workers[w].cache.Some?
    ensures var f := s.workers[w].cache.value;
      && f < |s.fibers| && s.fibers[f].state.INIT? && !OnStack(s, f)
      && forall p :: !Resumes(s, p, f)
  {
    ReachableInv(n, clock, steps, s);
    var f := s.workers[w].cache.value;
    assert WorkerOk(s, w) && HomeOk(s, f);
    forall p ensures !Resumes(s, p, f) {
      match p {
        case InQueue(tid) => assert tid < |s.tasks| ==> TaskOk(s, tid);
        case InSlot(fd, ev) =>
        case InHand(v) => assert v < |s.workers| ==> WorkerOk(s, v);
      }
    }
    forall v: nat | v < |s.workers| ensures !(s.workers[v].loc.On? && s.workers[v].loc.fiber == f) {
      assert WorkerOk(s, v);
    }
  }

  // ----- asserts

  /** The two ways to trip an assert: registering a live event, and acting on a report that
      mixes live events with events that are no longer live. */
  ghost predicate CallerOk(s: State, step: Step)
    requires Enabled(s, step)
  {
    match step
    case Code(w, AddCb(fd, ev, _, _)) => !SlotAt(s.table, fd, ev).Armed?
    case Io(w, IoRegister(_)) =>
      var call := s.calls[s.fibers[FiberAt(s, w)].pc.call];
      !SlotAt(s.table, call.fd, call.ev).Armed?
    case Idle(w, Report(fd, reported, err, ok)) =>
      var mask := s.table.fds[fd].mask;
      ok && (if err then mask != {} else reported * mask != {}) ==> reported <= mask
    case _ => true
  }

  lemma AssertsFireExactly(n: nat, clock: nat, steps: seq<Step>, s: State, step: Step)
    requires Runs(Initial(n, clock), steps, s) && Enabled(s, step)
    ensures SlotsMatch(s.table) && |s.table.fds| >= 32
    ensures AssertsHold(s, step) <==> CallerOk(s, step)
  {
    ReachableInv(n, clock, steps, s);
    match step {
      case Loop(w, Prepare) => assert WorkerOk(s, w);
      case Loop(w, SwapOut) => assert WorkerOk(s, w);
      case Loop(w, Settle) => assert WorkerOk(s, w);
      case Code(w, AddCb(fd, ev, cb, ok)) => AddEventKeepsInv(s.table, fd, ev, CbWork(User(cb)), ok);
      case Code(w, CancelFd(fd, ok)) => CancelAllKeepsInv(s.table, fd, ok);
      case Io(w, IoRegister(ok)) =>
        var call := s.calls[s.fibers[FiberAt(s, w)].pc.call];
        AddEventKeepsInv(s.table, call.fd, call.ev, FiberWork(FiberAt(s, w)), ok);
      case Idle(w, Report(fd, reported, err, ok)) => DispatchKeepsInv(s.table, fd, reported, err, ok);
      case _ =>
    }
  }

  /** In every reachable state the table is consistent, and every addEvent that succeeded has
      been consumed exactly once or is still registered. */
  lemma EventsConserved(n: nat, clock: nat, steps: seq<Step>, s: State, reg: nat)
    requires Runs(Initial(n, clock), steps, s) && reg < |s.table.made|
    ensures s.table.pending == |Bits(s.table)| && SlotsMatch(s.table) && KernelMatches(s.table)
    ensures multiset(s.table.fired)[reg] + multiset(s.table.dropped)[reg]
            + (if EventTable.Registered(s.table, reg) then 1 else 0) == 1
  {
    ReachableInv(n, clock, steps, s);
    ConsumedExactlyOnce(s.table, reg);
  }

  lemma {:induction false} RunQueues(s: State, steps: seq<Step>, s': State, tids: seq<nat>) returns (tids': seq<nat>)
    requires Inv(s) && LostWasDropped(s) && Runs(s, steps, s') && Queues(s, tids)
    ensures Queues(s', tids')
    decreases |steps|
  {
    tids' := tids;
    if steps != [] {
      tids' := StepQueues(s, steps[0], tids);
      StepKeepsInv(s, steps[0]);
      StepGoesForward(s, steps[0]);
      tids' := RunQueues(Next(s, steps[0]), steps[1..], s', tids');
    }
  }

  /** Task tid is in the queue once, or held by one worker, or retired, and never two of these. */
  ghost predicate OnePlace(s: State, tid: nat)
    requires tid < |s.tasks|
  {
    var retired := s.tasks[tid].fate.Ran? || s.tasks[tid].fate.Dropped?;
    multiset(s.queue)[tid] + |Holders(s, tid)| + (if retired then 1 else 0) == 1
  }

  /** End to end: every registration that fired became a task of its own, with the work that addEvent was
      given, and that task is waiting, held, or retired exactly once. */
  lemma FiredWorkIsQueuedOnce(n: nat, clock: nat, steps: seq<Step>, s: State) returns (tids: seq<nat>)
    requires Runs(Initial(n, clock), steps, s)
    ensures Queues(s, tids)
    ensures forall i {:trigger tids[i]} :: 0 <= i < |tids| ==> OnePlace(s, tids[i])
  {
    InitialInv(n, clock);
    tids := RunQueues(Initial(n, clock), steps, s, []);
    forall i {:trigger tids[i]} | 0 <= i < |tids|
      ensures OnePlace(s, tids[i])
    {
      TaskConservation(n, clock, steps, s, tids[i]);
    }
  }

  // ----- tasks and stopping

  ghost function Holders(s: State, tid: nat): set<nat> {
    set w: nat | w < |s.workers| && s.workers[w].loc == Picked(tid)
  }

  /** Every scheduled task is in the queue once, or held by one worker, or retired; and only
      the worker it is pinned to ever holds or retires it. */
  lemma TaskConservation(n: nat, clock: nat, steps: seq<Step>, s: State, tid: nat)
    requires Runs(Initial(n, clock), steps, s) && tid < |s.tasks|
    ensures var task := s.tasks[tid];
      && OnePlace(s, tid)
      && (forall w :: w in Holders(s, tid) || task.fate == Ran(w) || task.fate == Dropped(w) ==>
            task.pin.None? || task.pin == Some(w))
  {
    ReachableInv(n, clock, steps, s);
    CountDistinct(s.queue, tid);
    var task := s.tasks[tid];
    assert TaskOk(s, tid);
    forall w | w in Holders(s, tid) ensures task.fate == Taken(w) {
      assert WorkerOk(s, w);
    }
    assert tid in s.queue ==> task.fate.Waiting? by {
      if tid in s.queue {
        var i :| 0 <= i < |s.queue| && s.queue[i] == tid;
      }
    }
    if task.fate.Taken? {
      assert Holders(s, tid) == {task.fate.w};
    } else {
      assert Holders(s, tid) == {};
    }
  }

  /** Dropping a picked fiber as TERM or EXCEPT is dead code: nothing resumes a finished fiber. */
  lemma FinishedNeverPicked(n: nat, clock: nat, steps: seq<Step>, s: State, w: nat)
    requires Runs(Initial(n, clock), steps, s)
    ensures !Enabled(s, Loop(w, DropDone))
  {
    ReachableInv(n, clock, steps, s);
    NeverDropped(s, w);
  }

  /** stopping() is true only when nothing is queued, held or running under the active count. */
  lemma StoppingIsQuiet(n: nat, clock: nat, steps: seq<Step>, s: State)
    requires Runs(Initial(n, clock), steps, s) && Stopping(s)
    ensures forall w: nat :: w < |s.workers| ==> !Busy(s.workers[w].loc)
    ensures forall tid: nat :: tid < |s.tasks| ==> s.tasks[tid].fate.Ran? || s.tasks[tid].fate.Dropped?
  {
    ReachableInv(n, clock, steps, s);
    forall w: nat | w < |s.workers| ensures !Busy(s.workers[w].loc) {
      assert w in BusySet(s.workers) <==> Busy(s.workers[w].loc);
    }
    forall tid: nat | tid < |s.tasks| ensures s.tasks[tid].fate.Ran? || s.tasks[tid].fate.Dropped? {
      assert TaskOk(s, tid);
    }
  }

  /** Between the decrement and the requeue a fiber is not counted. */
  predicate Uncounted(s: State, f: nat) {
    exists w: nat :: w < |s.workers| && s.workers[w].loc.On? && s.workers[w].loc.fiber == f
                     && (s.workers[w].loc.at.Settling? || s.workers[w].loc.at.Judged?)
  }

  /** When the I/O manager may stop, the only unfinished fibers are reset callback fibers, those
      whose registration delEvent removed, and those in the uncounted window after call(). */
  lemma StoppingForgetsOnlyUncounted(n: nat, clock: nat, steps: seq<Step>, s: State, f: nat)
    requires Runs(Initial(n, clock), steps, s) && IoStopping(s)
    requires f < |s.fibers| && !Finished(s.fibers[f].state)
    ensures IsCached(s, f) || DroppedOnce(s.table, f) || Uncounted(s, f)
  {
    ReachableInv(n, clock, steps, s);
    StoppingIsQuiet(n, clock, steps, s);
    assert HomeOk(s, f) && StackOk(s, f);
    assert Bits(s.table) == {};
    forall fd: nat, ev: Event | fd < |s.table.fds|
      ensures !SlotAt(s.table, fd, ev).Armed?
    {
      var bit := (fd, ev);
      assert bit !in Bits(s.table);
    }
  }

  // ----- do_io and its timeout

  /** ETIMEDOUT is returned only after a timer armed by the same call, at least `to` after the
      call began, has come due. */
  lemma TimedOutAfterDeadline(n: nat, clock: nat, steps: seq<Step>, s: State, c: nat)
    requires Runs(Initial(n, clock), steps, s)
    requires c < |s.calls| && s.calls[c].result == Some(TimedOut)
    ensures var call := s.calls[c];
      && call.to.Some? && call.start + call.to.value <= s.clock
      && exists t: nat :: t < |s.timers| && s.timers[t].call == c && s.timers[t].status.Fired?
           && s.timers[t].deadline == s.timers[t].at + call.to.value <= s.clock && call.start <= s.timers[t].at
  {
    ReachableInv(n, clock, steps, s);
    assert CallOk(s, c) && TimerOk(s, s.calls[c].cancelled.value);
  }

  /** The flag of a call is set at most once, its result never changes, a timer leaves the
      pending state once, and no task or registration is forgotten: over any stretch of any run. */
  lemma HistoryOnlyGrows(n: nat, clock: nat, before: seq<Step>, s: State, after: seq<Step>, s': State)
    requires Runs(Initial(n, clock), before, s) && Runs(s, after, s')
    ensures Later(s, s')
  {
    ReachableInv(n, clock, before, s);
    RunKeepsInv(s, after, s');
  }

  /** The call of a flagged callback still waits in a slot. */
  ghost predicate StillParked(s: State, c: nat)
    requires c < |s.calls|
  {
    && s.calls[c].result.None?
    && exists fd, ev :: Resumes(s, InSlot(fd, ev), s.calls[c].fiber)
  }

  /** A registration that is not call c's own: another fiber's, a callback's, or that of another call
      of the same fiber. */
  predicate Foreign(s: State, slot: Slot, c: nat)
    requires c < |s.calls|
  {
    var f := s.calls[c].fiber;
    !(slot.Armed? && slot.work == FiberWork(f) && f < |s.fibers| && s.fibers[f].pc.InIo? && s.fibers[f].pc.call == c)
  }

  /** Over every run, whose registration occupies the slot of a call: its own exactly while the call is
      still parked. */
  lemma OwnExactlyWhileParked(n: nat, clock: nat, steps: seq<Step>, s: State, c: nat)
    requires Runs(Initial(n, clock), steps, s) && c < |s.calls|
    ensures StillParked(s, c) <==> !Foreign(s, SlotAt(s.table, s.calls[c].fd, s.calls[c].ev), c)
  {
    ReachableInv(n, clock, steps, s);
    var call := s.calls[c];
    assert CallOk(s, c);
    assert PcOk(s, call.fiber) && HomeOk(s, call.fiber);
    if StillParked(s, c) {
      var fd, ev :| Resumes(s, InSlot(fd, ev), call.fiber);
    } else {
      assert !Resumes(s, InSlot(call.fd, call.ev), call.fiber) || call.result.Some?;
    }
  }

  /** cancelEvent empties its own slot, if the kernel agrees and something is in it, and nothing else. */
  lemma CancelSlots(s: State, fd: nat, ev: Event, ok: bool, fd': nat, ev': Event)
    requires Inv(s)
    ensures var slot, after := SlotAt(s.table, fd', ev'), SlotAt(CancelIn(s, fd, ev, ok).table, fd', ev');
      if ok && slot.Armed? && fd' == fd && ev' == ev then after.Empty? else after == slot
  {
    CancelKeeps(s, fd, ev, ok);
    CancelEventKeepsInv(s.table, fd, ev, ok);
  }

  lemma CancelForTimeoutSlots(s: State, w: nat, ok: bool, fd: nat, ev: Event)
    requires Inv(s) && InCallback(s, w, true)
    ensures var call := s.calls[s.timers[s.fibers[FiberAt(s, w)].pc.timer].call];
      var slot, after := SlotAt(s.table, fd, ev), SlotAt(CancelForTimeout(s, w, ok).table, fd, ev);
      if ok && slot.Armed? && fd == call.fd && ev == call.ev then after.Empty? else after == slot
  {
    var call := s.calls[s.timers[s.fibers[FiberAt(s, w)].pc.timer].call];
    PcKeeps(s, w, Ending);
    CancelSlots(SetPc(s, w, Ending), call.fd, call.ev, ok, fd, ev);
  }

  /** What the second half of a timeout callback does: it removes a registration exactly when the kernel
      agrees and its call's slot holds one, and what it removes is a stranger's exactly when its
      call is no longer parked. The callback of a call that has returned can only hit a stranger. */
  lemma TimeoutRemovesExactly(n: nat, clock: nat, steps: seq<Step>, s: State, w: nat, ok: bool, fd: nat, ev: Event)
    requires Runs(Initial(n, clock), steps, s) && InCallback(s, w, true)
    ensures SlotsMatch(s.table)
    ensures var c := s.timers[s.fibers[FiberAt(s, w)].pc.timer].call;
      var slot, after := SlotAt(s.table, fd, ev), SlotAt(CancelForTimeout(s, w, ok).table, fd, ev);
      && (after != slot <==> ok && slot.Armed? && fd == s.calls[c].fd && ev == s.calls[c].ev)
      && (after != slot ==> after.Empty? && (Foreign(s, slot, c) <==> !StillParked(s, c)))
      && (s.calls[c].result.Some? ==> !StillParked(s, c))
  {
    ReachableInv(n, clock, steps, s);
    var c := s.timers[s.fibers[FiberAt(s, w)].pc.timer].call;
    OwnExactlyWhileParked(n, clock, steps, s, c);
    CancelForTimeoutSlots(s, w, ok, fd, ev);
  }

  /** Both halves of the timeout callback without a step of anyone else in between. */
  ghost function TimeoutAtOnce(s: State, w: nat, ok: bool): State
    requires InCallback(s, w, false) && SlotsMatch(s.table)
  {
    var s1 := TestAndFlag(s, w);
    if InCallback(s1, w, true) then CancelForTimeout(s1, w, ok) else s1
  }

  lemma TimeoutAtOnceSlots(s: State, w: nat, ok: bool, fd: nat, ev: Event)
    requires Inv(s) && InCallback(s, w, false)
    ensures var call := s.calls[s.timers[s.fibers[FiberAt(s, w)].pc.timer].call];
      var slot, after := SlotAt(s.table, fd, ev), SlotAt(TimeoutAtOnce(s, w, ok).table, fd, ev);
      if ok && slot.Armed? && fd == call.fd && ev == call.ev && call.result.None? && call.cancelled.None?
      then after.Empty? else after == slot
  {
    var call := s.calls[s.timers[s.fibers[FiberAt(s, w)].pc.timer].call];
    var s1 := TestAndFlag(s, w);
    TestAndFlagKeeps(s, w);
    if InCallback(s1, w, true) {
      CancelForTimeoutSlots(s1, w, ok, fd, ev);
    }
  }

  /** The same with the callback in one step: it removes a registration exactly when, besides, its call
      has not returned and was not flagged before, so a callback left over from a returned call
      touches nothing; what it removes is still a stranger's exactly when its call is not parked. */
  lemma OneStepTimeoutRemovesExactly(n: nat, clock: nat, steps: seq<Step>, s: State,
    w: nat, ok: bool, fd: nat, ev: Event)
    requires Runs(Initial(n, clock), steps, s) && InCallback(s, w, false)
    ensures SlotsMatch(s.table)
    ensures var c := s.timers[s.fibers[FiberAt(s, w)].pc.timer].call;
      var call := s.calls[c];
      var slot, after := SlotAt(s.table, fd, ev), SlotAt(TimeoutAtOnce(s, w, ok).table, fd, ev);
      && (after != slot <==>
            ok && slot.Armed? && fd == call.fd && ev == call.ev && call.result.None? && call.cancelled.None?)
      && (after != slot ==> after.Empty? && (Foreign(s, slot, c) <==> !StillParked(s, c)))
  {
    ReachableInv(n, clock, steps, s);
    var c := s.timers[s.fibers[FiberAt(s, w)].pc.timer].call;
    OwnExactlyWhileParked(n, clock, steps, s, c);
    TimeoutAtOnceSlots(s, w, ok, fd, ev);
  }
}
