/** Concrete runs that show where the code falls short of what one would expect of it. */
module ProtocolWitness {
  import opened Base
  import opened EventTable
  import opened EventTableInv
  import opened Protocol
  import opened ProtocolInv
  import opened ProtocolSteps
  import opened ProtocolTheorems

  ghost predicate Reached(n: nat, s: State) {
    exists steps :: Runs(Initial(n, 0), steps, s)
  }

  lemma ReachStart(n: nat)
    ensures Reached(n, Initial(n, 0))
  {
    assert Runs(Initial(n, 0), [], Initial(n, 0));
  }

  lemma ReachStep(n: nat, s: State, step: Step, s': State)
    requires Reached(n, s) && Enabled(s, step) && !step.Schedule?
    requires SlotsMatch(s.table) && |s.table.fds| >= 32 ==> AssertsHold(s, step) && s' == Next(s, step)
    ensures Reached(n, s')
  {
    var steps :| Runs(Initial(n, 0), steps, s);
    ReachableInv(n, 0, steps, s);
    RunsAppend(Initial(n, 0), steps, s, step);
  }

  /** The only worker takes the only queued fiber and enters it. */
  lemma RunsOnlyFiber(s: State) returns (s': State)
    requires Reached(1, s) && s.workers == [Worker(Head, None, false)] && s.queue == [0] && s.active == 0
    requires |s.tasks| == 1 && s.tasks[0].work == FiberWork(0) && s.tasks[0].pin.None?
    requires |s.fibers| == 1 && s.fibers[0].state.INIT? && s.fibers[0].pc.Free?
    ensures Reached(1, s') && s'.queue == [] && s'.active == 1
    ensures s'.workers == [Worker(On(0, false, Running), None, false)]
    ensures s'.fibers == [Fiber(EXEC, Free, Held(0), Some(0))]
    ensures s'.table == s.table && s'.timers == s.timers && s'.autoStop == s.autoStop && s'.stopFlag == s.stopFlag
  {
    var s1 := TakeTask(s, 0, 0);
    assert s1.queue == [];
    ReachStep(1, s, Loop(0, Pick(0)), s1);
    var s2 := BeginFiber(s1, 0);
    ReachStep(1, s1, Loop(0, Begin), s2);
    s' := EnterFiber(s2, 0);
    ReachStep(1, s2, Loop(0, Enter), s');
  }

  /** It yields READY, comes back to the worker, and the worker lowers the active count. */
  lemma YieldsReady(s: State) returns (s': State)
    requires Reached(1, s) && s.active == 1
    requires s.workers == [Worker(On(0, false, Running), None, false)]
    requires s.fibers == [Fiber(EXEC, Free, Held(0), Some(0))]
    ensures Reached(1, s') && s'.queue == s.queue && s'.active == 0
    ensures |s'.fibers| == 1 && s'.fibers[0].state.READY?
    ensures s'.table == s.table && s'.timers == s.timers && s'.autoStop == s.autoStop && s'.stopFlag == s.stopFlag
  {
    var s1 := LeaveAs(s, 0, READY);
    ReachStep(1, s, Code(0, YieldReady), s1);
    var s2 := SwapFiberOut(s1, 0);
    ReachStep(1, s1, Loop(0, SwapOut), s2);
    s' := ReturnFrom(s2, 0);
    ReachStep(1, s2, Loop(0, Return), s');
  }

  /** stopping() is true while a fiber that yielded READY still waits to be queued again: the
      worker has lowered the active count and not yet called schedule. */
  lemma StoppingWithReadyFiber()
    ensures exists s :: Reached(1, s) && IoStopping(s) && |s.fibers| == 1 && s.fibers[0].state.READY?
  {
    var s0 := Initial(1, 0);
    ReachStart(1);
    var s1 := SpawnNew(s0, None);
    ReachStep(1, s0, SubmitFiber(None), s1);
    var s2 := s1.(autoStop := true, stopFlag := true);
    ReachStep(1, s1, Stop, s2);
    var s3 := RunsOnlyFiber(s2);
    var s4 := YieldsReady(s3);
  }

  // ----- a timeout callback that outlives its call

  /** A free worker without a cached fiber takes the only queued callback and enters it. */
  lemma RunsOnlyCallback(s: State, w: nat) returns (s': State)
    requires Reached(2, s) && w < |s.workers| && s.workers[w] == Worker(Head, None, false)
    requires |s.queue| == 1 && s.queue[0] < |s.tasks|
      && s.tasks[s.queue[0]].work.CbWork? && s.tasks[s.queue[0]].pin.None?
    ensures Reached(2, s') && s'.queue == []
    ensures s'.workers == s.workers[w := Worker(On(|s.fibers|, true, Running), Some(|s.fibers|), false)]
    ensures s'.fibers == s.fibers + [Fiber(EXEC, EntryPc(s.tasks[s.queue[0]].work.cb), Held(w), Some(w))]
    ensures s'.table == s.table && s'.calls == s.calls && s'.timers == s.timers && s'.clock == s.clock
  {
    var s1 := TakeTask(s, w, 0);
    assert s1.queue == [];
    ReachStep(2, s, Loop(w, Pick(0)), s1);
    var s2 := PrepareFiber(s1, w);
    ReachStep(2, s1, Loop(w, Prepare), s2);
    s' := EnterFiber(s2, w);
    ReachStep(2, s2, Loop(w, Enter), s');
  }

  /** User code starts a call and gets as far as addEvent. */
  lemma CallsUpToAddEvent(s: State, w: nat, fd: nat, ev: Event, to: Option<nat>) returns (s': State)
    requires Reached(2, s) && UserCode(s, w)
    ensures Reached(2, s') && s'.queue == s.queue && s'.workers == s.workers
      && s'.table == s.table && s'.clock == s.clock
    ensures var f, t := FiberAt(s, w), if to.Some? then Some(|s.timers|) else None;
      && s'.fibers == s.fibers[f := s.fibers[f].(pc := InIo(|s.calls|, Register(t)))]
      && s'.calls == s.calls + [Call(f, fd, ev, to, s.clock, None, None)]
      && s'.timers == s.timers + (if to.Some? then [Timer(|s.calls|, s.clock, s.clock + to.value, Pending)] else [])
  {
    var s1 := StartCall(s, w, fd, ev, to);
    ReachStep(2, s, Io(w, IoStart(fd, ev, to)), s1);
    var s2 := SetStage(s1, w, Arm);
    ReachStep(2, s1, Io(w, IoAgain), s2);
    s' := ArmTimer(s2, w);
    ReachStep(2, s2, Io(w, IoArm), s');
  }

  /** The kernel refuses the event and the call returns. */
  lemma CallIsRefused(s: State, w: nat) returns (s': State)
    requires Reached(2, s) && InStage(s, w) && StageOf(s, w).Register? && TimerInRange(s, StageOf(s, w).timer)
    requires var call := s.calls[s.fibers[FiberAt(s, w)].pc.call];
      AddEvent(InitTable(), call.fd, call.ev, FiberWork(FiberAt(s, w)), false) == Reply(InitTable(), Fail)
    requires s.table == InitTable()
    ensures Reached(2, s') && s'.queue == s.queue && s'.workers == s.workers && s'.table == s.table
    ensures var f := FiberAt(s, w);
      && s'.fibers == s.fibers[f := s.fibers[f].(pc := Free)]
      && s'.calls == s.calls[s.fibers[f].pc.call := s.calls[s.fibers[f].pc.call].(result := Some(Refused))]
      && |s'.timers| == |s.timers| && forall t :: 0 <= t < |s.timers| ==> s'.timers[t].call == s.timers[t].call
  {
    var s1 := RegisterIo(s, w, false);
    ReachStep(2, s, Io(w, IoRegister(false)), s1);
    s' := EndCall(CancelTimer(s1, StageOf(s1, w).timer), w, Refused);
    ReachStep(2, s1, Io(w, IoRefused), s');
  }

  /** A worker with nothing to do collects the only due timer and queues its callback. */
  lemma ExpiresOnlyTimer(s: State, w: nat) returns (s': State)
    requires Reached(2, s) && w < |s.workers| && s.workers[w] == Worker(Head, None, false) && s.queue == []
    requires |s.timers| == 1 && s.timers[0].status.Pending? && s.timers[0].deadline <= s.clock
    ensures Reached(2, s') && s'.queue == [|s.tasks|] && s'.workers == s.workers
    ensures s'.tasks == s.tasks + [Task(CbWork(Timeout(0)), None, Waiting)]
    ensures s'.timers == [s.timers[0].(status := Fired)]
    ensures s'.fibers == s.fibers && s'.calls == s.calls && s'.table == s.table && s'.clock == s.clock
  {
    var s1 := MoveTo(s, w, Idling([]));
    ReachStep(2, s, Loop(w, PickNone), s1);
    assert DueInOrder(s1, s1.clock, [0]);
    var s2 := ExpireTimers(s1, w, [0]);
    ReachStep(2, s1, Idle(w, Expire(s1.clock, [0])), s2);
    var s2' := MoveTo(s2, w, Idling([]));
    var s3 := PushTimeouts(s2', [0]);
    assert s3 == Push(s2', CbWork(Timeout(0)), None) by {
      assert [0][1..] == [];
    }
    ReachStep(2, s2, Idle(w, Flush), s3);
    s' := MoveTo(s3, w, Head);
    ReachStep(2, s3, Idle(w, IdleBack), s');
    assert s'.workers == s.workers;
  }

  lemma FirstEvent(work: Work)
    ensures AddEvent(InitTable(), 5, READ, work, false) == Reply(InitTable(), Fail)
    ensures var r := AddEvent(InitTable(), 5, READ, work, true);
      r.rc.Ok? && SlotAt(r.table, 5, READ) == Armed(work, 0)
  {
    assert Resize(InitTable(), 32).fds == InitTable().fds;
  }

  lemma ReachedInv(n: nat, s: State)
    requires Reached(n, s)
    ensures Inv(s)
  {
    var steps :| Runs(Initial(n, 0), steps, s);
    ReachableInv(n, 0, steps, s);
  }

  /** Worker 0 runs a callback that has called do_io on (5, READ) and stands before addEvent;
      worker 1 runs the timeout callback of that call and has flagged it. */
  lemma FlaggedBeforeAddEvent() returns (s: State)
    ensures Reached(2, s) && s.queue == [] && s.table == InitTable() && |s.timers| == 1 && s.timers[0].call == 0
    ensures s.workers == [Worker(On(0, true, Running), Some(0), false), Worker(On(1, true, Running), Some(1), false)]
    ensures s.fibers == [Fiber(EXEC, InIo(0, Register(Some(0))), Held(0), Some(0)),
      Fiber(EXEC, InTimeout(0, true), Held(1), Some(1))]
    ensures s.calls == [Call(0, 5, READ, Some(0), 0, Some(0), None)]
  {
    var s0 := Initial(2, 0);
    ReachStart(2);
    var s1 := Push(s0, CbWork(User(0)), None);
    ReachStep(2, s0, Submit(0, None), s1);
    var s2 := RunsOnlyCallback(s1, 0);
    var s3 := CallsUpToAddEvent(s2, 0, 5, READ, Some(0));
    var s4 := ExpiresOnlyTimer(s3, 1);
    var s5 := RunsOnlyCallback(s4, 1);
    s := TestAndFlag(s5, 1);
    ReachStep(2, s5, Io(1, TimeoutTest), s);
  }

  /** The call returns because addEvent failed, and the fiber parks in a second call on the same event. */
  lemma SecondCallParked() returns (s: State)
    ensures Reached(2, s) && InCallback(s, 1, true) && |s.calls| == 2
    ensures s.timers[s.fibers[FiberAt(s, 1)].pc.timer].call == 0 && s.calls[0].result.Some?
    ensures s.calls[0].fd == 5 && s.calls[0].ev == READ
    ensures SlotAt(s.table, 5, READ).Armed? && s.fibers[0].pc == InIo(1, Park(None))
  {
    var s0 := FlaggedBeforeAddEvent();
    FirstEvent(FiberWork(0));
    var s1 := CallIsRefused(s0, 0);
    var s2 := CallsUpToAddEvent(s1, 0, 5, READ, None);
    s := RegisterIo(s2, 0, true);
    ReachStep(2, s2, Io(0, IoRegister(true)), s);
  }

  /** The callback tests and sets its flag, the call returns because addEvent failed, the fiber
      starts a second call on the same event, and only then does the callback reach cancelEvent.
      So the property "a callback left over from a finished call cancels no later call's event"
      fails: here it removes the registration of call 1 on behalf of call 0. */
  lemma LeftoverCancelsLaterCall()
    ensures exists s ::
              && Reached(2, s) && SlotsMatch(s.table) && InCallback(s, 1, true) && |s.calls| == 2
              && s.timers[s.fibers[FiberAt(s, 1)].pc.timer].call == 0 && s.calls[0].result.Some?
              && SlotAt(s.table, 5, READ).Armed? && s.fibers[0].pc == InIo(1, Park(None))
              && !SlotAt(CancelForTimeout(s, 1, true).table, 5, READ).Armed?
  {
    var s := SecondCallParked();
    assert Inv(s) by {
      ReachedInv(2, s);
    }
    CancelForTimeoutSlots(s, 1, true, 5, READ);
  }

  /** Worker 0 runs user code that first registers a callback on (5, READ) and then calls do_io on it;
      the call stands before addEvent. */
  lemma CallBehindStranger() returns (s: State)
    ensures Reached(2, s) && s.queue == [] && SlotAt(s.table, 5, READ) == Armed(CbWork(User(9)), 0)
    ensures s.workers == [Worker(On(0, true, Running), Some(0), false), Worker(Head, None, false)]
    ensures |s.fibers| == 1 && s.calls == [Call(0, 5, READ, Some(0), 0, None, None)]
    ensures s.clock == 0 && s.timers == [Timer(0, 0, 0, Pending)]
  {
    var s0 := Initial(2, 0);
    ReachStart(2);
    var s1 := Push(s0, CbWork(User(0)), None);
    ReachStep(2, s0, Submit(0, None), s1);
    var s2 := RunsOnlyCallback(s1, 0);
    FirstEvent(CbWork(User(9)));
    var s3 := s2.(table := AddEvent(s2.table, 5, READ, CbWork(User(9)), true).table);
    ReachStep(2, s2, Code(0, AddCb(5, READ, 9, true)), s3);
    s := CallsUpToAddEvent(s3, 0, 5, READ, Some(0));
  }

  /** Even in one step the callback of a call that has not registered yet removes what it finds. */
  lemma OneStepTimeoutHitsStranger()
    ensures exists s ::
              && Reached(2, s) && SlotsMatch(s.table) && InCallback(s, 1, false)
              && s.timers[s.fibers[FiberAt(s, 1)].pc.timer].call == 0 && s.calls[0].result.None?
              && SlotAt(s.table, 5, READ).Armed? && SlotAt(s.table, 5, READ).work == CbWork(User(9))
              && !SlotAt(TimeoutAtOnce(s, 1, true).table, 5, READ).Armed?
  {
    var s0 := CallBehindStranger();
    var s1 := ExpiresOnlyTimer(s0, 1);
    var s2 := RunsOnlyCallback(s1, 1);
    ReachedInv(2, s2);
    TimeoutAtOnceSlots(s2, 1, true, 5, READ);
  }

  // ----- a fiber scheduled twice

  lemma {:induction false} WildAppend(a: State, xs: seq<Step>, b: State, step: Step)
    requires WildRuns(a, xs, b) && CanStepWild(b, step)
    ensures WildRuns(a, xs + [step], Next(b, step))
    decreases |xs|
  {
    if xs == [] {
      assert [step][1..] == [];
      assert WildRuns(Next(a, step), [], Next(b, step));
    } else {
      WildAppend(Next(a, xs[0]), xs[1..], b, step);
      assert (xs + [step])[1..] == xs[1..] + [step];
    }
  }

  ghost predicate WildReached(n: nat, s: State) {
    s.table == InitTable() && exists steps :: WildRuns(Initial(n, 0), steps, s)
  }

  lemma WildStep(n: nat, s: State, step: Step, s': State)
    requires WildReached(n, s) && Enabled(s, step) && s'.table == s.table
    requires SlotsMatch(s.table) && |s.table.fds| >= 32 ==> AssertsHold(s, step) && s' == Next(s, step)
    ensures WildReached(n, s')
  {
    InitInv();
    var steps :| WildRuns(Initial(n, 0), steps, s);
    WildAppend(Initial(n, 0), steps, s, step);
  }

  /** A worker takes the first queued fiber in hand. */
  lemma TakesFiber(s: State, w: nat) returns (s': State)
    requires WildReached(2, s) && w < |s.workers| && s.workers[w] == Worker(Head, None, false) && QueueInRange(s)
    requires |s.queue| > 0 && s.tasks[s.queue[0]].work == FiberWork(0) && s.tasks[s.queue[0]].pin.None?
    requires |s.fibers| == 1 && s.fibers[0].state.INIT?
    ensures WildReached(2, s') && s'.workers == s.workers[w := Worker(Picked(s.queue[0]), None, false)]
    ensures s'.queue == s.queue[1..] && |s'.tasks| == |s.tasks|
    ensures forall t :: 0 <= t < |s.tasks| ==> s'.tasks[t].work == s.tasks[t].work && s'.tasks[t].pin == s.tasks[t].pin
    ensures |s'.fibers| == 1 && s'.fibers[0].state.INIT?
  {
    s' := TakeTask(s, w, 0);
    assert s'.queue == s.queue[1..];
    WildStep(2, s, Loop(w, Pick(0)), s');
  }

  /** It enters the fiber, whose state it does not look at again beyond TERM and EXCEPT. */
  lemma EntersFiber(s: State, w: nat) returns (s': State)
    requires WildReached(2, s) && w < |s.workers| && s.workers[w].loc.Picked? && s.workers[w].loc.tid < |s.tasks|
    requires s.tasks[s.workers[w].loc.tid].work == FiberWork(0)
    requires |s.fibers| == 1 && !Finished(s.fibers[0].state)
    ensures WildReached(2, s') && s'.workers == s.workers[w := s.workers[w].(loc := On(0, false, Running))]
    ensures |s'.tasks| == |s.tasks| && forall t :: 0 <= t < |s.tasks| ==> s'.tasks[t].work == s.tasks[t].work
    ensures |s'.fibers| == 1 && s'.fibers[0].state.EXEC?
  {
    var s1 := BeginFiber(s, w);
    WildStep(2, s, Loop(w, Begin), s1);
    s' := EnterFiber(s1, w);
    WildStep(2, s1, Loop(w, Enter), s');
  }

  /** Scheduling a fiber that is queued already lets two workers execute it at once: both take an entry
      before either has marked the fiber EXEC. */
  lemma ScheduledTwiceRunsTwice()
    ensures exists s, steps ::
              && WildRuns(Initial(2, 0), steps, s) && |s.workers| == 2
              && s.workers[0].loc == On(0, false, Running) && s.workers[1].loc == On(0, false, Running)
  {
    var s0 := Initial(2, 0);
    assert WildRuns(s0, [], s0);
    var s1 := SpawnNew(s0, None);
    WildStep(2, s0, SubmitFiber(None), s1);
    var s2 := Push(s1, FiberWork(0), None);
    WildStep(2, s1, Schedule(0, None), s2);
    assert s2.queue == [0, 1];
    var s3 := TakesFiber(s2, 0);
    assert s3.queue == [1];
    var s4 := TakesFiber(s3, 1);
    var s5 := EntersFiber(s4, 0);
    var s6 := EntersFiber(s5, 1);
    var steps :| WildRuns(Initial(2, 0), steps, s6);
  }
}
