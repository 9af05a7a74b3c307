/** What each step of do_io and its timeout callback does to the call, and how calls end. */
module ProtocolOutcome {
  import opened Base
  import opened EventTable
  import opened EventTableInv
  import opened Protocol
  import opened ProtocolInv
  import opened ProtocolSteps
  import opened ProtocolHistory
  import opened ProtocolTheorems
  import opened ProtocolFrames
  import opened ProtocolFired
  import opened ProtocolQueue

  /** Call c, which fiber f is in, has returned `result` to the code that made it. */
  predicate Ended(s: State, f: nat, c: nat, result: Result) {
    f < |s.fibers| && c < |s.calls| && s.fibers[f].pc.Free? && s.calls[c].result == Some(result)
  }

  /** Fiber f is at `stage` of call c, which has no result yet. */
  predicate Reached(s: State, f: nat, c: nat, stage: Stage) {
    f < |s.fibers| && c < |s.calls| && s.fibers[f].pc == InIo(c, stage) && s.calls[c].result.None?
  }

  /** The timer, if there is one, will not come due any more. */
  predicate Disarmed(s: State, timer: Option<nat>) {
    timer.Some? ==> timer.value < |s.timers| && !s.timers[timer.value].status.Pending?
  }

  /** Worker w is inside call c of fiber f. */
  predicate InCall(s: State, w: nat, f: nat, c: nat) {
    InStage(s, w) && f == FiberAt(s, w) && s.fibers[f].pc.call == c
  }

  /** Only call c and the pc of fiber f change, and at most one timer. */
  predicate OnlyCall(s: State, s': State, f: nat, c: nat, timer: Option<nat>) {
    && |s'.calls| == |s.calls| && |s'.timers| == |s.timers| && |s'.fibers| == |s.fibers|
    && (forall d {:trigger s'.calls[d]} :: 0 <= d < |s.calls| && d != c ==> s'.calls[d] == s.calls[d])
    && (forall t {:trigger s'.timers[t]} :: 0 <= t < |s.timers| && Some(t) != timer ==> s'.timers[t] == s.timers[t])
    && (forall g {:trigger s'.fibers[g]} :: 0 <= g < |s.fibers| && g != f ==> s'.fibers[g] == s.fibers[g])
    && s'.tasks == s.tasks && s'.queue == s.queue && s'.workers == s.workers && s'.table == s.table
  }

  /** What the step of call c leads to: the stage or the result, by the stage it was in and its flag. */
  predicate GoesOn(s: State, s': State, f: nat, c: nat, step: IoStep)
    requires f < |s.fibers| && s.fibers[f].pc.InIo? && c < |s.calls|
  {
    var stage, flagged := s.fibers[f].pc.stage, s.calls[c].cancelled.Some?;
    match step
    case IoReturn => stage.Try? && Ended(s', f, c, Transferred)
    case IoAgain => stage.Try? && Reached(s', f, c, Arm)
    case IoRefused => stage.AddFailed? && Ended(s', f, c, Refused) && Disarmed(s', stage.timer)
    case IoWake => stage.Wake? && Reached(s', f, c, Check) && Disarmed(s', stage.timer)
    case _ =>
      && stage.Check?
      && (Ended(s', f, c, TimedOut) <==> flagged)
      && (Reached(s', f, c, Try) <==> !flagged)
  }

  /** How a call goes on after the system call was tried, after addEvent failed, and after its fiber
      was woken: whoever woke it, the call's own timer is cancelled first, and then the flag
      alone decides between ETIMEDOUT and another try. Nothing else changes. */
  lemma CallGoesOn(n: nat, clock: nat, steps: seq<Step>, s: State, w: nat, f: nat, c: nat, step: IoStep)
    requires Runs(Initial(n, clock), steps, s) && InCall(s, w, f, c) && IoEnabled(s, w, step)
    requires step.IoReturn? || step.IoAgain? || step.IoRefused? || step.IoWake? || step.IoCheck?
    ensures SlotsMatch(s.table) && |s.table.fds| >= 32
    ensures var s' := Next(s, Io(w, step));
      && GoesOn(s, s', f, c, step) && s'.calls[c].(result := None) == s.calls[c]
      && OnlyCall(s, s', f, c, if step.IoRefused? || step.IoWake? then s.fibers[f].pc.stage.timer else None)
  {
    assert SlotsMatch(s.table) && |s.table.fds| >= 32 && s.calls[c].result.None? by {
      ReachableInv(n, clock, steps, s);
      assert PcOk(s, f);
    }
    CallStep(s, w, f, c, step);
  }

  lemma CallStep(s: State, w: nat, f: nat, c: nat, step: IoStep)
    requires InCall(s, w, f, c) && IoEnabled(s, w, step) && s.calls[c].result.None?
    requires SlotsMatch(s.table) && |s.table.fds| >= 32
    requires step.IoReturn? || step.IoAgain? || step.IoRefused? || step.IoWake? || step.IoCheck?
    ensures var s' := IoNext(s, w, step);
      && GoesOn(s, s', f, c, step) && s'.calls[c].(result := None) == s.calls[c]
      && OnlyCall(s, s', f, c, if step.IoRefused? || step.IoWake? then s.fibers[f].pc.stage.timer else None)
  {}

  /** Arming: a call with a timeout gets one new timer, due a full timeout from now; a call
      without one gets none. */
  lemma CallArms(n: nat, clock: nat, steps: seq<Step>, s: State, w: nat, f: nat, c: nat)
    requires Runs(Initial(n, clock), steps, s) && InCall(s, w, f, c) && IoEnabled(s, w, IoArm)
    ensures SlotsMatch(s.table) && |s.table.fds| >= 32
    ensures var s' := Next(s, Io(w, IoArm)); Arms(s, s', f, c) && s'.calls == s.calls
  {
    assert SlotsMatch(s.table) && |s.table.fds| >= 32 && s.calls[c].result.None? by {
      ReachableInv(n, clock, steps, s);
      assert PcOk(s, f);
    }
  }

  predicate Arms(s: State, s': State, f: nat, c: nat)
    requires c < |s.calls|
  {
    match s.calls[c].to
    case None => Reached(s', f, c, Register(None)) && s'.timers == s.timers
    case Some(ms) =>
      && Reached(s', f, c, Register(Some(|s.timers|)))
      && s'.timers == s.timers + [Timer(c, s.clock, s.clock + ms, Pending)]
  }

  /** Registering: the fiber parks in the slot of its own fd and event exactly when the event is
      free and the kernel agrees; otherwise addEvent failed. */
  lemma CallRegisters(n: nat, clock: nat, steps: seq<Step>, s: State, w: nat, f: nat, c: nat, ok: bool)
    requires Runs(Initial(n, clock), steps, s) && InCall(s, w, f, c) && IoEnabled(s, w, IoRegister(ok))
    requires !SlotAt(s.table, s.calls[c].fd, s.calls[c].ev).Armed?
    ensures SlotsMatch(s.table) && |s.table.fds| >= 32
    ensures Registers(s, Next(s, Io(w, IoRegister(ok))), f, c, ok)
  {
    assert TableInv(s.table) && s.calls[c].result.None? by {
      ReachableInv(n, clock, steps, s);
      assert PcOk(s, f);
    }
    RegisterStep(s, w, f, c, ok);
  }

  ghost predicate Registers(s: State, s': State, f: nat, c: nat, ok: bool)
    requires f < |s.fibers| && s.fibers[f].pc.InIo? && s.fibers[f].pc.stage.Register? && c < |s.calls|
  {
    var call, timer := s.calls[c], s.fibers[f].pc.stage.timer;
    && s'.calls == s.calls && s'.timers == s.timers && s'.queue == s.queue && s'.tasks == s.tasks
    && (Reached(s', f, c, Park(timer)) <==> ok)
    && (Reached(s', f, c, AddFailed(timer)) <==> !ok)
    && (forall fd: nat, ev: Event ::
          SlotAt(s'.table, fd, ev) ==
          if ok && fd == call.fd && ev == call.ev then Armed(FiberWork(f), |s.table.made|)
          else SlotAt(s.table, fd, ev))
  }

  lemma RegisterStep(s: State, w: nat, f: nat, c: nat, ok: bool)
    requires InCall(s, w, f, c) && IoEnabled(s, w, IoRegister(ok)) && s.calls[c].result.None?
    requires TableInv(s.table) && !SlotAt(s.table, s.calls[c].fd, s.calls[c].ev).Armed?
    ensures Registers(s, Next(s, Io(w, IoRegister(ok))), f, c, ok)
  {
    AddEventKeepsInv(s.table, s.calls[c].fd, s.calls[c].ev, FiberWork(f), ok);
  }

  /** The callback of a timer: it sets the flag of its timer's call exactly when the call has neither
      returned nor been flagged, and goes on to cancelEvent only then. */
  lemma CallbackTests(n: nat, clock: nat, steps: seq<Step>, s: State, w: nat, f: nat, t: nat)
    requires Runs(Initial(n, clock), steps, s) && InCallback(s, w, false)
    requires f == FiberAt(s, w) && t == s.fibers[f].pc.timer
    ensures SlotsMatch(s.table) && |s.table.fds| >= 32
    ensures var s', c := Next(s, Io(w, TimeoutTest)), s.timers[t].call;
      var open := s.calls[c].result.None? && s.calls[c].cancelled.None?;
      && |s'.fibers| == |s.fibers| && s'.timers == s.timers && s'.table == s.table && s'.queue == s.queue
      && s'.fibers[f].pc == (if open then InTimeout(t, true) else Ending)
      && s'.calls == if open then s.calls[c := s.calls[c].(cancelled := Some(t))] else s.calls
  {
    ReachableInv(n, clock, steps, s);
  }

  /** A new call starts at its first try, unflagged, now. */
  lemma CallStarts(n: nat, clock: nat, steps: seq<Step>, s: State, w: nat, fd: nat, ev: Event, to: Option<nat>)
    requires Runs(Initial(n, clock), steps, s) && UserCode(s, w)
    ensures SlotsMatch(s.table) && |s.table.fds| >= 32
    ensures var s', f := Next(s, Io(w, IoStart(fd, ev, to))), FiberAt(s, w);
      && Reached(s', f, |s.calls|, Try) && s'.timers == s.timers && s'.table == s.table
      && s'.calls == s.calls + [Call(f, fd, ev, to, s.clock, None, None)]
  {
    ReachableInv(n, clock, steps, s);
  }

  /** The fiber that runs a scheduled callback starts at INIT, in the timer's callback if it is one. */
  lemma CallbackEnters(n: nat, clock: nat, steps: seq<Step>, s: State, w: nat)
    requires Runs(Initial(n, clock), steps, s) && LoopEnabled(s, w, Prepare)
    ensures SlotsMatch(s.table) && |s.table.fds| >= 32
    ensures var s', tid, cb := Next(s, Loop(w, Prepare)), s.workers[w].loc.tid, TaskAt(s, w).work.cb;
      && IsAt(s', w, Starting) && s'.workers[w].cache == Some(FiberAt(s', w)) && s'.workers[w].loc.own
      && var x := s'.fibers[FiberAt(s', w)];
      && x.state.INIT? && x.pc == (match cb case Timeout(t) => InTimeout(t, false) case User(_) => Free)
      && s'.tasks == s.tasks[tid := s.tasks[tid].(fate := Ran(w))] && s'.queue == s.queue
  {
    ReachableInv(n, clock, steps, s);
    assert WorkerOk(s, w);
  }

  // ----- a flagged call

  /** Call c has been flagged since its last try: it cannot deliver any more. */
  predicate Doomed(s: State, c: nat) {
    && c < |s.calls| && s.calls[c].cancelled.Some?
    && match s.calls[c].result
       case Some(r) => !r.Transferred?
       case None =>
         var f := s.calls[c].fiber;
         f < |s.fibers| && s.fibers[f].pc.InIo? && s.fibers[f].pc.call == c && !s.fibers[f].pc.stage.Try?
  }

  /** The fiber of a doomed call takes a step of do_io. */
  lemma OwnIoDooms(s: State, w: nat, step: IoStep, f: nat, c: nat)
    requires IoEnabled(s, w, step) && SlotsMatch(s.table) && |s.table.fds| >= 32
    requires Doomed(s, c) && InCall(s, w, f, c) && s.calls[c].fiber == f && s.calls[c].result.None?
    ensures Doomed(IoNext(s, w, step), c)
  {}

  lemma IoDooms(s: State, w: nat, step: IoStep, c: nat)
    requires Inv(s) && LostWasDropped(s) && IoEnabled(s, w, step) && Doomed(s, c) && s.calls[c].result.None?
    ensures Doomed(IoNext(s, w, step), c)
  {
    var f, g := s.calls[c].fiber, FiberAt(s, w);
    assert Later(s, IoNext(s, w, step)) by {
      StepGoesForward(s, Io(w, step));
    }
    assert SlotsMatch(s.table) && |s.table.fds| >= 32 && PcOk(s, g) && PcOk(s, f);
    if g == f {
      OwnIoDooms(s, w, step, f, c);
    } else {
      OtherIo(s, w, step, f, c);
      KeptDooms(s, IoNext(s, w, step), c);
    }
  }

  lemma KeptDooms(s: State, s': State, c: nat)
    requires Doomed(s, c) && s.calls[c].result.None? && Later(s, s')
    requires StaysInCall(s, s', s.calls[c].fiber) && s'.calls[c].result == s.calls[c].result
    ensures Doomed(s', c)
  {
    assert CallLater(s.calls[c], s'.calls[c]);
  }

  lemma StepDooms(s: State, step: Step, c: nat)
    requires Inv(s) && LostWasDropped(s) && Enabled(s, step) && Doomed(s, c)
    ensures Doomed(Next(s, step), c)
  {
    var s' := Next(s, step);
    assert Later(s, s') by {
      StepGoesForward(s, step);
    }
    if s.calls[c].result.Some? {
      assert CallLater(s.calls[c], s'.calls[c]);
    } else if step.Io? {
      IoDooms(s, step.w, step.io, c);
    } else {
      StepFrame(s, step, s.calls[c].fiber);
      KeptDooms(s, s', c);
    }
  }

  lemma {:induction false} RunDooms(s: State, steps: seq<Step>, s': State, c: nat)
    requires Inv(s) && LostWasDropped(s) && Runs(s, steps, s') && Doomed(s, c)
    ensures Doomed(s', c)
    decreases |steps|
  {
    if steps != [] {
      StepDooms(s, steps[0], c);
      StepKeepsInv(s, steps[0]);
      StepGoesForward(s, steps[0]);
      RunDooms(Next(s, steps[0]), steps[1..], s', c);
    }
  }

  /** A call at its try is one step away from returning what the system call transferred. */
  lemma TryReturns(n: nat, clock: nat, steps: seq<Step>, s: State, c: nat) returns (more: seq<Step>, s': State)
    requires Runs(Initial(n, clock), steps, s) && c < |s.calls| && s.calls[c].result.None?
    requires s.calls[c].fiber < |s.fibers| && s.fibers[s.calls[c].fiber].pc == InIo(c, Try)
    ensures Runs(s, more, s') && c < |s'.calls| && s'.calls[c].result == Some(Transferred)
  {
    ReachableInv(n, clock, steps, s);
    var f := s.calls[c].fiber;
    assert StackOk(s, f);
    var w := s.fibers[f].on.value;
    assert WorkerOk(s, w) && InCall(s, w, f, c);
    more := [Io(w, IoReturn)];
    s' := Next(s, more[0]);
    assert Runs(s', more[1..], s');
  }

  /** The run `more` ends with call c having returned what was transferred. */
  ghost predicate CanTransfer(s: State, more: seq<Step>, s': State, c: nat) {
    Runs(s, more, s') && c < |s'.calls| && s'.calls[c].result == Some(Transferred)
  }

  lemma FlaggedIsDoomed(n: nat, clock: nat, steps: seq<Step>, s: State, c: nat)
    requires Runs(Initial(n, clock), steps, s)
    requires c < |s.calls| && s.calls[c].cancelled.Some? && s.calls[c].result.None?
    ensures s.calls[c].fiber < |s.fibers|
    ensures Doomed(s, c) || s.fibers[s.calls[c].fiber].pc == InIo(c, Try)
  {
    ReachableInv(n, clock, steps, s);
    assert CallOk(s, c);
  }

  lemma DoomedNeverTransfers(n: nat, clock: nat, steps: seq<Step>, s: State, more: seq<Step>, s': State, c: nat)
    requires Runs(Initial(n, clock), steps, s) && Runs(s, more, s') && Doomed(s, c)
    ensures c < |s'.calls| && s'.calls[c].result != Some(Transferred)
  {
    ReachableInv(n, clock, steps, s);
    RunDooms(s, more, s', c);
  }

  /** A flagged call with no result yet can still end in a transfer exactly when the flag reached it at its
      try, as a callback left over from an earlier round does. Anywhere else the flag is final,
      whatever all workers, timers and wake-ups do from there on. */
  lemma FlaggedTransfersExactly(n: nat, clock: nat, steps: seq<Step>, s: State, c: nat)
    requires Runs(Initial(n, clock), steps, s)
    requires c < |s.calls| && s.calls[c].cancelled.Some? && s.calls[c].result.None?
    ensures s.calls[c].fiber < |s.fibers|
    ensures (exists more, s' :: CanTransfer(s, more, s', c)) <==> s.fibers[s.calls[c].fiber].pc == InIo(c, Try)
  {
    FlaggedIsDoomed(n, clock, steps, s, c);
    if s.fibers[s.calls[c].fiber].pc == InIo(c, Try) {
      var more, s' := TryReturns(n, clock, steps, s, c);
      assert CanTransfer(s, more, s', c);
    } else {
      forall more, s' ensures !CanTransfer(s, more, s', c) {
        if CanTransfer(s, more, s', c) {
          DoomedNeverTransfers(n, clock, steps, s, more, s', c);
        }
      }
    }
  }

  // ----- the timers of a call

  /** The timer that the stage of a call holds, from arming to the cancel after the wake-up. */
  function TimerOf(stage: Stage): Option<nat> {
    match stage
    case Register(timer) => timer
    case AddFailed(timer) => timer
    case Park(timer) => timer
    case Wake(timer) => timer
    case _ => None
  }

  /** Timer t can still come due and is the one that its call, which goes on, will cancel. */
  predicate Owned(s: State, t: nat)
    requires t < |s.timers|
  {
    var c := s.timers[t].call;
    && c < |s.calls| && s.calls[c].result.None?
    && var f := s.calls[c].fiber;
    && f < |s.fibers| && s.fibers[f].pc.InIo? && s.fibers[f].pc.call == c
    && TimerOf(s.fibers[f].pc.stage) == Some(t)
  }

  ghost predicate PendingOwned(s: State) {
    forall t: nat {:trigger s.timers[t]} :: t < |s.timers| && s.timers[t].status.Pending? ==> Owned(s, t)
  }

  lemma KeptOwns(s: State, s': State, t: nat)
    requires t < |s.timers| && Owned(s, t) && Later(s, s')
    requires var c := s.timers[t].call;
      StaysInCall(s, s', s.calls[c].fiber) && s'.calls[c].result == s.calls[c].result
    ensures Owned(s', t)
  {
    assert TimerLater(s.timers[t], s'.timers[t]) && CallLater(s.calls[s.timers[t].call], s'.calls[s.timers[t].call]);
  }

  /** The fiber of a call takes a step of do_io: what is still pending afterwards is the call's own. */
  lemma OwnIoOwns(s: State, w: nat, step: IoStep, f: nat, c: nat, t: nat)
    requires IoEnabled(s, w, step) && SlotsMatch(s.table) && |s.table.fds| >= 32
    requires InCall(s, w, f, c) && s.calls[c].fiber == f && s.calls[c].result.None?
    requires t < |s.timers| ==> s.timers[t].call == c && Owned(s, t)
    ensures var s' := IoNext(s, w, step);
      t < |s'.timers| && s'.timers[t].status.Pending? ==> Owned(s', t)
  {}

  lemma IoOwns(s: State, w: nat, step: IoStep, t: nat)
    requires Inv(s) && LostWasDropped(s) && IoEnabled(s, w, step)
    requires t < |s.timers| && s.timers[t].status.Pending? && Owned(s, t)
    ensures var s' := IoNext(s, w, step);
      t < |s'.timers| && (s'.timers[t].status.Pending? ==> Owned(s', t))
  {
    var c := s.timers[t].call;
    var f, g := s.calls[c].fiber, FiberAt(s, w);
    assert Later(s, IoNext(s, w, step)) by {
      StepGoesForward(s, Io(w, step));
    }
    assert SlotsMatch(s.table) && |s.table.fds| >= 32 && PcOk(s, g) && PcOk(s, f);
    if g == f {
      OwnIoOwns(s, w, step, f, c, t);
    } else {
      OtherIo(s, w, step, f, c);
      KeptOwns(s, IoNext(s, w, step), t);
    }
  }

  /** Only arming makes a timer, and the call that armed it owns it. */
  lemma NewTimerOwned(s: State, w: nat, step: IoStep, t: nat)
    requires IoEnabled(s, w, step) && SlotsMatch(s.table) && |s.table.fds| >= 32
    requires InStage(s, w) ==>
      var c := s.fibers[FiberAt(s, w)].pc.call; s.calls[c].result.None? && s.calls[c].fiber == FiberAt(s, w)
    requires |s.timers| <= t < |IoNext(s, w, step).timers|
    ensures Owned(IoNext(s, w, step), t)
  {
    if step.TimeoutCancel? {
      var call := s.calls[s.timers[s.fibers[FiberAt(s, w)].pc.timer].call];
      CancelFrame(SetPc(s, w, Ending), call.fd, call.ev, step.ok);
    }
  }

  lemma StepOwns(s: State, step: Step, t: nat)
    requires Inv(s) && LostWasDropped(s) && Enabled(s, step) && PendingOwned(s)
    ensures var s' := Next(s, step);
      t < |s'.timers| && s'.timers[t].status.Pending? ==> Owned(s', t)
  {
    var s' := Next(s, step);
    if t < |s'.timers| && s'.timers[t].status.Pending? {
      assert Later(s, s') by {
        StepGoesForward(s, step);
      }
      if t < |s.timers| {
        assert TimerLater(s.timers[t], s'.timers[t]);
        if step.Io? {
          IoOwns(s, step.w, step.io, t);
        } else {
          StepFrame(s, step, s.calls[s.timers[t].call].fiber);
          KeptOwns(s, s', t);
        }
      } else if step.Io? {
        assert InStage(s, step.w) ==> PcOk(s, FiberAt(s, step.w));
        NewTimerOwned(s, step.w, step.io, t);
      } else {
        StepFrame(s, step, 0);
      }
    }
  }

  lemma {:induction false} RunOwns(s: State, steps: seq<Step>, s': State)
    requires Inv(s) && LostWasDropped(s) && Runs(s, steps, s') && PendingOwned(s)
    ensures PendingOwned(s')
    decreases |steps|
  {
    if steps != [] {
      var s1 := Next(s, steps[0]);
      forall t: nat | t < |s1.timers| && s1.timers[t].status.Pending? ensures Owned(s1, t) {
        StepOwns(s, steps[0], t);
      }
      StepKeepsInv(s, steps[0]);
      StepGoesForward(s, steps[0]);
      RunOwns(s1, steps[1..], s');
    }
  }

  /** Over every run a timer that can still come due belongs to a call that has not returned, and is the
      one that this call will cancel when its fiber wakes or addEvent fails: no timer outlives
      its call, and a call has at most one. */
  lemma PendingTimerIsHeld(n: nat, clock: nat, steps: seq<Step>, s: State, t: nat, u: nat)
    requires Runs(Initial(n, clock), steps, s)
    requires t < |s.timers| && s.timers[t].status.Pending?
    ensures Owned(s, t)
    ensures u < |s.timers| && s.timers[u].status.Pending? && s.timers[u].call == s.timers[t].call ==> u == t
  {
    InitialInv(n, clock);
    RunOwns(Initial(n, clock), steps, s);
    assert Owned(s, t) && (u < |s.timers| && s.timers[u].status.Pending? ==> Owned(s, u));
  }

  // ----- fibers, settings, and the end

  /** No step of any run takes a fiber along another edge, and every new fiber starts at INIT. */
  lemma FibersLive(n: nat, clock: nat, steps: seq<Step>, s: State, step: Step, f: nat)
    requires Runs(Initial(n, clock), steps, s) && Enabled(s, step)
    ensures SlotsMatch(s.table) && |s.table.fds| >= 32
    ensures Lives(s, Next(s, step), f)
  {
    ReachableInv(n, clock, steps, s);
    match step {
      case Io(w, io) => IoFrame(s, w, io, f);
      case _ => StepFrame(s, step, f);
    }
  }

  /** How a fiber leaves its worker: yielding makes it READY, returning TERM, throwing EXCEPT. */
  lemma FiberLeaves(n: nat, clock: nat, steps: seq<Step>, s: State, w: nat, f: nat, step: CodeStep)
    requires Runs(Initial(n, clock), steps, s) && CodeEnabled(s, w, step) && f == FiberAt(s, w)
    requires step.YieldReady? || step.Finish?
    ensures SlotsMatch(s.table) && |s.table.fds| >= 32
    ensures var s' := Next(s, Code(w, step));
      && s' == s.(fibers := s'.fibers) && |s'.fibers| == |s.fibers|
      && s'.fibers[f].state == (if step.YieldReady? then READY else if step.thrown then EXCEPT else TERM)
      && s'.fibers[f].pc.Leaving? && forall g {:trigger s'.fibers[g]} :: 0 <= g < |s.fibers| && g != f ==>
           s'.fibers[g] == s.fibers[g]
  {
    ReachableInv(n, clock, steps, s);
  }

  /** What becomes of the fiber: READY goes to the end of the queue, anything else that has not finished
      is put on HOLD, and a finished callback fiber is reset for the next callback. The worker
      keeps its callback fiber exactly when that has finished. */
  lemma FiberSettles(n: nat, clock: nat, steps: seq<Step>, s: State, w: nat, f: nat)
    requires Runs(Initial(n, clock), steps, s) && CanSettle(s, w) && f == FiberAt(s, w)
    ensures SlotsMatch(s.table) && |s.table.fds| >= 32
    ensures Settled(s, Next(s, Loop(w, Settle)), w, f)
  {
    assert SlotsMatch(s.table) && |s.table.fds| >= 32 && WorkerOk(s, w) by {
      ReachableInv(n, clock, steps, s);
    }
  }

  predicate Settled(s: State, s': State, w: nat, f: nat)
    requires CanSettle(s, w) && f < |s.fibers|
  {
    var was, own := s.fibers[f].state, s.workers[w].loc.own;
    && |s'.fibers| == |s.fibers| && |s'.workers| == |s.workers|
    && s'.fibers[f].state == (if was.EXEC? then HOLD else if own && Finished(was) then INIT else was)
    && s'.queue == s.queue + (if was.READY? then [|s.tasks|] else [])
    && s'.tasks == s.tasks + (if was.READY? then [Task(FiberWork(f), None, Waiting)] else [])
    && s'.workers[w].loc.Head?
    && s'.workers[w].cache == (if own && !Finished(was) then None else s.workers[w].cache)
  }

  /** The milliseconds that pass in a run. */
  function Passed(steps: seq<Step>): nat {
    if steps == [] then 0 else (if steps[0].Tick? then steps[0].d else 0) + Passed(steps[1..])
  }

  predicate Stops(steps: seq<Step>) {
    exists i :: 0 <= i < |steps| && steps[i].Stop?
  }

  lemma StopsFirstOrLater(steps: seq<Step>)
    requires steps != []
    ensures Stops(steps) <==> steps[0].Stop? || Stops(steps[1..])
  {
    assert forall i :: 0 <= i < |steps[1..]| ==> steps[1..][i] == steps[i + 1];
    if Stops(steps) && !steps[0].Stop? {
      var i :| 0 <= i < |steps| && steps[i].Stop?;
      assert steps[1..][i - 1].Stop?;
    }
  }

  lemma StepSettings(s: State, step: Step)
    requires Inv(s) && Enabled(s, step)
    ensures var s' := Next(s, step);
      && s'.clock == s.clock + Passed([step])
      && s'.autoStop == (s.autoStop || step.Stop?) && s'.stopFlag == (s.stopFlag || step.Stop?)
  {
    match step {
      case Tick(_) =>
      case Stop =>
      case Io(w, io) => IoFrame(s, w, io, 0);
      case _ => StepFrame(s, step, 0);
    }
  }

  /** Nothing but time moves the clock, and only stop(), once for good, sets the two flags. */
  lemma {:induction false} RunSettings(s: State, steps: seq<Step>, s': State)
    requires Inv(s) && LostWasDropped(s) && Runs(s, steps, s')
    ensures s'.clock == s.clock + Passed(steps)
    ensures s'.autoStop == (s.autoStop || Stops(steps)) && s'.stopFlag == (s.stopFlag || Stops(steps))
    decreases |steps|
  {
    if steps != [] {
      StepSettings(s, steps[0]);
      StepKeepsInv(s, steps[0]);
      StepGoesForward(s, steps[0]);
      RunSettings(Next(s, steps[0]), steps[1..], s');
      StopsFirstOrLater(steps);
    }
  }

  /** A worker leaves its loop exactly in this order: the idle fiber ends, which it may do exactly when stop()
      was called, no timer can come due, no event is registered, nothing is queued and no worker
      is between a pick and the decrement after the call; then the scan finds nothing. */
  lemma IdleEndsExactly(n: nat, clock: nat, steps: seq<Step>, s: State, w: nat)
    requires Runs(Initial(n, clock), steps, s) && IdlingAt(s, w)
    ensures Enabled(s, Idle(w, IdleStop)) <==>
      && ScanOf(s, w) == [] && Stops(steps) && s.queue == []
      && (forall t: nat :: t < |s.timers| ==> !s.timers[t].status.Pending?)
      && (forall fd: nat, ev: Event :: SlotAt(s.table, fd, ev) == Empty)
      && (forall v: nat :: v < |s.workers| ==> !Busy(s.workers[v].loc))
  {
    InitialInv(n, clock);
    ReachableInv(n, clock, steps, s);
    RunSettings(Initial(n, clock), steps, s);
    NobodyBusy(s.workers);
    NothingPending(s.table);
  }

  /** An idle fiber that has ended is not resumed: the next scan that finds nothing ends the worker, and
      no other scan does. */
  lemma WorkerExitsExactly(n: nat, clock: nat, steps: seq<Step>, s: State, w: nat)
    requires Runs(Initial(n, clock), steps, s) && w < |s.workers|
    ensures SlotsMatch(s.table) && |s.table.fds| >= 32
    ensures Enabled(s, Idle(w, IdleStop)) ==>
      var x := Next(s, Idle(w, IdleStop)).workers[w]; x.loc.Head? && x.idleTerm
    ensures Enabled(s, Loop(w, PickNone)) ==>
      var x := Next(s, Loop(w, PickNone)).workers[w];
      x.idleTerm == s.workers[w].idleTerm && (if x.idleTerm then x.loc.Exited? else x.loc == Idling([]))
  {
    ReachableInv(n, clock, steps, s);
  }

  lemma NobodyBusy(ws: seq<Worker>)
    ensures |BusySet(ws)| == 0 <==> forall v: nat :: v < |ws| ==> !Busy(ws[v].loc)
  {
    if forall v: nat :: v < |ws| ==> !Busy(ws[v].loc) {
      assert BusySet(ws) == {};
    } else {
      var v: nat :| v < |ws| && Busy(ws[v].loc);
      assert v in BusySet(ws);
    }
  }

  lemma NothingPending(t: Table)
    requires Core(t)
    ensures t.pending == 0 <==> forall fd: nat, ev: Event :: SlotAt(t, fd, ev) == Empty
  {
    if t.pending == 0 {
      forall fd: nat, ev: Event ensures SlotAt(t, fd, ev) == Empty {
        var bit := (fd, ev);
        assert bit !in Bits(t);
      }
    } else if Bits(t) != {} {
      var bit :| bit in Bits(t);
      assert SlotAt(t, bit.0, bit.1).Armed?;
    }
  }

  // ----- the fd table

  /** What the step does to the fd table, by the operation of the I/O manager that it stands for. */
  ghost function TableAfter(s: State, step: Step): Table
    requires Enabled(s, step) && SlotsMatch(s.table) && |s.table.fds| >= 32
  {
    match step
    case Code(w, AddCb(fd, ev, cb, ok)) => AddEvent(s.table, fd, ev, CbWork(User(cb)), ok).table
    case Code(w, Del(fd, ev, ok)) => DelEvent(s.table, fd, ev, ok).table
    case Code(w, Cancel(fd, ev, ok)) => CancelEvent(s.table, fd, ev, ok).table
    case Code(w, CancelFd(fd, ok)) => CancelAll(s.table, fd, ok).table
    case Io(w, IoRegister(ok)) =>
      var call := s.calls[s.fibers[FiberAt(s, w)].pc.call];
      AddEvent(s.table, call.fd, call.ev, FiberWork(FiberAt(s, w)), ok).table
    case Io(w, TimeoutCancel(ok)) =>
      var call := s.calls[s.timers[s.fibers[FiberAt(s, w)].pc.timer].call];
      CancelEvent(s.table, call.fd, call.ev, ok).table
    case Idle(w, Report(fd, reported, err, ok)) => Dispatch(s.table, fd, reported, err, ok).table
    case _ => s.table
  }

  /** The protocol refines the table: every step does to it what its operation does, and no other step
      touches it. */
  lemma StepsUseTheTable(n: nat, clock: nat, steps: seq<Step>, s: State, step: Step)
    requires Runs(Initial(n, clock), steps, s) && CanStepWild(s, step)
    ensures Next(s, step).table == TableAfter(s, step)
  {
    ReachableInv(n, clock, steps, s);
    StepTable(s, step);
  }

  lemma StepTable(s: State, step: Step)
    requires Inv(s) && CanStepWild(s, step)
    ensures Next(s, step).table == TableAfter(s, step)
  {
    match step {
      case Loop(w, loop) => LoopFiresNothing(s, w, loop);
      case Code(w, code) => CodeTable(s, w, code);
      case Io(w, io) => IoTable(s, w, io);
      case Idle(w, idle) => IdleTable(s, w, idle);
      case _ =>
    }
  }

  lemma CodeTable(s: State, w: nat, step: CodeStep)
    requires Inv(s) && CodeEnabled(s, w, step)
    ensures CodeNext(s, w, step).table == TableAfter(s, Code(w, step))
  {
    match step {
      case Cancel(fd, ev, ok) => CancelKeeps(s, fd, ev, ok);
      case CancelFd(fd, ok) => CancelFdKeeps(s, fd, ok);
      case _ => PlainCodeTable(s, w, step);
    }
  }

  lemma PlainCodeTable(s: State, w: nat, step: CodeStep)
    requires CodeEnabled(s, w, step) && SlotsMatch(s.table) && |s.table.fds| >= 32 && !step.Cancel? && !step.CancelFd?
    ensures CodeNext(s, w, step).table == TableAfter(s, Code(w, step))
  {}

  lemma IoTable(s: State, w: nat, step: IoStep)
    requires Inv(s) && IoEnabled(s, w, step)
    ensures IoNext(s, w, step).table == TableAfter(s, Io(w, step))
  {
    if step.TimeoutCancel? {
      var call := s.calls[s.timers[s.fibers[FiberAt(s, w)].pc.timer].call];
      PcKeeps(s, w, Ending);
      CancelKeeps(SetPc(s, w, Ending), call.fd, call.ev, step.ok);
    } else {
      PlainIoTable(s, w, step);
    }
  }

  lemma PlainIoTable(s: State, w: nat, step: IoStep)
    requires IoEnabled(s, w, step) && SlotsMatch(s.table) && |s.table.fds| >= 32 && !step.TimeoutCancel?
    ensures IoNext(s, w, step).table == TableAfter(s, Io(w, step))
  {}

  lemma IdleTable(s: State, w: nat, step: IdleStep)
    requires Inv(s) && IdleEnabled(s, w, step)
    requires step.Report? ==> !Dispatch(s.table, step.fd, step.reported, step.err, step.ok).rc.Abort?
    ensures IdleNext(s, w, step).table == TableAfter(s, Idle(w, step))
  {
    if step.Report? {
      ReportKeeps(s, step.fd, step.reported, step.err, step.ok);
    } else {
      IdleFiresNothing(s, w, step);
    }
  }
}
