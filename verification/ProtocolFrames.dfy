/** What each step leaves alone: the calls of other fibers, the states of fibers, the settings. */
module ProtocolFrames {
  import opened Base
  import opened EventTable
  import opened EventTableInv
  import opened Protocol
  import opened ProtocolInv

  /** Fiber f stays where it is in its call, or falls asleep there. */
  predicate StaysInCall(s: State, s': State, f: nat) {
    && f < |s.fibers| && f < |s'.fibers|
    && (s.fibers[f].pc.InIo? ==>
          var pc := s.fibers[f].pc;
          s'.fibers[f].pc == pc || (pc.stage.Park? && s'.fibers[f].pc == InIo(pc.call, Wake(pc.stage.timer))))
  }

  /** The life of a fiber (src/fiber.h, src/scheduler.cc): resumed, then stopped in one of four ways; a
      finished one is only ever reset. */
  predicate Edge(a: FState, b: FState) {
    || a == b
    || match a
       case INIT => b.EXEC?
       case HOLD => b.EXEC?
       case READY => b.EXEC?
       case EXEC => b.HOLD? || b.READY? || b.TERM? || b.EXCEPT?
       case TERM => b.INIT?
       case EXCEPT => b.INIT?
  }

  /** Fiber f takes one edge at most, and a new fiber starts at INIT. */
  predicate Lives(s: State, s': State, f: nat) {
    && |s.fibers| <= |s'.fibers|
    && (f < |s'.fibers| ==>
          if f < |s.fibers| then Edge(s.fibers[f].state, s'.fibers[f].state) else s'.fibers[f].state.INIT?)
  }

  predicate SameSettings(s: State, s': State) {
    s'.clock == s.clock && s'.autoStop == s.autoStop && s'.stopFlag == s.stopFlag
  }

  /** All that was scheduled may run on any worker. */
  ghost predicate Unpinned(s: State, s': State) {
    && |s.tasks| <= |s'.tasks|
    && forall tid {:trigger s'.tasks[tid]} :: 0 <= tid < |s'.tasks| ==>
         s'.tasks[tid].pin == if tid < |s.tasks| then s.tasks[tid].pin else None
  }

  predicate NoCallMoves(s: State, s': State, f: nat) {
    s'.calls == s.calls && |s'.timers| == |s.timers| && Lives(s, s', f) && (f < |s.fibers| ==> StaysInCall(s, s', f))
  }

  /** Fibers change nothing but the place that resumes them. */
  ghost predicate OnlyQueues(s: State, s': State) {
    && s'.calls == s.calls && s'.timers == s.timers && SameSettings(s, s') && Unpinned(s, s')
    && |s'.fibers| == |s.fibers|
    && forall f {:trigger s'.fibers[f]} :: 0 <= f < |s.fibers| ==>
         s'.fibers[f].pc == s.fibers[f].pc && s'.fibers[f].state == s.fibers[f].state
  }

  lemma PrepareFrame(s: State, w: nat, f: nat)
    requires CanPrepare(s, w) && (s.workers[w].cache.Some? ==> HomeOk(s, s.workers[w].cache.value))
    requires !s.workers[w].loc.On? && WorkerOk(s, w)
    ensures NoCallMoves(s, PrepareFiber(s, w), f)
    ensures SameSettings(s, PrepareFiber(s, w)) && Unpinned(s, PrepareFiber(s, w))
  {}

  lemma SettleFrame(s: State, w: nat, f: nat)
    requires CanSettle(s, w) && WorkerOk(s, w)
    ensures NoCallMoves(s, SettleFiber(s, w), f)
    ensures SameSettings(s, SettleFiber(s, w)) && Unpinned(s, SettleFiber(s, w))
  {}

  lemma LoopFrame(s: State, w: nat, step: LoopStep, f: nat)
    requires LoopEnabled(s, w, step) && WorkerOk(s, w)
    requires s.workers[w].cache.Some? ==> HomeOk(s, s.workers[w].cache.value)
    ensures NoCallMoves(s, LoopNext(s, w, step), f)
    ensures SameSettings(s, LoopNext(s, w, step)) && Unpinned(s, LoopNext(s, w, step))
  {
    match step {
      case Prepare => PrepareFrame(s, w, f);
      case Settle => SettleFrame(s, w, f);
      case _ => MoveFrame(s, w, step, f);
    }
  }

  lemma MoveFrame(s: State, w: nat, step: LoopStep, f: nat)
    requires LoopEnabled(s, w, step) && WorkerOk(s, w) && !step.Prepare? && !step.Settle?
    ensures NoCallMoves(s, LoopNext(s, w, step), f)
    ensures SameSettings(s, LoopNext(s, w, step)) && Unpinned(s, LoopNext(s, w, step))
  {}

  lemma PushFrame(s: State, work: Work)
    requires work.FiberWork? ==> work.fiber < |s.fibers|
    ensures OnlyQueues(s, Push(s, work, None))
  {}

  lemma FireIfFrame(s: State, fd: nat, ev: Event, on: bool)
    requires on ==> CanFire(s, fd, ev)
    ensures OnlyQueues(s, FireIf(s, fd, ev, on))
  {
    if on {
      PushFrame(s.(table := Trigger(s.table, fd, ev)), SlotAt(s.table, fd, ev).work);
    }
  }

  lemma FireSetFrame(s: State, fd: nat, evs: set<Event>)
    requires CanFireAll(s, fd, evs)
    ensures OnlyQueues(s, FireSet(s, fd, evs))
  {
    var ctx := s.table.fds[fd];
    var s0 := s.(table := Ctl(s.table, RemoveOp(ctx, evs), fd, ctx.mask - evs));
    FireIfFrame(s0, fd, READ, READ in evs);
    FireIfFrame(FireIf(s0, fd, READ, READ in evs), fd, WRITE, WRITE in evs);
  }

  lemma CancelFrame(s: State, fd: nat, ev: Event, ok: bool)
    requires SlotsMatch(s.table)
    ensures OnlyQueues(s, CancelIn(s, fd, ev, ok))
  {
    if CancelIn(s, fd, ev, ok) != s {
      FireSetFrame(s, fd, {ev});
    }
  }

  lemma CodeFrame(s: State, w: nat, step: CodeStep, f: nat)
    requires CodeEnabled(s, w, step) && SlotsMatch(s.table) && |s.table.fds| >= 32 && WorkerOk(s, w)
    ensures NoCallMoves(s, CodeNext(s, w, step), f) && SameSettings(s, CodeNext(s, w, step))
    ensures step.Cancel? || step.CancelFd? ==> Unpinned(s, CodeNext(s, w, step))
  {
    match step {
      case Cancel(fd, ev, ok) => CancelFrame(s, fd, ev, ok);
      case CancelFd(fd, ok) =>
        if CancelFdIn(s, fd, ok) != s {
          FireSetFrame(s, fd, s.table.fds[fd].mask);
        }
      case _ =>
    }
  }

  lemma {:induction false} FlushFrame(s: State, ts: seq<nat>)
    ensures OnlyQueues(s, PushTimeouts(s, ts))
    decreases |ts|
  {
    if ts != [] {
      FlushFrame(Push(s, CbWork(Timeout(ts[0])), None), ts[1..]);
    }
  }

  lemma IdleFrame(s: State, w: nat, step: IdleStep, f: nat)
    requires IdleEnabled(s, w, step) && SlotsMatch(s.table)
    ensures NoCallMoves(s, IdleNext(s, w, step), f)
    ensures SameSettings(s, IdleNext(s, w, step)) && Unpinned(s, IdleNext(s, w, step))
  {
    match step {
      case Flush => FlushFrame(MoveTo(s, w, Idling([])), s.workers[w].loc.cbs);
      case Report(fd, reported, err, ok) =>
        if ReportIn(s, fd, reported, err, ok) != s {
          FireSetFrame(s, fd, RealEvents(s.table.fds[fd], reported, err));
        }
      case _ =>
    }
  }

  lemma IoFrame(s: State, w: nat, step: IoStep, f: nat)
    requires IoEnabled(s, w, step) && SlotsMatch(s.table) && |s.table.fds| >= 32
    ensures Lives(s, IoNext(s, w, step), f)
    ensures SameSettings(s, IoNext(s, w, step)) && Unpinned(s, IoNext(s, w, step))
  {
    if step.TimeoutCancel? {
      var call := s.calls[s.timers[s.fibers[FiberAt(s, w)].pc.timer].call];
      CancelFrame(SetPc(s, w, Ending), call.fd, call.ev, step.ok);
    }
  }

  /** A step of do_io taken by another fiber neither moves f nor ends its call. */
  lemma OtherIo(s: State, w: nat, step: IoStep, f: nat, c: nat)
    requires IoEnabled(s, w, step) && SlotsMatch(s.table) && |s.table.fds| >= 32 && f < |s.fibers| && c < |s.calls|
    requires FiberAt(s, w) != f && (InStage(s, w) ==> s.fibers[FiberAt(s, w)].pc.call != c)
    ensures var s' := IoNext(s, w, step);
      StaysInCall(s, s', f) && c < |s'.calls| && s'.calls[c].result == s.calls[c].result
  {
    if step.TimeoutCancel? {
      var call := s.calls[s.timers[s.fibers[FiberAt(s, w)].pc.timer].call];
      CancelFrame(SetPc(s, w, Ending), call.fd, call.ev, step.ok);
    }
  }

  lemma OutsideFrame(s: State, step: Step, f: nat)
    requires Enabled(s, step) && SlotsMatch(s.table) && |s.table.fds| >= 32
    requires step.Tick? || step.Stop? || step.Submit? || step.SubmitFiber? || step.Schedule?
    ensures NoCallMoves(s, Next(s, step), f)
    ensures !step.Tick? && !step.Stop? ==> SameSettings(s, Next(s, step))
  {}

  lemma StepFrame(s: State, step: Step, f: nat)
    requires Inv(s) && Enabled(s, step) && !step.Io?
    ensures NoCallMoves(s, Next(s, step), f)
    ensures !step.Tick? && !step.Stop? ==> SameSettings(s, Next(s, step))
  {
    match step {
      case Loop(w, loop) =>
        assert WorkerOk(s, w) && (s.workers[w].cache.Some? ==> HomeOk(s, s.workers[w].cache.value));
        LoopFrame(s, w, loop, f);
      case Code(w, code) =>
        assert WorkerOk(s, w);
        CodeFrame(s, w, code, f);
      case Idle(w, idle) => IdleFrame(s, w, idle, f);
      case _ => OutsideFrame(s, step, f);
    }
  }
}
