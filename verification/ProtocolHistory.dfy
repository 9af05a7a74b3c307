/** What a step never undoes: flags, results, timers, tasks and registrations only move forward. */
module ProtocolHistory {
  import opened Base
  import opened EventTable
  import opened EventTableInv
  import opened Protocol
  import opened ProtocolInv

  predicate CallLater(a: Call, b: Call) {
    && b.fiber == a.fiber && b.fd == a.fd && b.ev == a.ev && b.to == a.to && b.start == a.start
    && (a.cancelled.Some? ==> b.cancelled == a.cancelled)
    && (a.result.Some? ==> b.result == a.result)
  }

  predicate TimerLater(a: Timer, b: Timer) {
    && b.call == a.call && b.at == a.at && b.deadline == a.deadline
    && (!a.status.Pending? ==> b.status == a.status)
  }

  predicate FateLater(a: Fate, b: Fate) {
    || b == a
    || a.Waiting?
    || (a.Taken? && (b.Ran? || b.Dropped?) && b.w == a.w)
  }

  predicate TaskLater(a: Task, b: Task) {
    b.work == a.work && b.pin == a.pin && FateLater(a.fate, b.fate)
  }

  ghost predicate Later(s: State, s': State) {
    && s.clock <= s'.clock
    && |s.calls| <= |s'.calls|
    && (forall c {:trigger s'.calls[c]} :: 0 <= c < |s.calls| ==> CallLater(s.calls[c], s'.calls[c]))
    && |s.timers| <= |s'.timers|
    && (forall t {:trigger s'.timers[t]} :: 0 <= t < |s.timers| ==> TimerLater(s.timers[t], s'.timers[t]))
    && |s.tasks| <= |s'.tasks|
    && (forall t {:trigger s'.tasks[t]} :: 0 <= t < |s.tasks| ==> TaskLater(s.tasks[t], s'.tasks[t]))
    && s.table.made <= s'.table.made && s.table.fired <= s'.table.fired && s.table.dropped <= s'.table.dropped
  }

  /** A fiber that nothing will resume had a registration removed by delEvent. */
  ghost predicate DroppedOnce(t: Table, f: nat) {
    exists r: nat :: r < |t.made| && t.made[r].work == FiberWork(f) && r in t.dropped
  }

  ghost predicate LostWasDropped(s: State) {
    forall f: nat {:trigger s.fibers[f]} :: f < |s.fibers| && s.fibers[f].home.Lost? ==>
      DroppedOnce(s.table, f) && s.fibers[f].pc.InIo?
  }

  lemma LaterReflexive(s: State)
    ensures Later(s, s)
  {}

  lemma LaterTransitive(a: State, b: State, c: State)
    requires Later(a, b) && Later(b, c)
    ensures Later(a, c)
  {
    forall i | 0 <= i < |a.calls| ensures CallLater(a.calls[i], c.calls[i]) {
      assert CallLater(a.calls[i], b.calls[i]) && CallLater(b.calls[i], c.calls[i]);
    }
    forall i | 0 <= i < |a.timers| ensures TimerLater(a.timers[i], c.timers[i]) {
      assert TimerLater(a.timers[i], b.timers[i]) && TimerLater(b.timers[i], c.timers[i]);
    }
    forall i | 0 <= i < |a.tasks| ensures TaskLater(a.tasks[i], c.tasks[i]) {
      assert TaskLater(a.tasks[i], b.tasks[i]) && TaskLater(b.tasks[i], c.tasks[i]);
    }
  }

  /** Homes only become Lost in a step that drops a registration of that fiber, inside do_io, and the
      fiber stays there. */
  ghost predicate NoNewLost(s: State, s': State) {
    forall f: nat {:trigger s'.fibers[f]} :: f < |s'.fibers| && s'.fibers[f].home.Lost? ==>
      || (f < |s.fibers| && s.fibers[f].home.Lost? && (s.fibers[f].pc.InIo? ==> s'.fibers[f].pc.InIo?))
      || (DroppedOnce(s'.table, f) && s'.fibers[f].pc.InIo?)
  }

  lemma KeepsLost(s: State, s': State)
    requires LostWasDropped(s) && NoNewLost(s, s')
      && s.table.made <= s'.table.made && s.table.dropped <= s'.table.dropped
    ensures LostWasDropped(s')
  {
    forall f: nat | f < |s'.fibers| && s'.fibers[f].home.Lost?
      ensures DroppedOnce(s'.table, f) && s'.fibers[f].pc.InIo?
    {
      if f < |s.fibers| && s.fibers[f].home.Lost? {
        var r: nat :| r < |s.table.made| && s.table.made[r].work == FiberWork(f) && r in s.table.dropped;
        assert s'.table.made[r] == s.table.made[r];
      }
    }
  }

  ghost predicate Forward(s: State, s': State) {
    Later(s, s') && NoNewLost(s, s')
  }

  lemma PickForward(s: State, w: nat, i: nat)
    requires Inv(s) && LoopEnabled(s, w, Pick(i))
    ensures Forward(s, TakeTask(s, w, i))
  {
    assert TaskOk(s, s.queue[i]);
  }

  lemma BeginForward(s: State, w: nat)
    requires WorkerRange(s, w) && LoopEnabled(s, w, Begin)
    ensures Forward(s, BeginFiber(s, w))
  {}

  lemma DropForward(s: State, w: nat)
    requires WorkerRange(s, w) && LoopEnabled(s, w, DropDone)
    ensures Forward(s, DropTask(s, w))
  {}

  lemma PrepareForward(s: State, w: nat)
    requires WorkerRange(s, w) && LoopEnabled(s, w, Prepare)
    ensures Forward(s, PrepareFiber(s, w))
  {}

  lemma SettleForward(s: State, w: nat)
    requires LoopEnabled(s, w, Settle)
    ensures Forward(s, SettleFiber(s, w))
  {}

  /** The steps that only move a worker or change the state of its own fiber. */
  lemma PlainForward(s: State, w: nat, step: LoopStep)
    requires LoopEnabled(s, w, step) && (step.PickNone? || step.Enter? || step.SwapOut? || step.Return? || step.Judge?)
    ensures Forward(s, LoopNext(s, w, step))
  {}

  /** What the invariant says about one worker, and no more. */
  ghost predicate WorkerRange(s: State, w: nat) {
    w < |s.workers| && WorkerOk(s, w)
  }

  lemma LoopForward(s: State, w: nat, step: LoopStep)
    requires Inv(s) && LoopEnabled(s, w, step)
    ensures Forward(s, LoopNext(s, w, step))
  {
    assert WorkerOk(s, w);
    match step {
      case Pick(i) => PickForward(s, w, i);
      case PickNone => PlainForward(s, w, step);
      case Begin => BeginForward(s, w);
      case DropDone => DropForward(s, w);
      case Prepare => PrepareForward(s, w);
      case Enter => PlainForward(s, w, step);
      case SwapOut => PlainForward(s, w, step);
      case Return => PlainForward(s, w, step);
      case Judge => PlainForward(s, w, step);
      case Settle => SettleForward(s, w);
    }
  }

  lemma ForwardTransitive(a: State, b: State, c: State)
    requires Forward(a, b) && Forward(b, c)
    ensures Forward(a, c)
  {
    LaterTransitive(a, b, c);
    forall f: nat | f < |c.fibers| && c.fibers[f].home.Lost? && !(f < |a.fibers| && a.fibers[f].home.Lost?)
      ensures DroppedOnce(c.table, f)
    {
      if f < |b.fibers| && b.fibers[f].home.Lost? {
        assert DroppedOnce(b.table, f);
        var r: nat :| r < |b.table.made| && b.table.made[r].work == FiberWork(f) && r in b.table.dropped;
        assert c.table.made[r] == b.table.made[r];
      }
    }
  }

  lemma PushForward(s: State, work: Work, pin: Option<nat>)
    requires work.FiberWork? ==> work.fiber < |s.fibers|
    ensures Forward(s, Push(s, work, pin))
  {}

  lemma FireIfForward(s: State, fd: nat, ev: Event, on: bool)
    requires on ==> CanFire(s, fd, ev)
    ensures Forward(s, FireIf(s, fd, ev, on))
  {
    if on {
      var s1 := s.(table := Trigger(s.table, fd, ev));
      PushForward(s1, SlotAt(s.table, fd, ev).work, None);
      ForwardTransitive(s, s1, Fire(s, fd, ev));
    }
  }

  lemma FireSetForward(s: State, fd: nat, evs: set<Event>)
    requires CanFireAll(s, fd, evs)
    ensures Forward(s, FireSet(s, fd, evs))
  {
    var ctx := s.table.fds[fd];
    var s0 := s.(table := Ctl(s.table, RemoveOp(ctx, evs), fd, ctx.mask - evs));
    var s1 := FireIf(s0, fd, READ, READ in evs);
    FireIfForward(s0, fd, READ, READ in evs);
    FireIfForward(s1, fd, WRITE, WRITE in evs);
    ForwardTransitive(s, s0, s1);
    ForwardTransitive(s, s1, FireSet(s, fd, evs));
  }

  lemma {:induction false} PushTimeoutsForward(s: State, ts: seq<nat>)
    ensures Forward(s, PushTimeouts(s, ts))
    decreases |ts|
  {
    if ts != [] {
      var s1 := Push(s, CbWork(Timeout(ts[0])), None);
      PushForward(s, CbWork(Timeout(ts[0])), None);
      PushTimeoutsForward(s1, ts[1..]);
      ForwardTransitive(s, s1, PushTimeouts(s, ts));
    }
  }

  lemma DroppedSlot(t: Table, fd: nat, ev: Event, ok: bool)
    requires TableInv(t)
    ensures var t' := DelEvent(t, fd, ev, ok).table;
      && t'.made == t.made && t'.fired == t.fired && t.dropped <= t'.dropped
      && (DelEvent(t, fd, ev, ok).rc.Ok? && SlotAt(t, fd, ev).work.FiberWork? ==>
            DroppedOnce(t', SlotAt(t, fd, ev).work.fiber))
  {
    DelEventKeepsInv(t, fd, ev, ok);
    var t', slot := DelEvent(t, fd, ev, ok).table, SlotAt(t, fd, ev);
    if DelEvent(t, fd, ev, ok).rc.Ok? {
      assert t'.dropped[|t.dropped|] == slot.reg;
      assert t'.made[slot.reg].work == slot.work;
    }
  }

  lemma DelForward(s: State, fd: nat, ev: Event, ok: bool)
    requires SlotsMatch(s.table)
    requires var t' := DelEvent(s.table, fd, ev, ok).table;
      && t'.made == s.table.made && t'.fired == s.table.fired && s.table.dropped <= t'.dropped
      && (DelEvent(s.table, fd, ev, ok).rc.Ok? && SlotAt(s.table, fd, ev).work.FiberWork? ==>
            DroppedOnce(t', SlotAt(s.table, fd, ev).work.fiber))
    requires var slot := SlotAt(s.table, fd, ev);
      slot.Armed? && slot.work.FiberWork? && slot.work.fiber < |s.fibers| ==> s.fibers[slot.work.fiber].pc.InIo?
    ensures Forward(s, DelIn(s, fd, ev, ok))
  {}

  lemma SpawnNewForward(s: State, pin: Option<nat>)
    ensures Forward(s, SpawnNew(s, pin))
  {}

  lemma LeaveAsForward(s: State, w: nat, st: FState)
    requires Executes(s, w) && !s.fibers[FiberAt(s, w)].pc.InIo?
    ensures Forward(s, LeaveAs(s, w, st))
  {}

  lemma CancelFdForward(s: State, fd: nat, ok: bool)
    requires SlotsMatch(s.table)
    ensures Forward(s, CancelFdIn(s, fd, ok))
  {
    if CancelFdIn(s, fd, ok) != s {
      FireSetForward(s, fd, s.table.fds[fd].mask);
    }
  }

  lemma SwitchToForward(s: State, w: nat, pin: Option<nat>)
    requires Executes(s, w)
    ensures Forward(s, Push(SetPc(s, w, Holding), FiberWork(FiberAt(s, w)), pin))
  {}

  lemma AddCbForward(s: State, fd: nat, ev: Event, cb: nat, ok: bool)
    requires |s.table.fds| >= 32
    ensures Forward(s, s.(table := AddEvent(s.table, fd, ev, CbWork(User(cb)), ok).table))
  {}

  lemma CodeForward(s: State, w: nat, step: CodeStep)
    requires Inv(s) && CodeEnabled(s, w, step)
    ensures Forward(s, CodeNext(s, w, step))
  {
    match step {
      case Spawn(cb, pin) => PushForward(s, CbWork(User(cb)), pin);
      case SpawnFiber(pin) => SpawnNewForward(s, pin);
      case YieldReady => LeaveAsForward(s, w, READY);
      case Finish(thrown) => LeaveAsForward(s, w, if thrown then EXCEPT else TERM);
      case SwitchTo(pin) => SwitchToForward(s, w, pin);
      case AddCb(fd, ev, cb, ok) => AddCbForward(s, fd, ev, cb, ok);
      case Del(fd, ev, ok) =>
        DroppedSlot(s.table, fd, ev, ok);
        DelForward(s, fd, ev, ok);
      case Cancel(fd, ev, ok) => CancelForward(s, fd, ev, ok);
      case CancelFd(fd, ok) => CancelFdForward(s, fd, ok);
    }
  }

  lemma CancelForward(s: State, fd: nat, ev: Event, ok: bool)
    requires SlotsMatch(s.table)
    ensures Forward(s, CancelIn(s, fd, ev, ok))
  {
    if CancelIn(s, fd, ev, ok) != s {
      FireSetForward(s, fd, {ev});
    }
  }

  lemma RegisterForward(s: State, w: nat, ok: bool)
    requires TableInv(s.table) && InStage(s, w) && StageOf(s, w).Register?
    ensures Forward(s, RegisterIo(s, w, ok))
  {
    var f := FiberAt(s, w);
    var call := s.calls[s.fibers[f].pc.call];
    AddEventKeepsInv(s.table, call.fd, call.ev, FiberWork(f), ok);
  }

  lemma TimeoutForward(s: State, w: nat, ok: bool)
    requires SlotsMatch(s.table) && InCallback(s, w, true)
    ensures Forward(s, CancelForTimeout(s, w, ok))
  {
    var call := s.calls[s.timers[s.fibers[FiberAt(s, w)].pc.timer].call];
    var s1 := SetPc(s, w, Ending);
    CancelForward(s1, call.fd, call.ev, ok);
    ForwardTransitive(s, s1, CancelIn(s1, call.fd, call.ev, ok));
  }

  lemma EndCallForward(s: State, w: nat, timer: Option<nat>, result: Result)
    requires InStage(s, w) && TimerInRange(s, timer) && FiberAt(s, w) < |s.fibers| && PcOk(s, FiberAt(s, w))
    requires !s.fibers[FiberAt(s, w)].home.Lost?
    ensures Forward(s, EndCall(CancelTimer(s, timer), w, result))
  {}

  lemma StageForward(s: State, w: nat, timer: Option<nat>, stage: Stage)
    requires InStage(s, w) && TimerInRange(s, timer)
    ensures Forward(s, SetStage(CancelTimer(s, timer), w, stage))
  {}

  lemma ArmForward(s: State, w: nat)
    requires InStage(s, w)
    ensures Forward(s, ArmTimer(s, w))
  {}

  lemma TestForward(s: State, w: nat)
    requires InCallback(s, w, false)
    ensures Forward(s, TestAndFlag(s, w))
  {}

  lemma IoForward(s: State, w: nat, step: IoStep)
    requires Inv(s) && IoEnabled(s, w, step)
    ensures Forward(s, IoNext(s, w, step))
  {
    assert InStage(s, w) ==> PcOk(s, FiberAt(s, w)) && WorkerOk(s, w);
    match step {
      case IoStart(fd, ev, to) => assert Forward(s, StartCall(s, w, fd, ev, to));
      case IoReturn => EndCallForward(s, w, None, Transferred);
      case IoAgain => StageForward(s, w, None, Arm);
      case IoArm => ArmForward(s, w);
      case IoRegister(ok) => RegisterForward(s, w, ok);
      case IoRefused => EndCallForward(s, w, StageOf(s, w).timer, Refused);
      case IoWake => StageForward(s, w, StageOf(s, w).timer, Check);
      case IoCheck =>
        EndCallForward(s, w, None, TimedOut);
        StageForward(s, w, None, Try);
      case TimeoutTest => TestForward(s, w);
      case TimeoutCancel(ok) => TimeoutForward(s, w, ok);
    }
  }

  lemma FlushForward(s: State, w: nat)
    requires IdlingAt(s, w)
    ensures Forward(s, PushTimeouts(MoveTo(s, w, Idling([])), s.workers[w].loc.cbs))
  {
    var s1 := MoveTo(s, w, Idling([]));
    PushTimeoutsForward(s1, s.workers[w].loc.cbs);
    ForwardTransitive(s, s1, PushTimeouts(s1, s.workers[w].loc.cbs));
  }

  lemma IdleMoveForward(s: State, w: nat, step: IdleStep)
    requires IdleEnabled(s, w, step) && SlotsMatch(s.table) && (step.Expire? || step.IdleBack? || step.IdleStop?)
    ensures Forward(s, IdleNext(s, w, step))
  {}

  lemma IdleForward(s: State, w: nat, step: IdleStep)
    requires Inv(s) && IdleEnabled(s, w, step)
    ensures Forward(s, IdleNext(s, w, step))
  {
    match step {
      case Flush => FlushForward(s, w);
      case Report(fd, reported, err, ok) =>
        if ReportIn(s, fd, reported, err, ok) != s {
          FireSetForward(s, fd, RealEvents(s.table.fds[fd], reported, err));
        }
      case _ => IdleMoveForward(s, w, step);
    }
  }

  lemma OutsideForward(s: State, step: Step)
    requires Enabled(s, step) && SlotsMatch(s.table) && |s.table.fds| >= 32
    requires step.Tick? || step.Stop? || step.Submit? || step.SubmitFiber? || step.Schedule?
    ensures Forward(s, Next(s, step))
  {}

  lemma StepGoesForward(s: State, step: Step)
    requires Inv(s) && LostWasDropped(s) && Enabled(s, step)
    ensures Later(s, Next(s, step)) && LostWasDropped(Next(s, step))
  {
    match step {
      case Loop(w, loop) => LoopForward(s, w, loop);
      case Code(w, code) => CodeForward(s, w, code);
      case Io(w, io) => IoForward(s, w, io);
      case Idle(w, idle) => IdleForward(s, w, idle);
      case _ => OutsideForward(s, step);
    }
    assert Forward(s, Next(s, step));
    KeepsLost(s, Next(s, step));
  }
}
