/** The remaining steps: code running in fibers, do_io with its timeouts, and idling. */
module ProtocolSteps {
  import opened Base
  import opened EventTable
  import opened EventTableInv
  import opened Protocol
  import opened ProtocolInv

  // ----- code in fibers

  lemma SpawnNewKeeps(s: State, pin: Option<nat>)
    requires Sched(s)
    ensures Sched(SpawnNew(s, pin))
  {
    var s' := s.(fibers := s.fibers + [Fiber(INIT, Free, Lost, None)]);
    forall w: nat | w < |s'.workers| ensures WorkerOk(s', w) {
      assert WorkerOk(s, w);
    }
    forall f: nat | f < |s'.fibers| ensures HomeOk(s', f) && StackOk(s', f) && PcOk(s', f) {
      assert f < |s.fibers| ==> HomeOk(s, f) && StackOk(s, f) && PcOk(s, f);
    }
    forall tid: nat | tid < |s'.tasks| ensures TaskOk(s', tid) {
      assert TaskOk(s, tid);
    }
    CallsSame(s, s');
    PushFiberKeeps(s', |s.fibers|, pin);
  }

  lemma LeaveAsKeeps(s: State, w: nat, st: FState)
    requires Sched(s) && CanFinish(s, w) && (st.READY? || Finished(st))
    ensures Sched(LeaveAs(s, w, st))
  {
    var s', f := LeaveAs(s, w, st), FiberAt(s, w);
    assert WorkerOk(s, w) && HomeOk(s, f) && PcOk(s, f);
    CallsSame(s, s');
    OwnStep(s, s', w, f);
  }

  lemma SwitchToKeeps(s: State, w: nat, pin: Option<nat>)
    requires Inv(s) && UserCode(s, w)
    ensures Sched(CodeNext(s, w, SwitchTo(pin)))
  {
    var f := FiberAt(s, w);
    assert WorkerOk(s, w) && PcOk(s, f);
    var s1 := SetFiber(s, f, s.fibers[f].(pc := Holding, home := Lost));
    CallsSame(s, s1);
    OwnStep(s, s1, w, f);
    PushFiberKeeps(s1, f, pin);
    assert CodeNext(s, w, SwitchTo(pin)).fibers == Push(s1, FiberWork(f), pin).fibers;
  }

  lemma AddCbKeeps(s: State, fd: nat, ev: Event, cb: nat, ok: bool)
    requires Inv(s)
    ensures Inv(s.(table := AddEvent(s.table, fd, ev, CbWork(User(cb)), ok).table))
  {
    var t' := AddEvent(s.table, fd, ev, CbWork(User(cb)), ok).table;
    AddEventKeepsInv(s.table, fd, ev, CbWork(User(cb)), ok);
    TableKeeps(s, t');
  }

  lemma DelIsRelease(s: State, fd: nat, ev: Event, ok: bool)
    requires SlotsMatch(s.table) && DelEvent(s.table, fd, ev, ok).rc.Ok?
    ensures DelIn(s, fd, ev, ok) == Release(s, DelEvent(s.table, fd, ev, ok).table, fd, ev)
  {}

  lemma DelReleases(s: State, fd: nat, ev: Event, ok: bool)
    requires Sched(s) && SlotsMatch(s.table) && DelEvent(s.table, fd, ev, ok).rc.Ok?
    requires SlotAt(s.table, fd, ev).Armed?
    requires forall fd': nat, ev' ::
      SlotAt(DelEvent(s.table, fd, ev, ok).table, fd', ev') ==
      if fd' == fd && ev' == ev then Empty else SlotAt(s.table, fd', ev')
    ensures Sched(DelIn(s, fd, ev, ok))
  {
    DelIsRelease(s, fd, ev, ok);
    ReleaseKeeps(s, DelEvent(s.table, fd, ev, ok).table, fd, ev);
  }

  lemma DelTable(s: State, fd: nat, ev: Event, ok: bool)
    requires SlotsMatch(s.table)
    ensures var r := DelEvent(s.table, fd, ev, ok);
      DelIn(s, fd, ev, ok).table == r.table && (!r.rc.Ok? ==> DelIn(s, fd, ev, ok) == s.(table := r.table))
  {}

  lemma DelKeeps(s: State, fd: nat, ev: Event, ok: bool)
    requires Inv(s)
    ensures Inv(DelIn(s, fd, ev, ok))
  {
    var r := DelEvent(s.table, fd, ev, ok);
    DelTable(s, fd, ev, ok);
    DelEventKeepsInv(s.table, fd, ev, ok);
    assert Sched(DelIn(s, fd, ev, ok)) by {
      if r.rc.Ok? {
        DelReleases(s, fd, ev, ok);
      } else {
        TableKeeps(s, r.table);
      }
    }
  }

  /** The step does to the table what cancelEvent does. */
  lemma CancelKeeps(s: State, fd: nat, ev: Event, ok: bool)
    requires Inv(s)
    ensures Inv(CancelIn(s, fd, ev, ok))
    ensures CancelIn(s, fd, ev, ok).table == CancelEvent(s.table, fd, ev, ok).table
  {
    CancelEventKeepsInv(s.table, fd, ev, ok);
    if CancelEvent(s.table, fd, ev, ok).rc.Ok? {
      FireSetKeeps(s, fd, {ev});
    }
  }

  lemma CancelFdKeeps(s: State, fd: nat, ok: bool)
    requires Inv(s)
    ensures Inv(CancelFdIn(s, fd, ok))
    ensures CancelFdIn(s, fd, ok).table == CancelAll(s.table, fd, ok).table
  {
    CancelAllConsumesMask(s.table, fd, ok);
    if CancelAll(s.table, fd, ok).rc.Ok? {
      FireSetKeeps(s, fd, s.table.fds[fd].mask);
    }
  }

  lemma ReportKeeps(s: State, fd: nat, reported: set<Event>, err: bool, ok: bool)
    requires Inv(s) && fd < |s.table.fds| && !Dispatch(s.table, fd, reported, err, ok).rc.Abort?
    ensures Inv(ReportIn(s, fd, reported, err, ok))
    ensures ReportIn(s, fd, reported, err, ok).table == Dispatch(s.table, fd, reported, err, ok).table
  {
    DispatchConsumes(s.table, fd, reported, err, ok);
    if Dispatch(s.table, fd, reported, err, ok).rc.Ok? {
      FireSetKeeps(s, fd, RealEvents(s.table.fds[fd], reported, err));
    }
  }

  // ----- do_io

  lemma StartCallKeeps(s: State, w: nat, fd: nat, ev: Event, to: Option<nat>)
    requires Sched(s) && UserCode(s, w)
    ensures Sched(StartCall(s, w, fd, ev, to))
  {
    var s', f := StartCall(s, w, fd, ev, to), FiberAt(s, w);
    assert WorkerOk(s, w);
    assert Calls(s') by {
      forall c: nat | c < |s'.calls| ensures CallOk(s', c) {
        assert c < |s.calls| ==> CallOk(s, c);
      }
    }
    assert Timers(s') by {
      forall t: nat | t < |s'.timers| ensures TimerOk(s', t) {
        assert TimerOk(s, t);
      }
    }
    OwnStep(s, s', w, f);
  }

  /** Running code moves to another place of the same call, callback or plain code. */
  lemma PcKeeps(s: State, w: nat, pc: Pc)
    requires Sched(s) && Executes(s, w)
    requires var x := s.fibers[FiberAt(s, w)];
      && !(x.pc.InIo? && x.pc.stage.Park?) && !pc.Leaving? && !pc.Holding? && !(pc.InIo? && pc.stage.Park?)
      && (x.pc.InIo? || pc.InIo? ==> x.pc.InIo? && pc.InIo? && pc.call == x.pc.call)
    requires PcOk(SetPc(s, w, pc), FiberAt(s, w))
    ensures Sched(SetPc(s, w, pc))
  {
    var s', f := SetPc(s, w, pc), FiberAt(s, w);
    assert WorkerOk(s, w);
    CallsSame(s, s');
    OwnStep(s, s', w, f);
  }

  lemma StageKeeps(s: State, w: nat, stage: Stage)
    requires Sched(s) && InStage(s, w) && !StageOf(s, w).Park? && !stage.Park?
    requires stage.Register? || stage.AddFailed? || stage.Wake? ==>
               StageTimerOk(s, s.fibers[FiberAt(s, w)].pc.call, stage.timer)
    ensures Sched(SetStage(s, w, stage))
  {
    assert PcOk(s, FiberAt(s, w));
    PcKeeps(s, w, InIo(s.fibers[FiberAt(s, w)].pc.call, stage));
  }

  /** Only timers change, and they keep what calls and callbacks rely on. */
  lemma TimersFrame(s: State, s': State)
    requires Sched(s) && s'.(timers := s.timers) == s && Grew(s, s', |s.fibers|) && Timers(s')
    ensures Sched(s')
  {
    forall w: nat | w < |s'.workers| ensures WorkerOk(s', w) {
      assert WorkerOk(s, w);
    }
    forall f: nat | f < |s'.fibers| ensures HomeOk(s', f) && StackOk(s', f) && PcOk(s', f) {
      assert HomeOk(s, f) && StackOk(s, f) && PcOk(s, f);
    }
    forall tid: nat | tid < |s'.tasks| ensures TaskOk(s', tid) {
      assert TaskOk(s, tid);
    }
    forall c: nat | c < |s'.calls| ensures CallOk(s', c) {
      assert CallOk(s, c);
    }
  }

  lemma CancelTimerKeeps(s: State, timer: Option<nat>)
    requires Sched(s) && TimerInRange(s, timer)
    ensures Sched(CancelTimer(s, timer))
  {
    var s' := CancelTimer(s, timer);
    forall t: nat | t < |s'.timers| ensures TimerOk(s', t) {
      assert TimerOk(s, t);
    }
    TimersFrame(s, s');
  }

  lemma ArmTimerKeeps(s: State, w: nat)
    requires Sched(s) && InStage(s, w) && StageOf(s, w).Arm?
    ensures Sched(ArmTimer(s, w))
  {
    var c := s.fibers[FiberAt(s, w)].pc.call;
    assert CallOk(s, c);
    if s.calls[c].to.None? {
      StageKeeps(s, w, Register(None));
    } else {
      var s1 := s.(timers := s.timers + [Timer(c, s.clock, s.clock + s.calls[c].to.value, Pending)]);
      forall t: nat | t < |s1.timers| ensures TimerOk(s1, t) {
        assert t < |s.timers| ==> TimerOk(s, t);
      }
      TimersFrame(s, s1);
      StageKeeps(s1, w, Register(Some(|s.timers|)));
    }
  }

  lemma EndedCalls(s: State, w: nat, result: Result)
    requires Sched(s) && InStage(s, w)
    requires result.TimedOut? ==> s.calls[s.fibers[FiberAt(s, w)].pc.call].cancelled.Some?
    ensures Calls(EndCall(s, w, result)) && Timers(EndCall(s, w, result))
  {
    var s', f := EndCall(s, w, result), FiberAt(s, w);
    forall c: nat | c < |s'.calls| ensures CallOk(s', c) {
      assert CallOk(s, c);
    }
    forall t: nat | t < |s'.timers| ensures TimerOk(s', t) {
      assert TimerOk(s, t);
    }
  }

  lemma EndCallKeeps(s: State, w: nat, result: Result)
    requires Sched(s) && InStage(s, w) && !StageOf(s, w).Park?
    requires result.TimedOut? ==> s.calls[s.fibers[FiberAt(s, w)].pc.call].cancelled.Some?
    ensures Sched(EndCall(s, w, result))
  {
    var s', f := EndCall(s, w, result), FiberAt(s, w);
    assert WorkerOk(s, w) && PcOk(s, f);
    EndedCalls(s, w, result);
    OwnStep(s, s', w, f);
  }

  lemma RegisterKeeps(s: State, w: nat, ok: bool)
    requires Inv(s) && InStage(s, w) && StageOf(s, w).Register?
    ensures Inv(RegisterIo(s, w, ok))
  {
    var s', f := RegisterIo(s, w, ok), FiberAt(s, w);
    var call := s.calls[s.fibers[f].pc.call];
    assert WorkerOk(s, w) && PcOk(s, f);
    AddEventKeepsInv(s.table, call.fd, call.ev, FiberWork(f), ok);
    CallsSame(s, s');
    OwnStep(s, s', w, f);
  }

  // ----- the timeout callback

  /** Flagging a call that is neither finished nor flagged. */
  lemma FlagKeeps(s: State, t: nat)
    requires Sched(s) && t < |s.timers| && s.timers[t].status.Fired? && s.timers[t].call < |s.calls|
    requires s.calls[s.timers[t].call].cancelled.None?
    ensures var c := s.timers[t].call;
      Sched(s.(calls := s.calls[c := s.calls[c].(cancelled := Some(t))]))
  {
    var c := s.timers[t].call;
    var s' := s.(calls := s.calls[c := s.calls[c].(cancelled := Some(t))]);
    forall w: nat | w < |s'.workers| ensures WorkerOk(s', w) {
      assert WorkerOk(s, w);
    }
    forall f: nat | f < |s'.fibers| ensures HomeOk(s', f) && StackOk(s', f) && PcOk(s', f) {
      assert HomeOk(s, f) && StackOk(s, f) && PcOk(s, f);
    }
    forall tid: nat | tid < |s'.tasks| ensures TaskOk(s', tid) {
      assert TaskOk(s, tid);
    }
    forall c: nat | c < |s'.calls| ensures CallOk(s', c) {
      assert CallOk(s, c);
    }
    forall t: nat | t < |s'.timers| ensures TimerOk(s', t) {
      assert TimerOk(s, t);
    }
  }

  lemma TestAndFlagKeeps(s: State, w: nat)
    requires Sched(s) && InCallback(s, w, false)
    ensures Sched(TestAndFlag(s, w))
  {
    var f := FiberAt(s, w);
    var t := s.fibers[f].pc.timer;
    var c := s.timers[t].call;
    assert PcOk(s, f);
    if s.calls[c].result.Some? || s.calls[c].cancelled.Some? {
      PcKeeps(s, w, Ending);
    } else {
      FlagKeeps(s, t);
      PcKeeps(s.(calls := s.calls[c := s.calls[c].(cancelled := Some(t))]), w, InTimeout(t, true));
    }
  }

  lemma CancelForTimeoutKeeps(s: State, w: nat, ok: bool)
    requires Inv(s) && InCallback(s, w, true)
    ensures Inv(CancelForTimeout(s, w, ok))
  {
    var s1, f := SetPc(s, w, Ending), FiberAt(s, w);
    PcKeeps(s, w, Ending);
    var call := s.calls[s.timers[s.fibers[f].pc.timer].call];
    CancelKeeps(s1, call.fd, call.ev, ok);
  }

  // ----- idling

  lemma ExpireWorkers(s: State, w: nat, now: nat, order: seq<nat>)
    requires Sched(s) && CanExpire(s, w, now, order)
    ensures Workers(ExpireTimers(s, w, order))
  {
    var s' := ExpireTimers(s, w, order);
    forall w': nat | w' < |s'.workers| ensures WorkerOk(s', w') {
      assert WorkerOk(s, w');
    }
  }

  lemma ExpireFibers(s: State, w: nat, now: nat, order: seq<nat>)
    requires Sched(s) && CanExpire(s, w, now, order)
    ensures var s' := ExpireTimers(s, w, order); Homes(s') && Stacks(s') && Pcs(s')
  {
    var s' := ExpireTimers(s, w, order);
    forall f: nat | f < |s'.fibers| ensures HomeOk(s', f) && StackOk(s', f) && PcOk(s', f) {
      assert HomeOk(s, f) && StackOk(s, f) && PcOk(s, f);
    }
  }

  lemma ExpireCalls(s: State, w: nat, now: nat, order: seq<nat>)
    requires Sched(s) && CanExpire(s, w, now, order)
    ensures var s' := ExpireTimers(s, w, order); Calls(s') && Timers(s') && Tasks(s')
  {
    var s' := ExpireTimers(s, w, order);
    forall tid: nat | tid < |s'.tasks| ensures TaskOk(s', tid) {
      assert TaskOk(s, tid);
    }
    forall c: nat | c < |s'.calls| ensures CallOk(s', c) {
      assert CallOk(s, c);
    }
    forall t: nat | t < |s'.timers| ensures TimerOk(s', t) {
      assert TimerOk(s, t);
    }
  }

  lemma ExpireKeeps(s: State, w: nat, now: nat, order: seq<nat>)
    requires Sched(s) && CanExpire(s, w, now, order)
    ensures Sched(ExpireTimers(s, w, order))
  {
    BusyChange(s.workers, w, ExpireTimers(s, w, order).workers[w]);
    ExpireWorkers(s, w, now, order);
    ExpireFibers(s, w, now, order);
    ExpireCalls(s, w, now, order);
  }

  lemma {:induction false} PushTimeoutsKeeps(s: State, ts: seq<nat>)
    requires Sched(s)
    requires forall i :: 0 <= i < |ts| ==> ts[i] < |s.timers| && s.timers[ts[i]].status.Fired?
    ensures Sched(PushTimeouts(s, ts)) && PushTimeouts(s, ts).table == s.table
    decreases |ts|
  {
    if ts != [] {
      PushCbKeeps(s, Timeout(ts[0]), None);
      PushTimeoutsKeeps(Push(s, CbWork(Timeout(ts[0])), None), ts[1..]);
    }
  }

  lemma FlushKeeps(s: State, w: nat)
    requires Sched(s) && IdlingAt(s, w)
    ensures var s' := PushTimeouts(MoveTo(s, w, Idling([])), s.workers[w].loc.cbs);
      Sched(s') && s'.table == s.table
  {
    assert WorkerOk(s, w);
    IdleMoveKeeps(s, w, s.workers[w].(loc := Idling([])));
    PushTimeoutsKeeps(MoveTo(s, w, Idling([])), s.workers[w].loc.cbs);
  }

  // ----- every step

  lemma LoopKeeps(s: State, w: nat, step: LoopStep)
    requires Inv(s) && LoopEnabled(s, w, step)
    ensures Inv(LoopNext(s, w, step))
  {
    match step {
      case Pick(i) => TakeTaskKeeps(s, w, i);
      case PickNone =>
        IdleMoveKeeps(s, w, s.workers[w].(loc := if s.workers[w].idleTerm then Exited else Idling([])));
      case Begin => BeginKeeps(s, w);
      case DropDone => NeverDropped(s, w);
      case Prepare => PrepareKeeps(s, w);
      case Enter => EnterKeeps(s, w);
      case SwapOut => SwapOutKeeps(s, w);
      case Return => ReturnKeeps(s, w);
      case Judge => JudgeKeeps(s, w);
      case Settle => SettleKeeps(s, w);
    }
  }

  lemma CodeKeeps(s: State, w: nat, step: CodeStep)
    requires Inv(s) && CodeEnabled(s, w, step)
    ensures Inv(CodeNext(s, w, step))
  {
    match step {
      case Spawn(cb, pin) => PushCbKeeps(s, User(cb), pin);
      case SpawnFiber(pin) => SpawnNewKeeps(s, pin);
      case YieldReady => LeaveAsKeeps(s, w, READY);
      case Finish(thrown) => LeaveAsKeeps(s, w, if thrown then EXCEPT else TERM);
      case SwitchTo(pin) => SwitchToKeeps(s, w, pin);
      case AddCb(fd, ev, cb, ok) => AddCbKeeps(s, fd, ev, cb, ok);
      case Del(fd, ev, ok) => DelKeeps(s, fd, ev, ok);
      case Cancel(fd, ev, ok) => CancelKeeps(s, fd, ev, ok);
      case CancelFd(fd, ok) => CancelFdKeeps(s, fd, ok);
    }
  }

  lemma IoKeeps(s: State, w: nat, step: IoStep)
    requires Inv(s) && IoEnabled(s, w, step)
    ensures Inv(IoNext(s, w, step))
  {
    match step {
      case IoStart(fd, ev, to) => StartCallKeeps(s, w, fd, ev, to);
      case IoReturn => EndCallKeeps(s, w, Transferred);
      case IoAgain => StageKeeps(s, w, Arm);
      case IoArm => ArmTimerKeeps(s, w);
      case IoRegister(ok) => RegisterKeeps(s, w, ok);
      case IoRefused =>
        CancelTimerKeeps(s, StageOf(s, w).timer);
        EndCallKeeps(CancelTimer(s, StageOf(s, w).timer), w, Refused);
      case IoWake =>
        CancelTimerKeeps(s, StageOf(s, w).timer);
        StageKeeps(CancelTimer(s, StageOf(s, w).timer), w, Check);
      case IoCheck =>
        if s.calls[s.fibers[FiberAt(s, w)].pc.call].cancelled.Some? {
          EndCallKeeps(s, w, TimedOut);
        } else {
          StageKeeps(s, w, Try);
        }
      case TimeoutTest => TestAndFlagKeeps(s, w);
      case TimeoutCancel(ok) => CancelForTimeoutKeeps(s, w, ok);
    }
  }

  lemma IdleKeeps(s: State, w: nat, step: IdleStep)
    requires Inv(s) && IdleEnabled(s, w, step) && AssertsHold(s, Idle(w, step))
    ensures Inv(IdleNext(s, w, step))
  {
    match step {
      case Expire(now, order) => ExpireKeeps(s, w, now, order);
      case Flush => FlushKeeps(s, w);
      case Report(fd, reported, err, ok) => ReportKeeps(s, fd, reported, err, ok);
      case IdleBack => IdleMoveKeeps(s, w, s.workers[w].(loc := Head));
      case IdleStop => IdleMoveKeeps(s, w, s.workers[w].(loc := Head, idleTerm := true));
    }
  }

  lemma TickKeeps(s: State, s': State)
    requires Sched(s) && s'.(clock := s.clock, autoStop := s.autoStop, stopFlag := s.stopFlag) == s
      && s.clock <= s'.clock
    ensures Sched(s')
  {
    forall w: nat | w < |s'.workers| ensures WorkerOk(s', w) {
      assert WorkerOk(s, w);
    }
    forall f: nat | f < |s'.fibers| ensures HomeOk(s', f) && StackOk(s', f) && PcOk(s', f) {
      assert HomeOk(s, f) && StackOk(s, f) && PcOk(s, f);
    }
    forall tid: nat | tid < |s'.tasks| ensures TaskOk(s', tid) {
      assert TaskOk(s, tid);
    }
    forall c: nat | c < |s'.calls| ensures CallOk(s', c) {
      assert CallOk(s, c);
    }
    forall t: nat | t < |s'.timers| ensures TimerOk(s', t) {
      assert TimerOk(s, t);
    }
  }

  /** Every step whose asserts hold, and that schedules no fiber with a resume, keeps the invariant. */
  lemma StepKeepsInv(s: State, step: Step)
    requires Inv(s) && Enabled(s, step) && AssertsHold(s, step) && Polite(s, step)
    ensures Inv(Next(s, step))
  {
    match step {
      case Tick(d) => TickKeeps(s, s.(clock := s.clock + d));
      case Stop => TickKeeps(s, s.(autoStop := true, stopFlag := true));
      case Submit(cb, pin) => PushCbKeeps(s, User(cb), pin);
      case SubmitFiber(pin) => SpawnNewKeeps(s, pin);
      case Schedule(f, pin) =>
        WhereFibersAre(s, f);
        PushFiberKeeps(s, f, pin);
      case Loop(w, loop) => LoopKeeps(s, w, loop);
      case Code(w, code) => CodeKeeps(s, w, code);
      case Io(w, io) => IoKeeps(s, w, io);
      case Idle(w, idle) => IdleKeeps(s, w, idle);
    }
  }

  lemma InitialInv(workers: nat, clock: nat)
    ensures Inv(Initial(workers, clock))
  {
    InitInv();
    var s := Initial(workers, clock);
    assert Workers(s) && BusySet(s.workers) == {} by {
      forall w: nat | w < |s.workers| ensures WorkerOk(s, w) && !Busy(s.workers[w].loc) {
        assert s.workers[w] == Worker(Head, None, false);
      }
    }
    assert SlotWorkOk(s);
  }
}
