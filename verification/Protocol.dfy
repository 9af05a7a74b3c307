/**
  The fiber, event and timeout protocol as a step system: workers running
  Scheduler::run (src/scheduler.cc), the shared task queue, fibers
  (src/fiber.cc), the fd table (module EventTable) and do_io with its timeout
  callback (src/hook.cc). One step is one section under a lock or one update of a
  shared variable; a step's label carries every choice the environment makes.
*/
module Protocol {
  import opened Base
  import opened EventTable

  datatype FState = INIT | HOLD | EXEC | TERM | READY | EXCEPT

  /** Where a do_io call stands (src/hook.cc:133-195). */
  datatype Stage =
    | Try
    | Arm
    | Register(timer: Option<nat>)
    | AddFailed(timer: Option<nat>)
    | Park(timer: Option<nat>)
    | Wake(timer: Option<nat>)
    | Check

  /** What the code running in a fiber does next: Leaving is back() with the state set, Holding the
      YieldToHold of switchTo. */
  datatype Pc =
    | Free
    | Leaving
    | Holding
    | Ending
    | InIo(call: nat, stage: Stage)
    | InTimeout(timer: nat, flagged: bool)

  /** Book-keeping: the one place that will resume the fiber next. No guard reads it. */
  datatype Home =
    | Queued(tid: nat)
    | Slotted(fd: nat, ev: Event)
    | Held(w: nat)
    | Cached(w: nat)
    | Done
    | Lost

  /** `home` and `on` (the worker whose call() the fiber sits in) are book-keeping. */
  datatype Fiber = Fiber(state: FState, pc: Pc, home: Home, on: Option<nat>)

  datatype At = Starting | Running | Returned | Settling | Judged(seen: FState)

  /** A worker's position in its loop; `own` marks the cached callback fiber. */
  datatype Loc =
    | Head
    | Picked(tid: nat)
    | On(fiber: nat, own: bool, at: At)
    | Idling(cbs: seq<nat>)
    | Exited

  datatype Worker = Worker(loc: Loc, cache: Option<nat>, idleTerm: bool)

  datatype Fate = Waiting | Taken(w: nat) | Ran(w: nat) | Dropped(w: nat)

  /** Everything ever scheduled, numbered by position; `fate` is book-keeping. */
  datatype Task = Task(work: Work, pin: Option<nat>, fate: Fate)

  datatype Result = Transferred | Refused | TimedOut

  datatype Call = Call(fiber: nat, fd: nat, ev: Event, to: Option<nat>, start: nat,
                       cancelled: Option<nat>, result: Option<Result>)

  datatype Status = Pending | Cancelled | Fired

  datatype Timer = Timer(call: nat, at: nat, deadline: nat, status: Status)

  datatype State = State(
    clock: nat, autoStop: bool, stopFlag: bool,
    queue: seq<nat>, active: int, tasks: seq<Task>,
    workers: seq<Worker>, fibers: seq<Fiber>,
    table: Table, calls: seq<Call>, timers: seq<Timer>)

  function Initial(workers: nat, clock: nat): State {
    State(clock, false, false, [], 0, [], seq(workers, _ => Worker(Head, None, false)), [], InitTable(), [], [])
  }

  /** Scheduler::run on one worker. */
  datatype LoopStep =
    | Pick(i: nat)
    | PickNone
    | Begin
    | DropDone
    | Prepare
    | Enter
    | SwapOut
    | Return
    | Judge
    | Settle

  /** What the code running in a fiber may do. */
  datatype CodeStep =
    | Spawn(cb: nat, pin: Option<nat>)
    | SpawnFiber(pin: Option<nat>)
    | YieldReady
    | Finish(thrown: bool)
    | SwitchTo(pin: Option<nat>)
    | AddCb(fd: nat, ev: Event, cb: nat, ok: bool)
    | Del(fd: nat, ev: Event, ok: bool)
    | Cancel(fd: nat, ev: Event, ok: bool)
    | CancelFd(fd: nat, ok: bool)

  /** do_io and its timeout callback. */
  datatype IoStep =
    | IoStart(fd: nat, ev: Event, to: Option<nat>)
    | IoReturn
    | IoAgain
    | IoArm
    | IoRegister(ok: bool)
    | IoRefused
    | IoWake
    | IoCheck
    | TimeoutTest
    | TimeoutCancel(ok: bool)

  /** IOManager::idle. */
  datatype IdleStep =
    | Expire(now: nat, order: seq<nat>)
    | Flush
    | Report(fd: nat, reported: set<Event>, err: bool, ok: bool)
    | IdleBack
    | IdleStop

  datatype Step =
    | Tick(d: nat)
    | Stop
    | Submit(cb: nat, pin: Option<nat>)
    | SubmitFiber(pin: Option<nat>)
    | Schedule(fiber: nat, pin: Option<nat>)
    | Loop(w: nat, loop: LoopStep)
    | Code(w: nat, code: CodeStep)
    | Io(w: nat, io: IoStep)
    | Idle(w: nat, idle: IdleStep)

  // ----- guards

  predicate IsAt(s: State, w: nat, at: At) {
    w < |s.workers| && s.workers[w].loc.On? && s.workers[w].loc.at == at && s.workers[w].loc.fiber < |s.fibers|
  }

  function FiberAt(s: State, w: nat): nat
    requires w < |s.workers| && s.workers[w].loc.On?
  {
    s.workers[w].loc.fiber
  }

  /** Worker w is inside a fiber that is not on its way out. */
  predicate Executes(s: State, w: nat) {
    IsAt(s, w, Running) && !s.fibers[FiberAt(s, w)].pc.Leaving? && !s.fibers[FiberAt(s, w)].pc.Holding?
  }

  predicate UserCode(s: State, w: nat) {
    Executes(s, w) && s.fibers[FiberAt(s, w)].pc.Free?
  }

  predicate InStage(s: State, w: nat) {
    Executes(s, w) && s.fibers[FiberAt(s, w)].pc.InIo? && s.fibers[FiberAt(s, w)].pc.call < |s.calls|
  }

  function StageOf(s: State, w: nat): Stage
    requires InStage(s, w)
  {
    s.fibers[FiberAt(s, w)].pc.stage
  }

  predicate IdlingAt(s: State, w: nat) {
    w < |s.workers| && s.workers[w].loc.Idling?
  }

  predicate Finished(st: FState) {
    st.TERM? || st.EXCEPT?
  }

  /** The skip conditions of the queue scan (src/scheduler.cc:188-201). */
  predicate Eligible(s: State, w: nat, tid: nat)
    requires tid < |s.tasks|
  {
    && (s.tasks[tid].pin.Some? ==> s.tasks[tid].pin.value == w)
    && (s.tasks[tid].work.FiberWork? ==>
          s.tasks[tid].work.fiber < |s.fibers| && !s.fibers[s.tasks[tid].work.fiber].state.EXEC?)
  }

  predicate QueueInRange(s: State) {
    forall i :: 0 <= i < |s.queue| ==> s.queue[i] < |s.tasks|
  }

  predicate HoldsTask(s: State, w: nat) {
    w < |s.workers| && s.workers[w].loc.Picked? && s.workers[w].loc.tid < |s.tasks|
  }

  function TaskAt(s: State, w: nat): Task
    requires HoldsTask(s, w)
  {
    s.tasks[s.workers[w].loc.tid]
  }

  predicate HoldsFiber(s: State, w: nat) {
    HoldsTask(s, w) && TaskAt(s, w).work.FiberWork? && TaskAt(s, w).work.fiber < |s.fibers|
  }

  /** Scheduler::stopping (src/scheduler.cc:33-38). */
  predicate Stopping(s: State) {
    s.autoStop && s.stopFlag && s.queue == [] && s.active == 0
  }

  predicate NoTimers(s: State) {
    forall t :: 0 <= t < |s.timers| ==> !s.timers[t].status.Pending?
  }

  /** IOManager::stopping (src/iomanager.cc:240-244). */
  predicate IoStopping(s: State) {
    NoTimers(s) && s.table.pending == 0 && Stopping(s)
  }

  /** What listExpiredCb takes: exactly the timers due at `now`, earliest first. */
  predicate DueInOrder(s: State, now: nat, order: seq<nat>) {
    && (forall i :: 0 <= i < |order| ==>
          order[i] < |s.timers| && s.timers[order[i]].status.Pending? && s.timers[order[i]].deadline <= now)
    && (forall t: nat :: t < |s.timers| && s.timers[t].status.Pending? && s.timers[t].deadline <= now ==> t in order)
    && (forall i, j :: 0 <= i < j < |order| ==>
          order[i] != order[j] && s.timers[order[i]].deadline <= s.timers[order[j]].deadline)
  }

  predicate CanPick(s: State, w: nat, i: nat) {
    && w < |s.workers| && s.workers[w].loc.Head? && QueueInRange(s) && i < |s.queue|
    && Eligible(s, w, s.queue[i]) && forall j :: 0 <= j < i ==> !Eligible(s, w, s.queue[j])
  }

  predicate CanPickNone(s: State, w: nat) {
    && w < |s.workers| && s.workers[w].loc.Head? && QueueInRange(s)
    && forall j :: 0 <= j < |s.queue| ==> !Eligible(s, w, s.queue[j])
  }

  predicate CanPrepare(s: State, w: nat) {
    && HoldsTask(s, w) && TaskAt(s, w).work.CbWork?
    && (s.workers[w].cache.Some? ==> s.workers[w].cache.value < |s.fibers|)
  }

  predicate CanSwapOut(s: State, w: nat) {
    && IsAt(s, w, Running)
    && var pc := s.fibers[FiberAt(s, w)].pc;
       pc.Leaving? || pc.Holding? || (pc.InIo? && pc.stage.Park?)
  }

  predicate CanSettle(s: State, w: nat) {
    w < |s.workers| && s.workers[w].loc.On? && s.workers[w].loc.at.Judged? && s.workers[w].loc.fiber < |s.fibers|
  }

  predicate CanFinish(s: State, w: nat) {
    Executes(s, w) && (s.fibers[FiberAt(s, w)].pc.Free? || s.fibers[FiberAt(s, w)].pc.Ending?)
  }

  predicate CanWake(s: State, w: nat) {
    InStage(s, w) && StageOf(s, w).Wake? && TimerInRange(s, StageOf(s, w).timer)
  }

  predicate CanRefuse(s: State, w: nat) {
    InStage(s, w) && StageOf(s, w).AddFailed? && TimerInRange(s, StageOf(s, w).timer)
  }

  predicate CanExpire(s: State, w: nat, now: nat, order: seq<nat>) {
    IdlingAt(s, w) && s.workers[w].loc.cbs == [] && now <= s.clock && DueInOrder(s, now, order)
  }

  predicate LoopEnabled(s: State, w: nat, step: LoopStep) {
    match step
    case Pick(i) => CanPick(s, w, i)
    case PickNone => CanPickNone(s, w)
    case Begin => CanBegin(s, w)
    case DropDone => HoldsFiber(s, w) && Finished(s.fibers[TaskAt(s, w).work.fiber].state)
    case Prepare => CanPrepare(s, w)
    case Enter => IsAt(s, w, Starting)
    case SwapOut => CanSwapOut(s, w)
    case Return => IsAt(s, w, Returned)
    case Judge => IsAt(s, w, Settling)
    case Settle => CanSettle(s, w)
  }

  predicate CodeEnabled(s: State, w: nat, step: CodeStep) {
    match step
    case Spawn(_, _) => UserCode(s, w)
    case SpawnFiber(_) => UserCode(s, w)
    case YieldReady => UserCode(s, w)
    case Finish(_) => CanFinish(s, w)
    case SwitchTo(_) => UserCode(s, w)
    case AddCb(_, _, _, _) => UserCode(s, w)
    case Del(_, _, _) => UserCode(s, w)
    case Cancel(_, _, _) => UserCode(s, w)
    case CancelFd(_, _) => UserCode(s, w)
  }

  predicate IoEnabled(s: State, w: nat, step: IoStep) {
    match step
    case IoStart(_, _, _) => UserCode(s, w)
    case IoReturn => InStage(s, w) && StageOf(s, w).Try?
    case IoAgain => InStage(s, w) && StageOf(s, w).Try?
    case IoArm => InStage(s, w) && StageOf(s, w).Arm?
    case IoRegister(_) => InStage(s, w) && StageOf(s, w).Register?
    case IoRefused => CanRefuse(s, w)
    case IoWake => CanWake(s, w)
    case IoCheck => InStage(s, w) && StageOf(s, w).Check?
    case TimeoutTest => InCallback(s, w, false)
    case TimeoutCancel(_) => InCallback(s, w, true)
  }

  predicate IdleEnabled(s: State, w: nat, step: IdleStep) {
    match step
    case Expire(now, order) => CanExpire(s, w, now, order)
    case Flush => IdlingAt(s, w)
    case Report(fd, _, _, _) => IdlingAt(s, w) && fd < |s.table.fds|
    case IdleBack => IdlingAt(s, w) && s.workers[w].loc.cbs == []
    case IdleStop => IdlingAt(s, w) && s.workers[w].loc.cbs == [] && IoStopping(s)
  }

  predicate Enabled(s: State, step: Step) {
    match step
    case Tick(_) => true
    case Stop => true
    case Submit(_, _) => true
    case SubmitFiber(_) => true
    case Schedule(f, _) => f < |s.fibers|
    case Loop(w, loop) => LoopEnabled(s, w, loop)
    case Code(w, code) => CodeEnabled(s, w, code)
    case Io(w, io) => IoEnabled(s, w, io)
    case Idle(w, idle) => IdleEnabled(s, w, idle)
  }

  predicate TimerInRange(s: State, timer: Option<nat>) {
    timer.Some? ==> timer.value < |s.timers|
  }

  predicate InCallback(s: State, w: nat, flagged: bool) {
    && Executes(s, w)
    && var pc := s.fibers[FiberAt(s, w)].pc;
       pc.InTimeout? && pc.flagged == flagged && pc.timer < |s.timers| && s.timers[pc.timer].call < |s.calls|
  }

  // ----- effects

  function MoveTo(s: State, w: nat, loc: Loc): State
    requires w < |s.workers|
  {
    s.(workers := s.workers[w := s.workers[w].(loc := loc)])
  }

  function SetFiber(s: State, f: nat, fiber: Fiber): State
    requires f < |s.fibers|
  {
    s.(fibers := s.fibers[f := fiber])
  }

  function SetPc(s: State, w: nat, pc: Pc): State
    requires w < |s.workers| && s.workers[w].loc.On? && FiberAt(s, w) < |s.fibers|
  {
    SetFiber(s, FiberAt(s, w), s.fibers[FiberAt(s, w)].(pc := pc))
  }

  /** scheduleNoLock (src/scheduler.h:145-155). */
  function Push(s: State, work: Work, pin: Option<nat>): State
    requires work.FiberWork? ==> work.fiber < |s.fibers|
  {
    var tid := |s.tasks|;
    var s1 := s.(tasks := s.tasks + [Task(work, pin, Waiting)], queue := s.queue + [tid]);
    if work.FiberWork? then SetFiber(s1, work.fiber, s.fibers[work.fiber].(home := Queued(tid))) else s1
  }

  predicate CanFire(s: State, fd: nat, ev: Event) {
    && CanTrigger(s.table, fd, ev)
    && var work := SlotAt(s.table, fd, ev).work; work.FiberWork? ==> work.fiber < |s.fibers|
  }

  /** triggerEvent: the slot's content moves to the queue. */
  function Fire(s: State, fd: nat, ev: Event): State
    requires CanFire(s, fd, ev)
  {
    Push(s.(table := Trigger(s.table, fd, ev)), SlotAt(s.table, fd, ev).work, None)
  }

  function FireIf(s: State, fd: nat, ev: Event, on: bool): State
    requires on ==> CanFire(s, fd, ev)
  {
    if on then Fire(s, fd, ev) else s
  }

  predicate CanFireAll(s: State, fd: nat, evs: set<Event>) {
    fd < |s.table.fds| && (READ in evs ==> CanFire(s, fd, READ)) && (WRITE in evs ==> CanFire(s, fd, WRITE))
  }

  /** The kernel's interest is narrowed, then the events of `evs` are fired. */
  function FireSet(s: State, fd: nat, evs: set<Event>): State
    requires CanFireAll(s, fd, evs)
  {
    var ctx := s.table.fds[fd];
    var s0 := s.(table := Ctl(s.table, RemoveOp(ctx, evs), fd, ctx.mask - evs));
    FireIf(FireIf(s0, fd, READ, READ in evs), fd, WRITE, WRITE in evs)
  }

  function PushTimeouts(s: State, ts: seq<nat>): State
    decreases |ts|
  {
    if ts == [] then s else PushTimeouts(Push(s, CbWork(Timeout(ts[0])), None), ts[1..])
  }

  /** The pc of a callback fiber that is about to run `cb`. */
  function EntryPc(cb: Callback): Pc {
    if cb.Timeout? then InTimeout(cb.timer, false) else Free
  }

  function EndCall(s: State, w: nat, result: Result): State
    requires InStage(s, w)
  {
    var c := s.fibers[FiberAt(s, w)].pc.call;
    SetPc(s, w, Free).(calls := s.calls[c := s.calls[c].(result := Some(result))])
  }

  function CancelTimer(s: State, timer: Option<nat>): State
    requires TimerInRange(s, timer)
  {
    if timer.Some? && s.timers[timer.value].status.Pending?
    then s.(timers := s.timers[timer.value := s.timers[timer.value].(status := Cancelled)])
    else s
  }

  function FireAll(timers: seq<Timer>, order: seq<nat>): seq<Timer> {
    seq(|timers|, i requires 0 <= i < |timers| => if i in order then timers[i].(status := Fired) else timers[i])
  }

  function TakeTask(s: State, w: nat, i: nat): State
    requires CanPick(s, w, i)
  {
    var tid := s.queue[i];
    var s1 := MoveTo(s, w, Picked(tid)).(
                queue := s.queue[..i] + s.queue[i + 1..],
                active := s.active + 1,
                tasks := s.tasks[tid := s.tasks[tid].(fate := Taken(w))]);
    if s.tasks[tid].work.FiberWork?
    then SetFiber(s1, s.tasks[tid].work.fiber, s.fibers[s.tasks[tid].work.fiber].(home := Held(w)))
    else s1
  }

  function SetFate(s: State, w: nat, fate: Fate): State
    requires HoldsTask(s, w)
  {
    s.(tasks := s.tasks[s.workers[w].loc.tid := TaskAt(s, w).(fate := fate)])
  }

  /** Reset the cached callback fiber, or make one (src/scheduler.cc:235-242). */
  function PrepareFiber(s: State, w: nat): State
    requires CanPrepare(s, w)
  {
    var blank := Fiber(INIT, EntryPc(TaskAt(s, w).work.cb), Held(w), Some(w));
    var s1 := SetFate(s, w, Ran(w));
    if s.workers[w].cache.Some?
    then MoveTo(SetFiber(s1, s.workers[w].cache.value, blank), w, On(s.workers[w].cache.value, true, Starting))
    else s1.(fibers := s.fibers + [blank],
             workers := s.workers[w := s.workers[w].(loc := On(|s.fibers|, true, Starting), cache := Some(|s.fibers|))])
  }

  /** After call() returned and the active count went down (src/scheduler.cc:223-259). */
  function SettleFiber(s: State, w: nat): State
    requires CanSettle(s, w)
  {
    var f, own, seen := FiberAt(s, w), s.workers[w].loc.own, s.workers[w].loc.at.seen;
    var fiber := s.fibers[f].(on := None);
    var keep := own && Finished(seen);
    var s1 := s.(workers := s.workers[w := s.workers[w].(loc := Head,
      cache := if own && !keep then None else s.workers[w].cache)]);
    if seen.READY? then Push(SetFiber(s1, f, fiber), FiberWork(f), None)
    else if keep then SetFiber(s1, f, fiber.(state := INIT, pc := Free, home := Cached(w)))
    else if Finished(seen) then SetFiber(s1, f, fiber.(home := Done))
    else SetFiber(s1, f, fiber.(state := HOLD))
  }

  function RegisterIo(s: State, w: nat, ok: bool): State
    requires InStage(s, w) && StageOf(s, w).Register? && |s.table.fds| >= 32
  {
    var f := FiberAt(s, w);
    var c := s.fibers[f].pc.call;
    var timer := StageOf(s, w).timer;
    var call := s.calls[c];
    var r := AddEvent(s.table, call.fd, call.ev, FiberWork(f), ok);
    var s1 := s.(table := r.table);
    if r.rc.Ok? then SetFiber(s1, f, s.fibers[f].(pc := InIo(c, Park(timer)), home := Slotted(call.fd, call.ev)))
    else SetPc(s1, w, InIo(c, AddFailed(timer)))
  }

  function DelIn(s: State, fd: nat, ev: Event, ok: bool): State
    requires SlotsMatch(s.table)
  {
    var r := DelEvent(s.table, fd, ev, ok);
    var s1 := s.(table := r.table);
    if r.rc.Ok? && SlotAt(s.table, fd, ev).work.FiberWork? && SlotAt(s.table, fd, ev).work.fiber < |s.fibers|
    then var f := SlotAt(s.table, fd, ev).work.fiber; SetFiber(s1, f, s.fibers[f].(home := Lost))
    else s1
  }

  function CancelIn(s: State, fd: nat, ev: Event, ok: bool): State
    requires SlotsMatch(s.table)
  {
    if CancelEvent(s.table, fd, ev, ok).rc.Ok? && CanFireAll(s, fd, {ev}) then FireSet(s, fd, {ev}) else s
  }

  function CancelFdIn(s: State, fd: nat, ok: bool): State
    requires SlotsMatch(s.table)
  {
    if CancelAll(s.table, fd, ok).rc.Ok? && CanFireAll(s, fd, s.table.fds[fd].mask)
    then FireSet(s, fd, s.table.fds[fd].mask) else s
  }

  function ReportIn(s: State, fd: nat, reported: set<Event>, err: bool, ok: bool): State
    requires SlotsMatch(s.table) && fd < |s.table.fds|
  {
    var hit := RealEvents(s.table.fds[fd], reported, err);
    if Dispatch(s.table, fd, reported, err, ok).rc.Ok? && CanFireAll(s, fd, hit) then FireSet(s, fd, hit) else s
  }

  predicate CanBegin(s: State, w: nat) {
    HoldsFiber(s, w) && !Finished(s.fibers[TaskAt(s, w).work.fiber].state)
  }

  function BeginFiber(s: State, w: nat): State
    requires CanBegin(s, w)
  {
    var f := TaskAt(s, w).work.fiber;
    MoveTo(SetFiber(SetFate(s, w, Ran(w)), f, s.fibers[f].(on := Some(w))), w, On(f, false, Starting))
  }

  function DropTask(s: State, w: nat): State
    requires HoldsTask(s, w)
  {
    MoveTo(SetFate(s, w, Dropped(w)), w, Head).(active := s.active - 1)
  }

  /** call(): the state is set, then the stacks are switched. */
  function EnterFiber(s: State, w: nat): State
    requires IsAt(s, w, Starting)
  {
    var loc := s.workers[w].loc;
    MoveTo(SetFiber(s, loc.fiber, s.fibers[loc.fiber].(state := EXEC)), w, loc.(at := Running))
  }

  function SwapFiberOut(s: State, w: nat): State
    requires CanSwapOut(s, w)
  {
    var loc, pc := s.workers[w].loc, s.fibers[FiberAt(s, w)].pc;
    MoveTo(SetPc(s, w, if pc.InIo? then InIo(pc.call, Wake(pc.stage.timer)) else Free), w, loc.(at := Returned))
  }

  function ReturnFrom(s: State, w: nat): State
    requires IsAt(s, w, Returned)
  {
    MoveTo(s, w, s.workers[w].loc.(at := Settling)).(active := s.active - 1)
  }

  function JudgeFiber(s: State, w: nat): State
    requires IsAt(s, w, Settling)
  {
    MoveTo(s, w, s.workers[w].loc.(at := Judged(s.fibers[FiberAt(s, w)].state)))
  }

  function SpawnNew(s: State, pin: Option<nat>): State {
    Push(s.(fibers := s.fibers + [Fiber(INIT, Free, Lost, None)]), FiberWork(|s.fibers|), pin)
  }

  function LeaveAs(s: State, w: nat, st: FState): State
    requires Executes(s, w)
  {
    SetFiber(s, FiberAt(s, w), s.fibers[FiberAt(s, w)].(state := st, pc := Leaving))
  }

  function StartCall(s: State, w: nat, fd: nat, ev: Event, to: Option<nat>): State
    requires Executes(s, w)
  {
    SetPc(s, w, InIo(|s.calls|, Try)).(calls := s.calls + [Call(FiberAt(s, w), fd, ev, to, s.clock, None, None)])
  }

  function SetStage(s: State, w: nat, stage: Stage): State
    requires InStage(s, w)
  {
    SetPc(s, w, InIo(s.fibers[FiberAt(s, w)].pc.call, stage))
  }

  function ArmTimer(s: State, w: nat): State
    requires InStage(s, w)
  {
    var c := s.fibers[FiberAt(s, w)].pc.call;
    if s.calls[c].to.None? then SetStage(s, w, Register(None))
    else SetStage(s, w, Register(Some(|s.timers|))).(
           timers := s.timers + [Timer(c, s.clock, s.clock + s.calls[c].to.value, Pending)])
  }

  function CheckCancelled(s: State, w: nat): State
    requires InStage(s, w)
  {
    if s.calls[s.fibers[FiberAt(s, w)].pc.call].cancelled.Some?
    then EndCall(s, w, TimedOut)
    else SetStage(s, w, Try)
  }

  /** The lambda up to the flag (src/hook.cc:154-158). */
  function TestAndFlag(s: State, w: nat): State
    requires InCallback(s, w, false)
  {
    var t := s.fibers[FiberAt(s, w)].pc.timer;
    var c := s.timers[t].call;
    if s.calls[c].result.Some? || s.calls[c].cancelled.Some? then SetPc(s, w, Ending)
    else SetPc(s, w, InTimeout(t, true)).(calls := s.calls[c := s.calls[c].(cancelled := Some(t))])
  }

  /** The lambda's cancelEvent (src/hook.cc:160). */
  function CancelForTimeout(s: State, w: nat, ok: bool): State
    requires InCallback(s, w, true) && SlotsMatch(s.table)
  {
    var call := s.calls[s.timers[s.fibers[FiberAt(s, w)].pc.timer].call];
    CancelIn(SetPc(s, w, Ending), call.fd, call.ev, ok)
  }

  function ExpireTimers(s: State, w: nat, order: seq<nat>): State
    requires IdlingAt(s, w)
  {
    MoveTo(s, w, Idling(order)).(timers := FireAll(s.timers, order))
  }

  function LoopNext(s: State, w: nat, step: LoopStep): State
    requires LoopEnabled(s, w, step)
  {
    match step
    case Pick(i) => TakeTask(s, w, i)
    case PickNone => MoveTo(s, w, if s.workers[w].idleTerm then Exited else Idling([]))
    case Begin => BeginFiber(s, w)
    case DropDone => DropTask(s, w)
    case Prepare => PrepareFiber(s, w)
    case Enter => EnterFiber(s, w)
    case SwapOut => SwapFiberOut(s, w)
    case Return => ReturnFrom(s, w)
    case Judge => JudgeFiber(s, w)
    case Settle => SettleFiber(s, w)
  }

  ghost function CodeNext(s: State, w: nat, step: CodeStep): State
    requires CodeEnabled(s, w, step) && SlotsMatch(s.table) && |s.table.fds| >= 32
  {
    match step
    case Spawn(cb, pin) => Push(s, CbWork(User(cb)), pin)
    case SpawnFiber(pin) => SpawnNew(s, pin)
    case YieldReady => LeaveAs(s, w, READY)
    case Finish(thrown) => LeaveAs(s, w, if thrown then EXCEPT else TERM)
    case SwitchTo(pin) => Push(SetPc(s, w, Holding), FiberWork(FiberAt(s, w)), pin)
    case AddCb(fd, ev, cb, ok) => s.(table := AddEvent(s.table, fd, ev, CbWork(User(cb)), ok).table)
    case Del(fd, ev, ok) => DelIn(s, fd, ev, ok)
    case Cancel(fd, ev, ok) => CancelIn(s, fd, ev, ok)
    case CancelFd(fd, ok) => CancelFdIn(s, fd, ok)
  }

  ghost function IoNext(s: State, w: nat, step: IoStep): State
    requires IoEnabled(s, w, step) && SlotsMatch(s.table) && |s.table.fds| >= 32
  {
    match step
    case IoStart(fd, ev, to) => StartCall(s, w, fd, ev, to)
    case IoReturn => EndCall(s, w, Transferred)
    case IoAgain => SetStage(s, w, Arm)
    case IoArm => ArmTimer(s, w)
    case IoRegister(ok) => RegisterIo(s, w, ok)
    case IoRefused => EndCall(CancelTimer(s, StageOf(s, w).timer), w, Refused)
    case IoWake => SetStage(CancelTimer(s, StageOf(s, w).timer), w, Check)
    case IoCheck => CheckCancelled(s, w)
    case TimeoutTest => TestAndFlag(s, w)
    case TimeoutCancel(ok) => CancelForTimeout(s, w, ok)
  }

  ghost function IdleNext(s: State, w: nat, step: IdleStep): State
    requires IdleEnabled(s, w, step) && SlotsMatch(s.table)
  {
    match step
    case Expire(now, order) => ExpireTimers(s, w, order)
    case Flush => PushTimeouts(MoveTo(s, w, Idling([])), s.workers[w].loc.cbs)
    case Report(fd, reported, err, ok) => ReportIn(s, fd, reported, err, ok)
    case IdleBack => MoveTo(s, w, Head)
    case IdleStop => s.(workers := s.workers[w := s.workers[w].(loc := Head, idleTerm := true)])
  }

  /** The state after a step; the table's basic invariant keeps every operation defined. */
  ghost function Next(s: State, step: Step): State
    requires Enabled(s, step) && SlotsMatch(s.table) && |s.table.fds| >= 32
  {
    match step
    case Tick(d) => s.(clock := s.clock + d)
    case Stop => s.(autoStop := true, stopFlag := true)
    case Submit(cb, pin) => Push(s, CbWork(User(cb)), pin)
    case SubmitFiber(pin) => SpawnNew(s, pin)
    case Schedule(f, pin) => Push(s, FiberWork(f), pin)
    case Loop(w, loop) => LoopNext(s, w, loop)
    case Code(w, code) => CodeNext(s, w, code)
    case Io(w, io) => IoNext(s, w, io)
    case Idle(w, idle) => IdleNext(s, w, idle)
  }

  // ----- the asserts in the code

  predicate Resettable(st: FState) {
    st.TERM? || st.EXCEPT? || st.INIT?
  }

  /** Every assert the code evaluates in this step holds: those on masks and slots in addEvent, cancelAll
      and the dispatch, the state tests of reset, both yields and addEvent's own fiber. */
  ghost predicate AssertsHold(s: State, step: Step)
    requires Enabled(s, step) && SlotsMatch(s.table) && |s.table.fds| >= 32
  {
    match step
    case Loop(w, Prepare) => s.workers[w].cache.Some? ==> Resettable(s.fibers[s.workers[w].cache.value].state)
    case Loop(w, SwapOut) =>
      var x := s.fibers[FiberAt(s, w)];
      x.pc.InIo? || x.pc.Holding? ==> x.state.EXEC?
    case Loop(w, Settle) =>
      s.workers[w].loc.own && Finished(s.workers[w].loc.at.seen) ==> Resettable(s.fibers[FiberAt(s, w)].state)
    case Code(w, YieldReady) => s.fibers[FiberAt(s, w)].state.EXEC?
    case Code(w, AddCb(fd, ev, cb, ok)) => !AddEvent(s.table, fd, ev, CbWork(User(cb)), ok).rc.Abort?
    case Code(w, CancelFd(fd, ok)) => !CancelAll(s.table, fd, ok).rc.Abort?
    case Io(w, IoRegister(ok)) =>
      var call := s.calls[s.fibers[FiberAt(s, w)].pc.call];
      var rc := AddEvent(s.table, call.fd, call.ev, FiberWork(FiberAt(s, w)), ok).rc;
      !rc.Abort? && (rc.Ok? ==> s.fibers[FiberAt(s, w)].state.EXEC?)
    case Idle(w, Report(fd, reported, err, ok)) => !Dispatch(s.table, fd, reported, err, ok).rc.Abort?
    case _ => true
  }
}
