/** The invariant of the protocol and the proof that every step keeps it. */
module ProtocolInv {
  import opened Base
  import opened EventTable
  import opened EventTableInv
  import opened Protocol

  // ----- the invariant

  predicate Away(home: Home) {
    home.Queued? || home.Slotted? || home.Lost?
  }

  predicate Resumable(st: FState) {
    st.INIT? || st.HOLD? || st.READY?
  }

  predicate Parked(pc: Pc) {
    pc.Free? || (pc.InIo? && pc.stage.Wake?)
  }

  /** The fiber a worker sits in, position by position. */
  predicate OnOk(x: Fiber, w: nat, own: bool, at: At) {
    match at
    case Starting =>
      x.home == Held(w) && Resumable(x.state) && (own ==> x.state.INIT?)
      && (Parked(x.pc) || (x.pc.InTimeout? && !x.pc.flagged))
    case Running =>
      var leaving := x.pc.Leaving? || x.pc.Holding? || (x.pc.InIo? && x.pc.stage.Park?);
      || (x.state.EXEC? && x.home == Held(w) && !leaving)
      || (x.state.EXEC? && Away(x.home) && leaving)
      || ((x.state.READY? || Finished(x.state)) && x.home == Held(w) && x.pc.Leaving?)
    case _ =>
      && Parked(x.pc)
      && ((x.state.EXEC? && Away(x.home)) || ((x.state.READY? || Finished(x.state)) && x.home == Held(w) && x.pc.Free?))
      && (at.Judged? ==> at.seen == x.state)
  }

  predicate WorkerOk(s: State, w: nat)
    requires w < |s.workers|
  {
    var wk := s.workers[w];
    && (wk.loc.Picked? ==>
          && wk.loc.tid < |s.tasks| && s.tasks[wk.loc.tid].fate == Taken(w)
          && var work := s.tasks[wk.loc.tid].work;
             work.FiberWork? ==>
               && work.fiber < |s.fibers|
               && s.fibers[work.fiber].home == Held(w) && s.fibers[work.fiber].on.None?)
    && (wk.loc.On? ==>
          && wk.loc.fiber < |s.fibers| && s.fibers[wk.loc.fiber].on == Some(w)
          && (wk.loc.own ==> wk.cache == Some(wk.loc.fiber))
          && OnOk(s.fibers[wk.loc.fiber], w, wk.loc.own, wk.loc.at))
    && (wk.loc.Idling? ==>
          forall i :: 0 <= i < |wk.loc.cbs| ==> wk.loc.cbs[i] < |s.timers| && s.timers[wk.loc.cbs[i]].status.Fired?)
    && (wk.cache.Some? ==>
          && wk.cache.value < |s.fibers|
          && ((wk.loc.On? && wk.loc.own) || s.fibers[wk.cache.value].home == Cached(w)))
  }

  predicate HomeOk(s: State, f: nat)
    requires f < |s.fibers|
  {
    var x := s.fibers[f];
    match x.home
    case Queued(tid) => tid < |s.tasks| && s.tasks[tid].fate.Waiting? && s.tasks[tid].work == FiberWork(f)
    case Slotted(fd, ev) =>
      && SlotAt(s.table, fd, ev).Armed? && SlotAt(s.table, fd, ev).work == FiberWork(f)
      && x.pc.InIo? && (x.pc.stage.Park? || x.pc.stage.Wake?)
      && x.pc.call < |s.calls| && s.calls[x.pc.call].fd == fd && s.calls[x.pc.call].ev == ev
    case Held(w) =>
      && w < |s.workers|
      && var loc := s.workers[w].loc;
         || (loc.On? && loc.fiber == f)
         || (loc.Picked? && loc.tid < |s.tasks| && s.tasks[loc.tid].work == FiberWork(f))
    case Cached(w) =>
      w < |s.workers| && s.workers[w].cache == Some(f) && x.state.INIT? && x.pc.Free? && x.on.None?
    case Done => Finished(x.state) && x.on.None?
    case Lost => true
  }

  predicate StackOk(s: State, f: nat)
    requires f < |s.fibers|
  {
    var x := s.fibers[f];
    if x.on.Some? then
      && x.on.value < |s.workers| && s.workers[x.on.value].loc.On? && s.workers[x.on.value].loc.fiber == f
    else
      Parked(x.pc) && (Resumable(x.state) || x.home.Done?)
  }

  predicate StageTimerOk(s: State, c: nat, timer: Option<nat>) {
    timer.Some? ==> timer.value < |s.timers| && s.timers[timer.value].call == c
  }

  predicate PcOk(s: State, f: nat)
    requires f < |s.fibers|
  {
    var pc := s.fibers[f].pc;
    && (pc.InIo? ==>
          && pc.call < |s.calls| && s.calls[pc.call].result.None? && s.calls[pc.call].fiber == f
          && (pc.stage.Register? || pc.stage.AddFailed? || pc.stage.Park? || pc.stage.Wake? ==>
                StageTimerOk(s, pc.call, pc.stage.timer)))
    && (pc.InTimeout? ==>
          && pc.timer < |s.timers| && s.timers[pc.timer].status.Fired?
          && s.timers[pc.timer].call < |s.calls|
          && (pc.flagged ==> s.calls[s.timers[pc.timer].call].cancelled == Some(pc.timer)))
  }

  predicate PinOk(task: Task) {
    match task.fate
    case Waiting => true
    case Taken(w) => task.pin.Some? ==> task.pin.value == w
    case Ran(w) => task.pin.Some? ==> task.pin.value == w
    case Dropped(w) => task.pin.Some? ==> task.pin.value == w
  }

  predicate TaskOk(s: State, tid: nat)
    requires tid < |s.tasks|
  {
    var task := s.tasks[tid];
    && PinOk(task)
    && (task.work.FiberWork? ==> task.work.fiber < |s.fibers|)
    && (task.work.CbWork? && task.work.cb.Timeout? ==>
          task.work.cb.timer < |s.timers| && s.timers[task.work.cb.timer].status.Fired?)
    && (task.fate.Waiting? ==>
          tid in s.queue && (task.work.FiberWork? ==> s.fibers[task.work.fiber].home == Queued(tid)))
    && (task.fate.Taken? ==> task.fate.w < |s.workers| && s.workers[task.fate.w].loc == Picked(tid))
  }

  predicate QueueOk(s: State) {
    && (forall i :: 0 <= i < |s.queue| ==> s.queue[i] < |s.tasks| && s.tasks[s.queue[i]].fate.Waiting?)
    && (forall i, j :: 0 <= i < j < |s.queue| ==> s.queue[i] != s.queue[j])
  }

  ghost predicate SlotWorkOk(s: State) {
    forall fd: nat, ev :: SlotAt(s.table, fd, ev).Armed? ==>
      match SlotAt(s.table, fd, ev).work
      case FiberWork(f) => f < |s.fibers| && s.fibers[f].home == Slotted(fd, ev)
      case CbWork(cb) => cb.User?
  }

  predicate CallOk(s: State, c: nat)
    requires c < |s.calls|
  {
    var call := s.calls[c];
    && call.start <= s.clock && call.fiber < |s.fibers|
    && (call.result.None? ==> s.fibers[call.fiber].pc.InIo? && s.fibers[call.fiber].pc.call == c)
    && (call.result == Some(TimedOut) ==> call.cancelled.Some?)
    && (call.cancelled.Some? ==>
          var t := call.cancelled.value;
          t < |s.timers| && s.timers[t].call == c && s.timers[t].status.Fired?)
  }

  predicate TimerOk(s: State, t: nat)
    requires t < |s.timers|
  {
    var timer := s.timers[t];
    && timer.call < |s.calls| && s.calls[timer.call].to.Some?
    && timer.deadline == timer.at + s.calls[timer.call].to.value
    && s.calls[timer.call].start <= timer.at <= s.clock
    && (timer.status.Fired? ==> timer.deadline <= s.clock)
  }

  predicate Busy(loc: Loc) {
    loc.Picked? || (loc.On? && (loc.at.Starting? || loc.at.Running? || loc.at.Returned?))
  }

  /** The workers between a pick and the decrement that follows the call. */
  function BusySet(workers: seq<Worker>): set<nat> {
    set w: nat | w < |workers| && Busy(workers[w].loc)
  }

  ghost predicate Workers(s: State) {
    forall w: nat {:trigger s.workers[w]} :: w < |s.workers| ==> WorkerOk(s, w)
  }

  ghost predicate Homes(s: State) {
    forall f: nat {:trigger s.fibers[f]} :: f < |s.fibers| ==> HomeOk(s, f)
  }

  ghost predicate Stacks(s: State) {
    forall f: nat {:trigger s.fibers[f]} :: f < |s.fibers| ==> StackOk(s, f)
  }

  ghost predicate Pcs(s: State) {
    forall f: nat {:trigger s.fibers[f]} :: f < |s.fibers| ==> PcOk(s, f)
  }

  ghost predicate Tasks(s: State) {
    forall tid: nat {:trigger s.tasks[tid]} :: tid < |s.tasks| ==> TaskOk(s, tid)
  }

  ghost predicate Calls(s: State) {
    forall c: nat {:trigger s.calls[c]} :: c < |s.calls| ==> CallOk(s, c)
  }

  ghost predicate Timers(s: State) {
    forall t: nat {:trigger s.timers[t]} :: t < |s.timers| ==> TimerOk(s, t)
  }


  /** Everything but the fd table's own invariant. */
  ghost predicate Sched(s: State) {
    && Workers(s) && Homes(s) && Stacks(s) && Pcs(s) && Tasks(s) && QueueOk(s)
    && SlotWorkOk(s) && Calls(s) && Timers(s) && s.active == |BusySet(s.workers)|
  }

  ghost predicate Inv(s: State) {
    Sched(s) && TableInv(s.table)
  }

  // ----- who may resume a fiber

  datatype Place = InQueue(tid: nat) | InSlot(fd: nat, ev: Event) | InHand(w: nat)

  /** Place p holds a reference that will resume fiber f. */
  ghost predicate Resumes(s: State, p: Place, f: nat) {
    match p
    case InQueue(tid) => tid in s.queue && tid < |s.tasks| && s.tasks[tid].work == FiberWork(f)
    case InSlot(fd, ev) => SlotAt(s.table, fd, ev).Armed? && SlotAt(s.table, fd, ev).work == FiberWork(f)
    case InHand(w) => HoldsTask(s, w) && TaskAt(s, w).work == FiberWork(f)
  }

  ghost predicate OnStack(s: State, f: nat) {
    exists w: nat :: w < |s.workers| && s.workers[w].loc.On? && s.workers[w].loc.fiber == f
  }

  ghost predicate IsCached(s: State, f: nat) {
    exists w: nat :: w < |s.workers| && s.workers[w].cache == Some(f)
  }

  /** Nothing will resume f, no worker is inside it, and it has not finished. */
  ghost predicate Orphaned(s: State, f: nat)
    requires f < |s.fibers|
  {
    && !Finished(s.fibers[f].state) && !OnStack(s, f) && !IsCached(s, f)
    && forall p :: !Resumes(s, p, f)
  }

  /** schedule(fiber) is only called for a fiber that nothing else will resume. */
  ghost predicate Polite(s: State, step: Step)
    requires Enabled(s, step)
  {
    step.Schedule? ==> Orphaned(s, step.fiber)
  }

  lemma WhereFibersAre(s: State, f: nat)
    requires Inv(s) && f < |s.fibers| && !Finished(s.fibers[f].state) && !OnStack(s, f)
    ensures (exists p :: Resumes(s, p, f)) || IsCached(s, f) || s.fibers[f].home.Lost?
    ensures s.fibers[f].pc.InIo? ==> s.fibers[f].pc.stage.Wake?
  {
    assert HomeOk(s, f) && StackOk(s, f);
    match s.fibers[f].home {
      case Queued(tid) => assert TaskOk(s, tid); assert Resumes(s, InQueue(tid), f);
      case Slotted(fd, ev) => assert Resumes(s, InSlot(fd, ev), f);
      case Held(w) => assert Resumes(s, InHand(w), f);
      case Cached(w) =>
      case Done =>
      case Lost =>
    }
  }

  // ----- the count of busy workers

  lemma BusyChange(ws: seq<Worker>, w: nat, x: Worker)
    requires w < |ws|
    ensures |BusySet(ws[w := x])| ==
            |BusySet(ws)| + (if Busy(x.loc) then 1 else 0) - (if Busy(ws[w].loc) then 1 else 0)
  {
    var a, b := BusySet(ws), BusySet(ws[w := x]);
    if Busy(x.loc) && !Busy(ws[w].loc) {
      assert b == a + {w};
    } else if !Busy(x.loc) && Busy(ws[w].loc) {
      assert b == a - {w};
    } else {
      assert b == a;
    }
  }

  // ----- frames

  /** Calls and timers only move forward: `f` is the one fiber whose call may have ended. */
  ghost predicate Grew(s: State, s': State, f: nat) {
    && s.clock <= s'.clock && |s.calls| <= |s'.calls| && |s.timers| <= |s'.timers|
    && (forall t {:trigger s'.timers[t]} :: 0 <= t < |s.timers| ==>
          && s'.timers[t].call == s.timers[t].call
          && (s.timers[t].status.Fired? ==> s'.timers[t].status.Fired?))
    && (forall c {:trigger s'.calls[c]} :: 0 <= c < |s.calls| ==>
          var a, b := s.calls[c], s'.calls[c];
          && b.fiber == a.fiber && b.fd == a.fd && b.ev == a.ev && b.to == a.to
          && (a.cancelled.Some? ==> b.cancelled == a.cancelled)
          && (a.result.None? && a.fiber != f ==> b.result.None?))
  }

  /** A step that changes only the fiber f that worker w sits in, w's position inside f,
      calls or timers, and slots that were empty. */
  lemma OwnStep(s: State, s': State, w: nat, f: nat)
    requires Sched(s) && w < |s.workers| && s.workers[w].loc.On? && s.workers[w].loc.fiber == f
    requires s'.queue == s.queue && s'.tasks == s.tasks
    requires |s'.workers| == |s.workers| && s'.workers[w].cache == s.workers[w].cache
    requires s'.workers[w].loc.On? && s'.workers[w].loc.fiber == f && s'.workers[w].loc.own == s.workers[w].loc.own
    requires forall w' :: 0 <= w' < |s.workers| && w' != w ==> s'.workers[w'] == s.workers[w']
    requires |s'.fibers| == |s.fibers|
    requires forall f' :: 0 <= f' < |s.fibers| && f' != f ==> s'.fibers[f'] == s.fibers[f']
    requires f < |s.fibers| && s'.fibers[f].on == s.fibers[f].on
    requires s'.fibers[f].home == s.fibers[f].home || s.fibers[f].home == Held(w)
    requires Grew(s, s', f) && Calls(s') && Timers(s') && s'.active == |BusySet(s'.workers)|
    requires forall fd: nat, ev :: SlotAt(s.table, fd, ev).Armed? ==>
      SlotAt(s'.table, fd, ev) == SlotAt(s.table, fd, ev)
    requires SlotWorkOk(s')
    requires OnOk(s'.fibers[f], w, s'.workers[w].loc.own, s'.workers[w].loc.at)
    requires PcOk(s', f) && HomeOk(s', f)
    ensures Sched(s')
  {
    assert WorkerOk(s, w);
    assert Workers(s') by {
      forall w': nat | w' < |s'.workers| ensures WorkerOk(s', w') {
        assert WorkerOk(s, w');
      }
    }
    assert Homes(s') by {
      forall f': nat | f' < |s'.fibers| ensures HomeOk(s', f') {
        assert HomeOk(s, f') && PcOk(s, f');
      }
    }
    forall f': nat | f' < |s'.fibers| ensures StackOk(s', f') {
      assert StackOk(s, f');
    }
    assert Pcs(s') by {
      forall f': nat | f' < |s'.fibers| ensures PcOk(s', f') {
        assert PcOk(s, f');
      }
    }
    forall tid: nat | tid < |s'.tasks| ensures TaskOk(s', tid) {
      assert TaskOk(s, tid);
    }
  }

  /** Queueing a callback changes nobody else. */
  lemma PushCbKeeps(s: State, cb: Callback, pin: Option<nat>)
    requires Sched(s)
    requires cb.Timeout? ==> cb.timer < |s.timers| && s.timers[cb.timer].status.Fired?
    ensures Sched(Push(s, CbWork(cb), pin))
  {
    var s' := Push(s, CbWork(cb), pin);
    PushFrame(s, s', |s.fibers|);
  }

  /** Queueing a fiber that nothing else is going to resume. */
  lemma PushFiberKeeps(s: State, f: nat, pin: Option<nat>)
    requires Sched(s) && f < |s.fibers| && s.fibers[f].home.Lost?
    ensures Sched(Push(s, FiberWork(f), pin))
  {
    var s' := Push(s, FiberWork(f), pin);
    assert HomeOk(s, f);
    PushFrame(s, s', f);
  }

  lemma PushFrame(s: State, s': State, f: nat)
    requires Sched(s) && s'.queue == s.queue + [|s.tasks|] && |s'.tasks| == |s.tasks| + 1
    requires s'.(queue := s.queue, tasks := s.tasks, fibers := s.fibers) == s
    requires forall t :: 0 <= t < |s.tasks| ==> s'.tasks[t] == s.tasks[t]
    requires s'.tasks[|s.tasks|].fate.Waiting? && TaskOk(s', |s.tasks|)
    requires |s'.fibers| == |s.fibers|
    requires forall f' :: 0 <= f' < |s.fibers| && f' != f ==> s'.fibers[f'] == s.fibers[f']
    requires f < |s.fibers| ==>
      && s.fibers[f].home.Lost? && s'.fibers[f] == s.fibers[f].(home := Queued(|s.tasks|))
      && s'.tasks[|s.tasks|].work == FiberWork(f)
    ensures Sched(s')
  {
    assert s'.queue[|s.queue|] == |s.tasks|;
    assert forall t :: t in s.queue ==> t in s'.queue;
    forall w: nat | w < |s'.workers| ensures WorkerOk(s', w) {
      assert WorkerOk(s, w);
    }
    forall f': nat | f' < |s'.fibers| ensures HomeOk(s', f') {
      assert HomeOk(s, f');
    }
    forall f': nat | f' < |s'.fibers| ensures StackOk(s', f') {
      assert StackOk(s, f');
    }
    forall f': nat | f' < |s'.fibers| ensures PcOk(s', f') {
      assert PcOk(s, f');
    }
    forall tid: nat | tid < |s'.tasks| ensures TaskOk(s', tid) {
      assert tid < |s.tasks| ==> TaskOk(s, tid);
    }
    forall c: nat | c < |s'.calls| ensures CallOk(s', c) {
      assert CallOk(s, c);
    }
    forall t: nat | t < |s'.timers| ensures TimerOk(s', t) {
      assert TimerOk(s, t);
    }
  }

  /** Taking the content of one slot out of the table, whoever then owns it. */
  function Release(s: State, t': Table, fd: nat, ev: Event): State {
    var s1 := s.(table := t');
    var slot := SlotAt(s.table, fd, ev);
    if slot.Armed? && slot.work.FiberWork? && slot.work.fiber < |s.fibers|
    then SetFiber(s1, slot.work.fiber, s.fibers[slot.work.fiber].(home := Lost))
    else s1
  }

  lemma ReleaseSlots(s: State, t': Table, fd: nat, ev: Event)
    requires SlotWorkOk(s) && SlotAt(s.table, fd, ev).Armed?
    requires forall fd': nat, ev' ::
               SlotAt(t', fd', ev') == if fd' == fd && ev' == ev then Empty else SlotAt(s.table, fd', ev')
    ensures SlotWorkOk(Release(s, t', fd, ev))
  {
    forall fd': nat, ev' | SlotAt(t', fd', ev').Armed? && SlotAt(t', fd', ev').work.FiberWork?
      ensures var f := SlotAt(t', fd', ev').work.fiber;
        f < |s.fibers| && Release(s, t', fd, ev).fibers[f].home == Slotted(fd', ev')
    {
      assert SlotAt(s.table, fd', ev') == SlotAt(t', fd', ev');
      assert s.fibers[SlotAt(s.table, fd', ev').work.fiber].home == Slotted(fd', ev');
    }
  }

  lemma ReleaseHomes(s: State, t': Table, fd: nat, ev: Event)
    requires Homes(s) && SlotWorkOk(s) && SlotAt(s.table, fd, ev).Armed?
    requires forall fd': nat, ev' ::
               SlotAt(t', fd', ev') == if fd' == fd && ev' == ev then Empty else SlotAt(s.table, fd', ev')
    ensures Homes(Release(s, t', fd, ev))
  {
    var s' := Release(s, t', fd, ev);
    forall f: nat | f < |s'.fibers| ensures HomeOk(s', f) {
      assert HomeOk(s, f);
    }
  }

  lemma ReleaseKeeps(s: State, t': Table, fd: nat, ev: Event)
    requires Sched(s) && SlotAt(s.table, fd, ev).Armed?
    requires forall fd': nat, ev' ::
               SlotAt(t', fd', ev') == if fd' == fd && ev' == ev then Empty else SlotAt(s.table, fd', ev')
    ensures Sched(Release(s, t', fd, ev))
  {
    var s' := Release(s, t', fd, ev);
    ReleaseSlots(s, t', fd, ev);
    ReleaseHomes(s, t', fd, ev);
    var slot := SlotAt(s.table, fd, ev);
    var f := if slot.work.FiberWork? then slot.work.fiber else |s.fibers|;
    LostFrame(s, s', f);
  }

  /** Nothing but the table and the home of one slotted fiber changes. */
  lemma LostFrame(s: State, s': State, f: nat)
    requires Sched(s) && s'.(table := s.table, fibers := s.fibers) == s && |s'.fibers| == |s.fibers|
    requires forall f' :: 0 <= f' < |s.fibers| && f' != f ==> s'.fibers[f'] == s.fibers[f']
    requires f < |s.fibers| ==> s.fibers[f].home.Slotted? && s'.fibers[f] == s.fibers[f].(home := Lost)
    requires SlotWorkOk(s') && Homes(s')
    ensures Sched(s')
  {
    forall w: nat | w < |s'.workers| ensures WorkerOk(s', w) {
      assert WorkerOk(s, w);
    }
    forall f': nat | f' < |s'.fibers| ensures StackOk(s', f') && PcOk(s', f') {
      assert StackOk(s, f') && PcOk(s, f');
    }
    forall tid: nat | tid < |s'.tasks| ensures TaskOk(s', tid) {
      assert TaskOk(s, tid);
    }
    forall c: nat | c < |s'.calls| ensures CallOk(s', c) {
      assert CallOk(s, c);
    }
    forall t: nat | t < |s'.timers| ensures TimerOk(s', t) {
      assert TimerOk(s, t);
    }
  }

  /** Filling an empty slot with a user callback, or changing no slot at all. */
  lemma TableKeeps(s: State, t': Table)
    requires Sched(s)
    requires forall fd: nat, ev ::
               SlotAt(t', fd, ev) == SlotAt(s.table, fd, ev)
               || (!SlotAt(s.table, fd, ev).Armed? && SlotAt(t', fd, ev).Armed?
                   && SlotAt(t', fd, ev).work.CbWork? && SlotAt(t', fd, ev).work.cb.User?)
    ensures Sched(s.(table := t'))
  {
    var s' := s.(table := t');
    forall w: nat | w < |s'.workers| ensures WorkerOk(s', w) {
      assert WorkerOk(s, w);
    }
    forall f: nat | f < |s'.fibers| ensures HomeOk(s', f) {
      assert HomeOk(s, f);
    }
    forall f: nat | f < |s'.fibers| ensures StackOk(s', f) && PcOk(s', f) {
      assert StackOk(s, f) && PcOk(s, f);
    }
    forall tid: nat | tid < |s'.tasks| ensures TaskOk(s', tid) {
      assert TaskOk(s, tid);
    }
    forall c: nat | c < |s'.calls| ensures CallOk(s', c) {
      assert CallOk(s, c);
    }
    forall t: nat | t < |s'.timers| ensures TimerOk(s', t) {
      assert TimerOk(s, t);
    }
  }

  // ----- firing slots

  lemma FireKeeps(s: State, fd: nat, ev: Event)
    requires Sched(s) && SlotsMatch(s.table) && CanFire(s, fd, ev)
    ensures Sched(Fire(s, fd, ev)) && SlotsMatch(Fire(s, fd, ev).table)
    ensures forall fd', ev' ::
              SlotAt(Fire(s, fd, ev).table, fd', ev') ==
              if fd' == fd && ev' == ev then Empty else SlotAt(s.table, fd', ev')
  {
    var t' := Trigger(s.table, fd, ev);
    RemovedSlots(s.table, t', fd, ev);
    ReleaseKeeps(s, t', fd, ev);
    var s1, work := Release(s, t', fd, ev), SlotAt(s.table, fd, ev).work;
    match work {
      case FiberWork(f) =>
        PushFiberKeeps(s1, f, None);
        assert Push(s1, work, None).fibers == Fire(s, fd, ev).fibers;
      case CbWork(cb) =>
        PushCbKeeps(s1, cb, None);
    }
    assert Push(s1, work, None) == Fire(s, fd, ev);
  }

  /** The slots of live events can all be fired. */
  lemma LiveCanFire(s: State, fd: nat, evs: set<Event>)
    requires Sched(s) && SlotsMatch(s.table) && fd < |s.table.fds| && evs <= s.table.fds[fd].mask
    ensures CanFireAll(s, fd, evs) && CanTriggerAll(s.table, fd, evs)
  {
    forall ev | ev in evs ensures CanFire(s, fd, ev) {
      assert SlotAt(s.table, fd, ev).Armed?;
    }
  }

  lemma FireSetKeeps(s: State, fd: nat, evs: set<Event>)
    requires Inv(s) && fd < |s.table.fds| && evs <= s.table.fds[fd].mask
    ensures CanFireAll(s, fd, evs) && CanTriggerAll(s.table, fd, evs)
    ensures FireSet(s, fd, evs).table == Consume(s.table, fd, evs)
    ensures Inv(FireSet(s, fd, evs))
  {
    LiveCanFire(s, fd, evs);
    var ctx := s.table.fds[fd];
    var s0 := s.(table := Ctl(s.table, RemoveOp(ctx, evs), fd, ctx.mask - evs));
    TableKeeps(s, s0.table);
    var s1 := FireIf(s0, fd, READ, READ in evs);
    assert Sched(s1) && SlotsMatch(s1.table) by {
      if READ in evs {
        FireKeeps(s0, fd, READ);
      }
    }
    assert Sched(FireSet(s, fd, evs)) by {
      if WRITE in evs {
        FireKeeps(s1, fd, WRITE);
      }
    }
    ConsumeKeepsInv(s.table, fd, evs);
  }

  // ----- steps of the worker loop

  lemma Unqueue(q: seq<nat>, i: nat)
    requires i < |q| && forall j, k :: 0 <= j < k < |q| ==> q[j] != q[k]
    ensures var q' := q[..i] + q[i + 1..];
      && (forall j, k :: 0 <= j < k < |q'| ==> q'[j] != q'[k])
      && (forall t :: t in q' <==> t in q && t != q[i])
  {
    var q' := q[..i] + q[i + 1..];
    forall t | t in q && t != q[i] ensures t in q' {
      var k :| 0 <= k < |q| && q[k] == t;
      assert q'[if k < i then k else k - 1] == t;
    }
  }

  lemma TakeTaskKeeps(s: State, w: nat, i: nat)
    requires Sched(s) && CanPick(s, w, i)
    ensures Sched(TakeTask(s, w, i))
  {
    var s', tid := TakeTask(s, w, i), s.queue[i];
    Unqueue(s.queue, i);
    BusyChange(s.workers, w, s'.workers[w]);
    assert TaskOk(s, tid);
    var f := if s.tasks[tid].work.FiberWork? then s.tasks[tid].work.fiber else |s.fibers|;
    if f < |s.fibers| {
      assert HomeOk(s, f) && StackOk(s, f);
      var on := s.fibers[f].on;
      assert on.Some? ==> OnOk(s.fibers[f], on.value, s.workers[on.value].loc.own, s.workers[on.value].loc.at);
    }
    TakeFrame(s, s', w, tid, f);
  }

  /** Worker w, which held nothing, now holds the queued task tid, whose fiber is f if any. */
  lemma TakeFrame(s: State, s': State, w: nat, tid: nat, f: nat)
    requires Sched(s) && w < |s.workers| && s.workers[w].loc.Head?
    requires s'.(workers := s.workers, tasks := s.tasks, fibers := s.fibers, queue := s.queue, active := s.active) == s
    requires s'.workers == s.workers[w := s.workers[w].(loc := Picked(tid))]
    requires tid < |s.tasks| && s.tasks[tid].fate.Waiting? && TaskOk(s, tid)
    requires s.tasks[tid].pin.Some? ==> s.tasks[tid].pin.value == w
    requires s'.tasks == s.tasks[tid := s.tasks[tid].(fate := Taken(w))]
    requires forall t :: t in s'.queue <==> t in s.queue && t != tid
    requires forall i, j :: 0 <= i < j < |s'.queue| ==> s'.queue[i] != s'.queue[j]
    requires s'.active == |BusySet(s'.workers)|
    requires f == if s.tasks[tid].work.FiberWork? then s.tasks[tid].work.fiber else |s.fibers|
    requires f < |s.fibers| ==>
      && s.fibers[f].home == Queued(tid) && s.fibers[f].on.None?
      && s'.fibers == s.fibers[f := s.fibers[f].(home := Held(w))]
    requires f >= |s.fibers| ==> s'.fibers == s.fibers
    ensures Sched(s')
  {
    assert QueueOk(s') by {
      forall i | 0 <= i < |s'.queue| ensures s'.queue[i] < |s'.tasks| && s'.tasks[s'.queue[i]].fate.Waiting? {
        assert s'.queue[i] in s'.queue;
      }
    }
    assert Workers(s') by {
      forall w': nat | w' < |s'.workers| ensures WorkerOk(s', w') {
        assert WorkerOk(s, w');
      }
    }
    assert Homes(s') by {
      forall f': nat | f' < |s'.fibers| ensures HomeOk(s', f') {
        assert HomeOk(s, f');
      }
    }
    assert Stacks(s') by {
      forall f': nat | f' < |s'.fibers| ensures StackOk(s', f') {
        assert StackOk(s, f');
      }
    }
    assert Pcs(s') by {
      forall f': nat | f' < |s'.fibers| ensures PcOk(s', f') {
        assert PcOk(s, f');
      }
    }
    assert Tasks(s') by {
      forall t: nat | t < |s'.tasks| ensures TaskOk(s', t) {
        assert TaskOk(s, t);
      }
    }
    assert Calls(s') by {
      forall c: nat | c < |s'.calls| ensures CallOk(s', c) {
        assert CallOk(s, c);
      }
    }
    assert Timers(s') by {
      forall t: nat | t < |s'.timers| ensures TimerOk(s', t) {
        assert TimerOk(s, t);
      }
    }
  }

  /** A worker that holds nothing moves between the loop head, idling and the exit. */
  lemma IdleMoveKeeps(s: State, w: nat, x: Worker)
    requires Sched(s) && w < |s.workers| && !s.workers[w].loc.Picked? && !s.workers[w].loc.On?
    requires x.cache == s.workers[w].cache && (x.loc.Head? || x.loc == Idling([]) || x.loc.Exited?)
    ensures Sched(s.(workers := s.workers[w := x]))
  {
    var s' := s.(workers := s.workers[w := x]);
    BusyChange(s.workers, w, x);
    forall w': nat | w' < |s'.workers| ensures WorkerOk(s', w') {
      assert WorkerOk(s, w');
    }
    forall f: nat | f < |s'.fibers| ensures HomeOk(s', f) && StackOk(s', f) && PcOk(s', f) {
      assert HomeOk(s, f) && StackOk(s, f) && PcOk(s, f);
    }
    forall tid: nat | tid < |s'.tasks| ensures TaskOk(s', tid) {
      assert TaskOk(s, tid);
    }
    forall c: nat | c < |s'.calls| ensures CallOk(s', c) {
      assert CallOk(s, c);
    }
    forall t: nat | t < |s'.timers| ensures TimerOk(s', t) {
      assert TimerOk(s, t);
    }
  }

  lemma BeginKeeps(s: State, w: nat)
    requires Sched(s) && CanBegin(s, w)
    ensures Sched(BeginFiber(s, w))
  {
    var s' := BeginFiber(s, w);
    var f := TaskAt(s, w).work.fiber;
    assert WorkerOk(s, w) && HomeOk(s, f) && StackOk(s, f);
    StartFrame(s, s', w, f);
  }

  /** Worker w turns the task it holds into the fiber f it is about to enter. */
  lemma StartFrame(s: State, s': State, w: nat, f: nat)
    requires Sched(s) && HoldsTask(s, w) && s'.(workers := s.workers, tasks := s.tasks, fibers := s.fibers) == s
    requires s'.tasks == s.tasks[s.workers[w].loc.tid := TaskAt(s, w).(fate := Ran(w))]
    requires |s'.workers| == |s.workers| && |s.fibers| <= |s'.fibers|
    requires forall w' :: 0 <= w' < |s.workers| && w' != w ==> s'.workers[w'] == s.workers[w']
    requires forall f' {:trigger s'.fibers[f']} :: 0 <= f' < |s'.fibers| && f' != f ==>
               f' < |s.fibers| && s'.fibers[f'] == s.fibers[f']
    requires f < |s'.fibers| && s'.fibers[f].home == Held(w) && s'.fibers[f].on == Some(w)
    requires f < |s.fibers| ==> s.fibers[f].on.None? && (s.fibers[f].home == Held(w) || s.fibers[f].home == Cached(w))
    requires f < |s.fibers| && s.fibers[f].pc.InIo? ==> s'.fibers[f].pc == s.fibers[f].pc
    requires PcOk(s', f)
    requires TaskAt(s, w).work.FiberWork? ==> TaskAt(s, w).work.fiber == f
    requires var x := s'.workers[w];
      && x.loc.On? && x.loc.fiber == f && x.loc.at.Starting? && OnOk(s'.fibers[f], w, x.loc.own, Starting)
      && (if x.loc.own then x.cache == Some(f) else x.cache == s.workers[w].cache && s.workers[w].cache != Some(f))
      && (x.loc.own ==> s.workers[w].cache.None? || s.workers[w].cache == Some(f))
    ensures Sched(s')
  {
    BusyChange(s.workers, w, s'.workers[w]);
    assert s'.workers == s.workers[w := s'.workers[w]];
    assert WorkerOk(s, w) && TaskOk(s, s.workers[w].loc.tid);
    forall w': nat | w' < |s'.workers| ensures WorkerOk(s', w') {
      assert WorkerOk(s, w');
    }
    forall f': nat | f' < |s'.fibers| ensures HomeOk(s', f') {
      var x := s'.fibers[f'];
      assert f' != f ==> HomeOk(s, f');
    }
    forall f': nat | f' < |s'.fibers| ensures StackOk(s', f') && PcOk(s', f') {
      var x := s'.fibers[f'];
      assert f' != f ==> StackOk(s, f') && PcOk(s, f');
    }
    forall tid: nat | tid < |s'.tasks| ensures TaskOk(s', tid) {
      assert TaskOk(s, tid);
    }
    forall c: nat | c < |s'.calls| ensures CallOk(s', c) {
      assert CallOk(s, c);
    }
    forall t: nat | t < |s'.timers| ensures TimerOk(s', t) {
      assert TimerOk(s, t);
    }
  }

  lemma PrepareKeeps(s: State, w: nat)
    requires Sched(s) && CanPrepare(s, w)
    ensures Sched(PrepareFiber(s, w))
  {
    var s' := PrepareFiber(s, w);
    var f := if s.workers[w].cache.Some? then s.workers[w].cache.value else |s.fibers|;
    assert WorkerOk(s, w) && TaskOk(s, s.workers[w].loc.tid);
    if f < |s.fibers| {
      assert HomeOk(s, f) && StackOk(s, f);
    }
    if s'.fibers[f].pc.InTimeout? {
      assert TimerOk(s, s'.fibers[f].pc.timer);
    }
    StartFrame(s, s', w, f);
  }

  /** No task is ever dropped as finished: nothing resumes a finished fiber. */
  lemma NeverDropped(s: State, w: nat)
    requires Sched(s)
    ensures !LoopEnabled(s, w, DropDone)
  {
    if HoldsFiber(s, w) {
      assert WorkerOk(s, w) && StackOk(s, TaskAt(s, w).work.fiber);
    }
  }

  lemma EnterKeeps(s: State, w: nat)
    requires Sched(s) && IsAt(s, w, Starting)
    ensures Sched(EnterFiber(s, w))
  {
    var s', f := EnterFiber(s, w), FiberAt(s, w);
    assert WorkerOk(s, w) && HomeOk(s, f) && PcOk(s, f);
    CallsSame(s, s');
    BusyChange(s.workers, w, s'.workers[w]);
    OwnStep(s, s', w, f);
  }

  lemma SwapOutKeeps(s: State, w: nat)
    requires Sched(s) && CanSwapOut(s, w)
    ensures Sched(SwapFiberOut(s, w))
  {
    var s', f := SwapFiberOut(s, w), FiberAt(s, w);
    assert WorkerOk(s, w) && HomeOk(s, f) && PcOk(s, f);
    CallsSame(s, s');
    BusyChange(s.workers, w, s'.workers[w]);
    OwnStep(s, s', w, f);
  }

  lemma ReturnKeeps(s: State, w: nat)
    requires Sched(s) && IsAt(s, w, Returned)
    ensures Sched(ReturnFrom(s, w))
  {
    var s', f := ReturnFrom(s, w), FiberAt(s, w);
    assert WorkerOk(s, w) && HomeOk(s, f) && PcOk(s, f);
    CallsSame(s, s');
    BusyChange(s.workers, w, s'.workers[w]);
    OwnStep(s, s', w, f);
  }

  lemma JudgeKeeps(s: State, w: nat)
    requires Sched(s) && IsAt(s, w, Settling)
    ensures Sched(JudgeFiber(s, w))
  {
    var s', f := JudgeFiber(s, w), FiberAt(s, w);
    assert WorkerOk(s, w) && HomeOk(s, f) && PcOk(s, f);
    CallsSame(s, s');
    BusyChange(s.workers, w, s'.workers[w]);
    OwnStep(s, s', w, f);
  }

  /** Calls stay as they were when no pc moves from one call to another. */
  lemma CallsSame(s: State, s': State)
    requires Calls(s) && Timers(s) && s'.calls == s.calls && s'.timers == s.timers && s'.clock == s.clock
    requires |s'.fibers| >= |s.fibers|
    requires forall f {:trigger s.fibers[f]} :: 0 <= f < |s.fibers| && s.fibers[f].pc.InIo? ==>
               s'.fibers[f].pc.InIo? && s'.fibers[f].pc.call == s.fibers[f].pc.call
    ensures Calls(s') && Timers(s')
  {
    forall c: nat | c < |s'.calls| ensures CallOk(s', c) {
      assert CallOk(s, c);
    }
    forall t: nat | t < |s'.timers| ensures TimerOk(s', t) {
      assert TimerOk(s, t);
    }
  }

  /** What settling does before a READY fiber goes back to the queue. */
  lemma SettleFrame(s: State, s': State, w: nat, f: nat)
    requires Sched(s) && CanSettle(s, w) && f == FiberAt(s, w)
    requires s'.(workers := s.workers, fibers := s.fibers) == s
    requires |s'.workers| == |s.workers| && s'.workers[w].loc.Head?
    requires forall w' :: 0 <= w' < |s.workers| && w' != w ==> s'.workers[w'] == s.workers[w']
    requires |s'.fibers| == |s.fibers|
    requires var own, c := s.workers[w].loc.own, s'.workers[w].cache;
      if own then c.None? || (c == Some(f) && s'.fibers[f].home == Cached(w)) else c == s.workers[w].cache
    requires forall f' :: 0 <= f' < |s.fibers| && f' != f ==> s'.fibers[f'] == s.fibers[f']
    requires s'.fibers[f].on.None? && StackOk(s', f) && HomeOk(s', f) && s'.fibers[f].pc == s.fibers[f].pc
    requires s'.fibers[f].home == s.fibers[f].home || s.fibers[f].home == Held(w)
    ensures Sched(s')
  {
    assert s'.workers == s.workers[w := s'.workers[w]];
    BusyChange(s.workers, w, s'.workers[w]);
    CallsSame(s, s');
    assert WorkerOk(s, w);
    forall w': nat | w' < |s'.workers| ensures WorkerOk(s', w') {
      assert WorkerOk(s, w');
    }
    forall f': nat | f' < |s'.fibers| ensures HomeOk(s', f') {
      assert HomeOk(s, f');
    }
    forall f': nat | f' < |s'.fibers| ensures StackOk(s', f') && PcOk(s', f') {
      assert StackOk(s, f') && PcOk(s, f');
    }
    forall tid: nat | tid < |s'.tasks| ensures TaskOk(s', tid) {
      assert TaskOk(s, tid);
    }
  }

  lemma SettleReadyKeeps(s: State, w: nat)
    requires Sched(s) && CanSettle(s, w) && s.workers[w].loc.at.seen.READY?
    ensures Sched(SettleFiber(s, w))
  {
    var f, wk := FiberAt(s, w), s.workers[w];
    assert WorkerOk(s, w);
    var x := wk.(loc := Head, cache := if wk.loc.own then None else wk.cache);
    var s1 := SetFiber(s.(workers := s.workers[w := x]), f, s.fibers[f].(on := None, home := Lost));
    assert Sched(s1) by {
      SettleFrame(s, s1, w, f);
    }
    PushFiberKeeps(s1, f, None);
    assert SettleFiber(s, w) == Push(s1, FiberWork(f), None) by {
      assert SettleFiber(s, w).fibers == Push(s1, FiberWork(f), None).fibers;
    }
  }

  lemma SettleKeeps(s: State, w: nat)
    requires Sched(s) && CanSettle(s, w)
    ensures Sched(SettleFiber(s, w))
  {
    var s', f := SettleFiber(s, w), FiberAt(s, w);
    if s.workers[w].loc.at.seen.READY? {
      SettleReadyKeeps(s, w);
    } else {
      assert WorkerOk(s, w) && HomeOk(s, f);
      SettleFrame(s, s', w, f);
    }
  }
}
