/** What a step adds to the queue, and where the callbacks of due timers are. */
module ProtocolQueue {
  import opened Base
  import opened EventTable
  import opened EventTableInv
  import opened Protocol
  import opened ProtocolInv
  import opened ProtocolHistory

  /** Everything scheduled since `s` stands behind what was queued, in the order it was scheduled. */
  ghost predicate Enqueues(s: State, s': State) {
    && |s.tasks| <= |s'.tasks| && |s'.queue| - |s.queue| == |s'.tasks| - |s.tasks|
    && (forall i {:trigger s'.queue[i]} :: 0 <= i < |s.queue| ==> s'.queue[i] == s.queue[i])
    && (forall i {:trigger s'.queue[i]} :: |s.queue| <= i < |s'.queue| ==> s'.queue[i] == |s.tasks| + i - |s.queue|)
  }

  /** The due timers that worker w has taken and not scheduled yet. */
  function ScanOf(s: State, w: nat): seq<nat> {
    if IdlingAt(s, w) then s.workers[w].loc.cbs else []
  }

  predicate IsTimeout(work: Work) {
    work.CbWork? && work.cb.Timeout?
  }

  /** No timer comes due, no scan changes, no timeout callback is scheduled. */
  ghost predicate ScansKept(s: State, s': State) {
    && |s.tasks| <= |s'.tasks|
    && (forall w: nat {:trigger ScanOf(s', w)} :: ScanOf(s', w) == ScanOf(s, w))
    && (forall tid {:trigger s'.tasks[tid]} :: 0 <= tid < |s'.tasks| ==>
          if tid < |s.tasks| then s'.tasks[tid].work == s.tasks[tid].work else !IsTimeout(s'.tasks[tid].work))
    && (forall t {:trigger s'.timers[t]} :: 0 <= t < |s'.timers| && s'.timers[t].status.Fired? ==>
          t < |s.timers| && s.timers[t].status.Fired?)
  }

  ghost predicate Calm(s: State, s': State) {
    Enqueues(s, s') && ScansKept(s, s')
  }

  lemma CalmTransitive(a: State, b: State, c: State)
    requires Calm(a, b) && Calm(b, c)
    ensures Calm(a, c)
  {
    EnqueuesTransitive(a, b, c);
    forall w: nat ensures ScanOf(c, w) == ScanOf(a, w) {
      assert ScanOf(b, w) == ScanOf(a, w);
    }
    forall tid | 0 <= tid < |c.tasks|
      ensures if tid < |a.tasks| then c.tasks[tid].work == a.tasks[tid].work else !IsTimeout(c.tasks[tid].work)
    {
      assert tid < |b.tasks| ==> c.tasks[tid].work == b.tasks[tid].work;
    }
  }

  lemma EnqueuesTransitive(a: State, b: State, c: State)
    requires Enqueues(a, b) && Enqueues(b, c)
    ensures Enqueues(a, c)
  {
    forall i | 0 <= i < |c.queue|
      ensures c.queue[i] == if i < |a.queue| then a.queue[i] else |a.tasks| + i - |a.queue|
    {
      assert i < |b.queue| ==> c.queue[i] == b.queue[i];
    }
  }

  lemma PushCalm(s: State, work: Work, pin: Option<nat>)
    requires (work.FiberWork? ==> work.fiber < |s.fibers|) && !IsTimeout(work)
    ensures Calm(s, Push(s, work, pin))
  {}

  lemma FireIfCalm(s: State, fd: nat, ev: Event, on: bool)
    requires on ==> CanFire(s, fd, ev) && !IsTimeout(SlotAt(s.table, fd, ev).work)
    ensures Calm(s, FireIf(s, fd, ev, on))
  {
    if on {
      var s1 := s.(table := Trigger(s.table, fd, ev));
      PushCalm(s1, SlotAt(s.table, fd, ev).work, None);
      CalmTransitive(s, s1, Fire(s, fd, ev));
    }
  }

  /** Slots never hold a timeout callback. */
  predicate SlotsPlain(t: Table, fd: nat) {
    forall ev :: SlotAt(t, fd, ev).Armed? ==> !IsTimeout(SlotAt(t, fd, ev).work)
  }

  lemma FireIfPlain(s: State, fd: nat, ev: Event, on: bool)
    requires (on ==> CanFire(s, fd, ev)) && SlotsPlain(s.table, fd)
    ensures SlotsPlain(FireIf(s, fd, ev, on).table, fd)
  {
    if on {
      RemovedSlots(s.table, Trigger(s.table, fd, ev), fd, ev);
    }
  }

  lemma FireSetCalm(s: State, fd: nat, evs: set<Event>)
    requires CanFireAll(s, fd, evs) && SlotsPlain(s.table, fd)
    ensures Calm(s, FireSet(s, fd, evs))
  {
    var ctx := s.table.fds[fd];
    var s0 := s.(table := Ctl(s.table, RemoveOp(ctx, evs), fd, ctx.mask - evs));
    var s1 := FireIf(s0, fd, READ, READ in evs);
    assert SlotsPlain(s0.table, fd) by {
      assert forall ev :: SlotAt(s0.table, fd, ev) == SlotAt(s.table, fd, ev);
    }
    FireIfCalm(s0, fd, READ, READ in evs);
    FireIfPlain(s0, fd, READ, READ in evs);
    FireIfCalm(s1, fd, WRITE, WRITE in evs);
    CalmTransitive(s, s0, s1);
    CalmTransitive(s, s1, FireSet(s, fd, evs));
  }

  lemma PlainInv(s: State, fd: nat)
    requires SlotWorkOk(s)
    ensures SlotsPlain(s.table, fd)
  {}

  lemma CancelCalm(s: State, fd: nat, ev: Event, ok: bool)
    requires SlotsMatch(s.table) && SlotsPlain(s.table, fd)
    ensures Calm(s, CancelIn(s, fd, ev, ok))
  {
    if CancelIn(s, fd, ev, ok) != s {
      FireSetCalm(s, fd, {ev});
    }
  }

  lemma CancelFdCalm(s: State, fd: nat, ok: bool)
    requires SlotsMatch(s.table) && SlotsPlain(s.table, fd)
    ensures Calm(s, CancelFdIn(s, fd, ok))
  {
    if CancelFdIn(s, fd, ok) != s {
      FireSetCalm(s, fd, s.table.fds[fd].mask);
    }
  }

  lemma ReportCalm(s: State, fd: nat, reported: set<Event>, err: bool, ok: bool)
    requires SlotsMatch(s.table) && fd < |s.table.fds| && SlotsPlain(s.table, fd)
    ensures Calm(s, ReportIn(s, fd, reported, err, ok))
  {
    if ReportIn(s, fd, reported, err, ok) != s {
      FireSetCalm(s, fd, RealEvents(s.table.fds[fd], reported, err));
    }
  }

  lemma LoopCalm(s: State, w: nat, step: LoopStep)
    requires LoopEnabled(s, w, step) && !step.Pick?
    ensures Calm(s, LoopNext(s, w, step))
  {
    if step.Settle? {
      SettleCalm(s, w);
    }
  }

  lemma SettleCalm(s: State, w: nat)
    requires CanSettle(s, w)
    ensures Calm(s, SettleFiber(s, w))
  {}

  /** A pick takes one entry out of the queue and leaves the scans alone. */
  lemma PickScans(s: State, w: nat, i: nat)
    requires CanPick(s, w, i)
    ensures ScansKept(s, TakeTask(s, w, i))
  {}

  lemma CodeCalm(s: State, w: nat, step: CodeStep)
    requires CodeEnabled(s, w, step) && SlotsMatch(s.table) && |s.table.fds| >= 32 && SlotWorkOk(s)
    ensures Calm(s, CodeNext(s, w, step))
  {
    match step {
      case Cancel(fd, ev, ok) => CancelCalm(s, fd, ev, ok);
      case CancelFd(fd, ok) => CancelFdCalm(s, fd, ok);
      case _ => PlainCodeCalm(s, w, step);
    }
  }

  lemma PlainCodeCalm(s: State, w: nat, step: CodeStep)
    requires CodeEnabled(s, w, step) && SlotsMatch(s.table) && |s.table.fds| >= 32
    requires !step.Cancel? && !step.CancelFd?
    ensures Calm(s, CodeNext(s, w, step))
  {}

  lemma IoCalm(s: State, w: nat, step: IoStep)
    requires IoEnabled(s, w, step) && SlotsMatch(s.table) && |s.table.fds| >= 32 && SlotWorkOk(s)
    ensures Calm(s, IoNext(s, w, step))
  {
    if step.TimeoutCancel? {
      var call := s.calls[s.timers[s.fibers[FiberAt(s, w)].pc.timer].call];
      var s1 := SetPc(s, w, Ending);
      CancelCalm(s1, call.fd, call.ev, step.ok);
      CalmTransitive(s, s1, CancelIn(s1, call.fd, call.ev, step.ok));
    } else {
      PlainIoCalm(s, w, step);
    }
  }

  lemma PlainIoCalm(s: State, w: nat, step: IoStep)
    requires IoEnabled(s, w, step) && SlotsMatch(s.table) && |s.table.fds| >= 32 && !step.TimeoutCancel?
    ensures Calm(s, IoNext(s, w, step))
  {}

  lemma IdleCalm(s: State, w: nat, step: IdleStep)
    requires IdleEnabled(s, w, step) && SlotsMatch(s.table) && SlotWorkOk(s) && !step.Expire? && !step.Flush?
    ensures Calm(s, IdleNext(s, w, step))
  {
    if step.Report? {
      ReportCalm(s, step.fd, step.reported, step.err, step.ok);
    }
  }

  /** All steps but three: a pick takes from the queue, an expiry starts a scan, a flush ends it. */
  lemma StepCalm(s: State, step: Step)
    requires Inv(s) && Enabled(s, step)
    requires !(step.Loop? && step.loop.Pick?) && !(step.Idle? && (step.idle.Expire? || step.idle.Flush?))
    ensures Calm(s, Next(s, step))
  {
    match step {
      case Loop(w, loop) => LoopCalm(s, w, loop);
      case Code(w, code) => CodeCalm(s, w, code);
      case Io(w, io) => IoCalm(s, w, io);
      case Idle(w, idle) => IdleCalm(s, w, idle);
      case _ => OutsideCalm(s, step);
    }
  }

  lemma OutsideCalm(s: State, step: Step)
    requires Enabled(s, step) && SlotsMatch(s.table) && |s.table.fds| >= 32
    requires step.Tick? || step.Stop? || step.Submit? || step.SubmitFiber? || step.Schedule?
    ensures Calm(s, Next(s, step))
  {}

  // ----- the flush

  /** Every collected callback becomes a task of its own, in order, and nothing else changes. */
  lemma {:induction false} Flushed(s: State, ts: seq<nat>)
    ensures var s' := PushTimeouts(s, ts);
      && s'.workers == s.workers && s'.timers == s.timers
      && Enqueues(s, s') && |s'.tasks| == |s.tasks| + |ts|
      && (forall tid {:trigger s'.tasks[tid]} :: 0 <= tid < |s'.tasks| ==>
            s'.tasks[tid] ==
            if tid < |s.tasks| then s.tasks[tid] else Task(CbWork(Timeout(ts[tid - |s.tasks|])), None, Waiting))
    decreases |ts|
  {
    if ts != [] {
      var s1 := Push(s, CbWork(Timeout(ts[0])), None);
      Flushed(s1, ts[1..]);
      EnqueuesTransitive(s, s1, PushTimeouts(s, ts));
    }
  }

  // ----- the queue

  /** First in, first out: entries stand in the order in which they were scheduled. */
  ghost predicate Fifo(s: State) {
    forall i, j :: 0 <= i < j < |s.queue| ==> s.queue[i] < s.queue[j]
  }

  lemma AppendKeepsFifo(s: State, s': State)
    requires QueueInRange(s) && Fifo(s) && Enqueues(s, s')
    ensures Fifo(s')
  {}

  lemma PickKeepsFifo(s: State, w: nat, i: nat)
    requires CanPick(s, w, i) && Fifo(s)
    ensures Fifo(TakeTask(s, w, i))
  {
    assert TakeTask(s, w, i).queue == s.queue[..i] + s.queue[i + 1..];
  }

  lemma FlushEnqueues(s: State, w: nat)
    requires IdlingAt(s, w)
    ensures Enqueues(s, PushTimeouts(MoveTo(s, w, Idling([])), s.workers[w].loc.cbs))
  {
    var s1 := MoveTo(s, w, Idling([]));
    Flushed(s1, s.workers[w].loc.cbs);
  }

  /** Every step but a pick only appends. */
  lemma StepEnqueues(s: State, step: Step)
    requires Inv(s) && Enabled(s, step) && !(step.Loop? && step.loop.Pick?)
    ensures Enqueues(s, Next(s, step))
  {
    match step {
      case Idle(w, Flush) => FlushEnqueues(s, w);
      case Idle(w, Expire(_, _)) =>
      case _ => StepCalm(s, step);
    }
  }

  lemma StepKeepsFifo(s: State, step: Step)
    requires Inv(s) && Fifo(s) && Enabled(s, step)
    ensures Fifo(Next(s, step))
  {
    if step.Loop? && step.loop.Pick? {
      PickKeepsFifo(s, step.w, step.loop.i);
    } else {
      StepEnqueues(s, step);
      AppendKeepsFifo(s, Next(s, step));
    }
  }

  // ----- the callbacks of timers that came due

  datatype Spot = InScan(w: nat, i: nat) | InTask(tid: nat)

  /** Spot p carries the callback of timer t. */
  ghost predicate Carries(s: State, p: Spot, t: nat) {
    match p
    case InScan(w, i) => i < |ScanOf(s, w)| && ScanOf(s, w)[i] == t
    case InTask(tid) => tid < |s.tasks| && s.tasks[tid].work == CbWork(Timeout(t))
  }

  /** A timer has one callback if it came due, and none otherwise. */
  ghost predicate Carried(s: State) {
    && (forall t: nat {:trigger s.timers[t]} :: t < |s.timers| && s.timers[t].status.Fired? ==>
          exists p :: Carries(s, p, t))
    && (forall p, t: nat :: Carries(s, p, t) ==> t < |s.timers| && s.timers[t].status.Fired?)
    && (forall p, q, t: nat :: Carries(s, p, t) && Carries(s, q, t) ==> p == q)
  }

  /** A scan lists its timers earliest deadline first. */
  ghost predicate ScansSorted(s: State) {
    forall w: nat {:trigger ScanOf(s, w)} :: ByDeadline(s.timers, ScanOf(s, w))
  }

  predicate ByDeadline(timers: seq<Timer>, ts: seq<nat>) {
    && (forall i :: 0 <= i < |ts| ==> ts[i] < |timers|)
    && (forall i, j :: 0 <= i < j < |ts| ==> timers[ts[i]].deadline <= timers[ts[j]].deadline)
  }

  lemma LaterByDeadline(s: State, s': State, ts: seq<nat>)
    requires Later(s, s') && ByDeadline(s.timers, ts)
    ensures ByDeadline(s'.timers, ts)
  {
    forall i | 0 <= i < |ts| ensures s'.timers[ts[i]].deadline == s.timers[ts[i]].deadline {
      assert TimerLater(s.timers[ts[i]], s'.timers[ts[i]]);
    }
  }

  lemma ScansKeptCarries(s: State, s': State, p: Spot, t: nat)
    requires ScansKept(s, s')
    ensures Carries(s', p, t) <==> Carries(s, p, t)
  {
    match p {
      case InScan(w, i) => assert ScanOf(s', w) == ScanOf(s, w);
      case InTask(tid) =>
    }
  }

  lemma ScansKeptCarried(s: State, s': State)
    requires Carried(s) && ScansKept(s, s') && Later(s, s')
    ensures Carried(s')
  {
    forall p, t: nat ensures Carries(s', p, t) <==> Carries(s, p, t) {
      ScansKeptCarries(s, s', p, t);
    }
    forall t: nat | t < |s'.timers| && s'.timers[t].status.Fired? ensures exists p :: Carries(s', p, t) {
      var p :| Carries(s, p, t);
      assert Carries(s', p, t);
    }
    forall p, t: nat | Carries(s', p, t) ensures t < |s'.timers| && s'.timers[t].status.Fired? {
      assert Carries(s, p, t) && TimerLater(s.timers[t], s'.timers[t]);
    }
  }

  lemma ScansKeptSorted(s: State, s': State)
    requires ScansSorted(s) && ScansKept(s, s') && Later(s, s')
    ensures ScansSorted(s')
  {
    forall w: nat ensures ByDeadline(s'.timers, ScanOf(s', w)) {
      assert ScanOf(s', w) == ScanOf(s, w);
      LaterByDeadline(s, s', ScanOf(s, w));
    }
  }

  lemma ExpireScans(s: State, w: nat, order: seq<nat>, v: nat)
    requires IdlingAt(s, w) && s.workers[w].loc.cbs == []
    ensures ScanOf(ExpireTimers(s, w, order), v) == if v == w then order else ScanOf(s, v)
  {}

  /** A scan takes over the callbacks of the timers it finds due; they had none before. */
  lemma ExpireCarried(s: State, w: nat, now: nat, order: seq<nat>)
    requires Carried(s) && CanExpire(s, w, now, order)
    ensures Carried(ExpireTimers(s, w, order))
  {
    var s' := ExpireTimers(s, w, order);
    forall v: nat ensures ScanOf(s', v) == if v == w then order else ScanOf(s, v) {
      ExpireScans(s, w, order, v);
    }
    assert ScanOf(s, w) == [];
    forall p, t: nat ensures Carries(s', p, t) <==>
        Carries(s, p, t) || (p.InScan? && p.w == w && p.i < |order| && order[p.i] == t)
    {
    }
    forall t: nat | t < |s'.timers| && s'.timers[t].status.Fired? ensures exists p :: Carries(s', p, t) {
      if s.timers[t].status.Fired? {
        var p :| Carries(s, p, t);
        assert Carries(s', p, t);
      } else {
        var i :| 0 <= i < |order| && order[i] == t;
        assert Carries(s', InScan(w, i), t);
      }
    }
    forall p, t: nat | Carries(s', p, t) ensures t < |s'.timers| && s'.timers[t].status.Fired? {
      if !Carries(s, p, t) {
        assert t in order;
      }
    }
    forall p, q, t: nat | Carries(s', p, t) && Carries(s', q, t) ensures p == q {
      if t in order {
        assert !Carries(s, p, t) && !Carries(s, q, t);
      } else {
        assert Carries(s, p, t) && Carries(s, q, t);
      }
    }
  }

  lemma ExpireSorted(s: State, w: nat, now: nat, order: seq<nat>)
    requires ScansSorted(s) && CanExpire(s, w, now, order)
    ensures ScansSorted(ExpireTimers(s, w, order))
  {
    var s' := ExpireTimers(s, w, order);
    forall v: nat ensures ByDeadline(s'.timers, ScanOf(s', v)) {
      ExpireScans(s, w, order, v);
      assert ByDeadline(s.timers, ScanOf(s, v));
    }
  }

  /** Where a spot was before worker w flushed its scan. */
  function Before(s: State, w: nat, p: Spot): Spot {
    if p.InTask? && p.tid >= |s.tasks| then InScan(w, p.tid - |s.tasks|) else p
  }

  /** A flush moves the callbacks of one scan into tasks, one each. */
  lemma FlushCarried(s: State, s': State, w: nat)
    requires Carried(s) && IdlingAt(s, w) && s'.timers == s.timers
    requires forall v: nat {:trigger ScanOf(s', v)} :: ScanOf(s', v) == if v == w then [] else ScanOf(s, v)
    requires |s'.tasks| == |s.tasks| + |ScanOf(s, w)|
    requires forall tid {:trigger s'.tasks[tid]} :: 0 <= tid < |s'.tasks| ==>
      s'.tasks[tid].work ==
      if tid < |s.tasks| then s.tasks[tid].work else CbWork(Timeout(ScanOf(s, w)[tid - |s.tasks|]))
    ensures Carried(s')
  {
    forall p, t: nat | Carries(s', p, t)
      ensures Carries(s, Before(s, w, p), t) && !(p.InScan? && p.w == w)
    {
      match p {
        case InScan(v, i) => assert ScanOf(s', v) == if v == w then [] else ScanOf(s, v);
        case InTask(tid) => assert s'.tasks[tid].work == CbWork(Timeout(t));
      }
    }
    forall t: nat | t < |s'.timers| && s'.timers[t].status.Fired? ensures exists p :: Carries(s', p, t) {
      var p :| Carries(s, p, t);
      var p' := if p.InScan? && p.w == w then InTask(|s.tasks| + p.i) else p;
      assert Carries(s', p', t);
    }
    forall p, q, t: nat | Carries(s', p, t) && Carries(s', q, t) ensures p == q {
      assert Before(s, w, p) == Before(s, w, q);
    }
  }

  lemma FlushStep(s: State, w: nat)
    requires Carried(s) && ScansSorted(s) && IdlingAt(s, w)
    ensures var s' := PushTimeouts(MoveTo(s, w, Idling([])), s.workers[w].loc.cbs);
      Carried(s') && ScansSorted(s')
  {
    var s1, ts := MoveTo(s, w, Idling([])), s.workers[w].loc.cbs;
    var s' := PushTimeouts(s1, ts);
    Flushed(s1, ts);
    forall v: nat ensures ScanOf(s', v) == if v == w then [] else ScanOf(s, v) {
    }
    FlushCarried(s, s', w);
  }

  lemma StepKeepsCarried(s: State, step: Step)
    requires Inv(s) && LostWasDropped(s) && Carried(s) && ScansSorted(s) && Enabled(s, step)
    ensures Carried(Next(s, step)) && ScansSorted(Next(s, step))
  {
    match step {
      case Idle(w, Flush) => FlushStep(s, w);
      case Idle(w, Expire(now, order)) =>
        ExpireCarried(s, w, now, order);
        ExpireSorted(s, w, now, order);
      case _ => ScansKeptStep(s, step);
    }
  }

  lemma ScansKeptStep(s: State, step: Step)
    requires Inv(s) && LostWasDropped(s) && Carried(s) && ScansSorted(s) && Enabled(s, step)
    requires !(step.Idle? && (step.idle.Expire? || step.idle.Flush?))
    ensures Carried(Next(s, step)) && ScansSorted(Next(s, step))
  {
    StepGoesForward(s, step);
    if step.Loop? && step.loop.Pick? {
      PickScans(s, step.w, step.loop.i);
    } else {
      StepCalm(s, step);
    }
    ScansKeptCarried(s, Next(s, step));
    ScansKeptSorted(s, Next(s, step));
  }
}
