/** Over every run: the queue is first in, first out, and a timer that came due has one callback. */
module ProtocolDelivery {
  import opened Base
  import opened EventTable
  import opened EventTableInv
  import opened Protocol
  import opened ProtocolInv
  import opened ProtocolSteps
  import opened ProtocolHistory
  import opened ProtocolTheorems
  import opened ProtocolQueue
  import opened ProtocolFrames

  lemma {:induction false} RunDelivers(s: State, steps: seq<Step>, s': State)
    requires Inv(s) && LostWasDropped(s) && Fifo(s) && Carried(s) && ScansSorted(s) && Runs(s, steps, s')
    ensures Fifo(s') && Carried(s') && ScansSorted(s')
    decreases |steps|
  {
    if steps != [] {
      StepKeepsInv(s, steps[0]);
      StepGoesForward(s, steps[0]);
      StepKeepsFifo(s, steps[0]);
      StepKeepsCarried(s, steps[0]);
      RunDelivers(Next(s, steps[0]), steps[1..], s');
    }
  }

  lemma ReachableDelivers(n: nat, clock: nat, steps: seq<Step>, s: State)
    requires Runs(Initial(n, clock), steps, s)
    ensures Fifo(s) && Carried(s) && ScansSorted(s)
  {
    InitialInv(n, clock);
    RunDelivers(Initial(n, clock), steps, s);
  }

  // ----- timers that came due

  /** Over every run a timer has come due exactly when its callback is somewhere, in one scan or in one
      task, and it is never in two places. */
  lemma DueTimerHasOneCallback(n: nat, clock: nat, steps: seq<Step>, s: State, t: nat)
    requires Runs(Initial(n, clock), steps, s) && t < |s.timers|
    ensures s.timers[t].status.Fired? <==> exists p :: Carries(s, p, t)
    ensures forall p, q :: Carries(s, p, t) && Carries(s, q, t) ==> p == q
  {
    ReachableDelivers(n, clock, steps, s);
  }

  /** The expiry scan takes each pending timer that is due at its reading, those due that very
      moment included, and no other; earliest deadline first. */
  lemma ScanTakesDue(n: nat, clock: nat, steps: seq<Step>, s: State, w: nat, now: nat, order: seq<nat>)
    requires Runs(Initial(n, clock), steps, s) && CanExpire(s, w, now, order)
    ensures SlotsMatch(s.table) && |s.table.fds| >= 32
    ensures var s' := Next(s, Idle(w, Expire(now, order)));
      TakesDue(s, s', w, now) && s'.tasks == s.tasks && s'.queue == s.queue
  {
    ReachableTable(n, clock, steps, s);
    assert ScansSorted(s) by {
      ReachableDelivers(n, clock, steps, s);
    }
    ExpireStep(s, w, now, order);
    ExpireTakes(s, w, now, order);
  }

  lemma ExpireStep(s: State, w: nat, now: nat, order: seq<nat>)
    requires SlotsMatch(s.table) && |s.table.fds| >= 32 && CanExpire(s, w, now, order)
    ensures Next(s, Idle(w, Expire(now, order))) == ExpireTimers(s, w, order)
  {}

  lemma ReachableTable(n: nat, clock: nat, steps: seq<Step>, s: State)
    requires Runs(Initial(n, clock), steps, s)
    ensures SlotsMatch(s.table) && |s.table.fds| >= 32
  {
    ReachableInv(n, clock, steps, s);
  }

  ghost predicate TakesDue(s: State, s': State, w: nat, now: nat) {
    && |s'.timers| == |s.timers|
    && (forall t: nat {:trigger s'.timers[t]} :: t < |s.timers| ==>
          var timer := s.timers[t];
          var due := timer.status.Pending? && timer.deadline <= now;
          && s'.timers[t] == (if due then timer.(status := Fired) else timer)
          && (t in ScanOf(s', w) <==> due))
    && ByDeadline(s'.timers, ScanOf(s', w))
  }

  lemma ExpireTakes(s: State, w: nat, now: nat, order: seq<nat>)
    requires ScansSorted(s) && CanExpire(s, w, now, order)
    ensures TakesDue(s, ExpireTimers(s, w, order), w, now)
  {
    ExpireSorted(s, w, now, order);
    ExpireScans(s, w, order, w);
    var s' := ExpireTimers(s, w, order);
    assert ByDeadline(s'.timers, ScanOf(s', w));
  }

  /** What the scan took is scheduled as a whole: every callback gets a task of its own, on any worker,
      behind all that is queued, and the tasks of one scan stand there in deadline order. */
  lemma ScanIsScheduled(n: nat, clock: nat, steps: seq<Step>, s: State, w: nat)
    requires Runs(Initial(n, clock), steps, s) && IdlingAt(s, w)
    ensures SlotsMatch(s.table) && |s.table.fds| >= 32
    ensures var s', ts := Next(s, Idle(w, Flush)), ScanOf(s, w);
      && s'.queue == s.queue + seq(|ts|, i => |s.tasks| + i)
      && |s'.tasks| == |s.tasks| + |ts| && s'.tasks[..|s.tasks|] == s.tasks && s'.timers == s.timers
      && (forall i {:trigger ts[i]} :: 0 <= i < |ts| ==>
            s'.tasks[|s.tasks| + i] == Task(CbWork(Timeout(ts[i])), None, Waiting))
      && ByDeadline(s.timers, ts) && ScanOf(s', w) == []
  {
    ReachableTable(n, clock, steps, s);
    assert ScansSorted(s) by {
      ReachableDelivers(n, clock, steps, s);
    }
    FlushSchedules(s, w);
    assert ByDeadline(s.timers, ScanOf(s, w));
  }

  lemma FlushSchedules(s: State, w: nat)
    requires SlotsMatch(s.table) && |s.table.fds| >= 32 && IdlingAt(s, w)
    ensures var s', ts := Next(s, Idle(w, Flush)), ScanOf(s, w);
      && s'.queue == s.queue + seq(|ts|, i => |s.tasks| + i)
      && |s'.tasks| == |s.tasks| + |ts| && s'.tasks[..|s.tasks|] == s.tasks && s'.timers == s.timers
      && (forall i {:trigger ts[i]} :: 0 <= i < |ts| ==>
            s'.tasks[|s.tasks| + i] == Task(CbWork(Timeout(ts[i])), None, Waiting))
      && ScanOf(s', w) == []
  {
    var s1, ts := MoveTo(s, w, Idling([])), ScanOf(s, w);
    Flushed(s1, ts);
    assert PushTimeouts(s1, ts).queue == s.queue + seq(|ts|, i => |s.tasks| + i);
  }

  // ----- the queue

  /** First in, first out: over every run the queue holds task numbers, which count schedulings, in
      increasing order. */
  lemma QueueIsFifo(n: nat, clock: nat, steps: seq<Step>, s: State, i: nat, j: nat)
    requires Runs(Initial(n, clock), steps, s) && i < j < |s.queue|
    ensures s.queue[i] < s.queue[j] < |s.tasks|
  {
    ReachableInv(n, clock, steps, s);
    ReachableDelivers(n, clock, steps, s);
  }

  /** What a caller schedules, and on which worker. */
  function Asked(s: State, step: Step): Option<(Work, Option<nat>)>
    requires Enabled(s, step)
  {
    match step
    case Submit(cb, pin) => Some((CbWork(User(cb)), pin))
    case SubmitFiber(pin) => Some((FiberWork(|s.fibers|), pin))
    case Schedule(f, pin) => Some((FiberWork(f), pin))
    case Code(w, Spawn(cb, pin)) => Some((CbWork(User(cb)), pin))
    case Code(w, SpawnFiber(pin)) => Some((FiberWork(|s.fibers|), pin))
    case Code(w, SwitchTo(pin)) => Some((FiberWork(FiberAt(s, w)), pin))
    case _ => None
  }

  /** What is scheduled becomes one task behind all others, and over the rest of the run it keeps its
      work and its pin. */
  lemma ScheduledAsAsked(n: nat, clock: nat, steps: seq<Step>, s: State, step: Step, more: seq<Step>, s': State)
    requires Runs(Initial(n, clock), steps, s) && CanStep(s, step) && Asked(s, step).Some?
    requires Runs(Next(s, step), more, s')
    ensures var s1 := Next(s, step);
      s1.queue == s.queue + [|s.tasks|] && |s1.tasks| == |s.tasks| + 1 && s1.tasks[|s.tasks|].fate.Waiting?
    ensures |s.tasks| < |s'.tasks|
    ensures var task := s'.tasks[|s.tasks|]; (task.work, task.pin) == Asked(s, step).value
  {
    ReachableInv(n, clock, steps, s);
    var s1 := Next(s, step);
    StepKeepsInv(s, step);
    StepGoesForward(s, step);
    RunKeepsInv(s1, more, s');
    assert TaskLater(s1.tasks[|s.tasks|], s'.tasks[|s.tasks|]);
  }

  /** Whatever else is scheduled - the work of events that fire, callbacks of timers, a fiber that yielded
      READY - may run on any worker. */
  lemma OthersAreUnpinned(n: nat, clock: nat, steps: seq<Step>, s: State, step: Step, tid: nat)
    requires Runs(Initial(n, clock), steps, s) && CanStep(s, step) && Asked(s, step).None?
    requires |s.tasks| <= tid < |Next(s, step).tasks|
    ensures Next(s, step).tasks[tid].pin.None?
  {
    ReachableInv(n, clock, steps, s);
    match step {
      case Loop(w, loop) =>
        assert WorkerOk(s, w) && (s.workers[w].cache.Some? ==> HomeOk(s, s.workers[w].cache.value));
        LoopFrame(s, w, loop, 0);
      case Code(w, code) =>
        assert WorkerOk(s, w);
        CodeFrame(s, w, code, 0);
      case Io(w, io) => IoFrame(s, w, io, 0);
      case Idle(w, idle) => IdleFrame(s, w, idle, 0);
      case _ =>
    }
  }

  /** Worker w may run task tid: it is pinned nowhere else, and its fiber is not executing. */
  predicate MayTake(s: State, w: nat, tid: nat) {
    && tid < |s.tasks|
    && (s.tasks[tid].pin == None || s.tasks[tid].pin == Some(w))
    && match s.tasks[tid].work
       case FiberWork(f) => f < |s.fibers| && s.fibers[f].state != EXEC
       case CbWork(_) => true
  }

  /** A worker takes the oldest entry that it may run, and only that leaves the queue. */
  lemma PickTakesFirst(n: nat, clock: nat, steps: seq<Step>, s: State, w: nat, i: nat)
    requires Runs(Initial(n, clock), steps, s) && CanPick(s, w, i)
    ensures SlotsMatch(s.table) && |s.table.fds| >= 32
    ensures var s', tid := Next(s, Loop(w, Pick(i))), s.queue[i];
      && MayTake(s, w, tid) && (forall other :: other in s.queue && MayTake(s, w, other) ==> tid <= other)
      && w < |s'.workers| && s'.workers[w].loc == Picked(tid) && s'.active == s.active + 1
      && (forall other :: other in s'.queue <==> other in s.queue && other != tid) && Fifo(s')
      && s'.tasks == s.tasks[tid := s.tasks[tid].(fate := Taken(w))]
  {
    ReachableTable(n, clock, steps, s);
    ReachableDelivers(n, clock, steps, s);
    PickKeepsFifo(s, w, i);
    TakesFirst(s, w, i);
  }

  lemma TakesFirst(s: State, w: nat, i: nat)
    requires CanPick(s, w, i) && Fifo(s)
    ensures var s', tid := TakeTask(s, w, i), s.queue[i];
      && (forall other :: other in s.queue && MayTake(s, w, other) ==> tid <= other)
      && (forall other :: other in s'.queue <==> other in s.queue && other != tid)
  {
    Unqueue(s.queue, i);
    forall other | other in s.queue && MayTake(s, w, other)
      ensures s.queue[i] <= other
    {
      var j :| 0 <= j < |s.queue| && s.queue[j] == other;
      assert Eligible(s, w, s.queue[j]);
    }
  }

  /** A worker at the head of its loop finds nothing exactly when it may run nothing that is queued. */
  lemma PickNoneExactly(n: nat, clock: nat, steps: seq<Step>, s: State, w: nat)
    requires Runs(Initial(n, clock), steps, s) && w < |s.workers| && s.workers[w].loc.Head?
    ensures LoopEnabled(s, w, PickNone) <==> forall tid :: tid in s.queue ==> !MayTake(s, w, tid)
  {
    ReachableInv(n, clock, steps, s);
    forall j | 0 <= j < |s.queue| ensures Eligible(s, w, s.queue[j]) <==> MayTake(s, w, s.queue[j]) {
      assert TaskOk(s, s.queue[j]);
    }
  }
}
