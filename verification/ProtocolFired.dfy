/** Every fired registration has a task of its own. */
module ProtocolFired {
  import opened Base
  import opened EventTable
  import opened EventTableInv
  import opened Protocol
  import opened ProtocolInv
  import opened ProtocolSteps
  import opened ProtocolHistory

  /** tids numbers, in order, the tasks that the fired registrations became: one each, with the very
      work that was registered. */
  ghost predicate Queues(s: State, tids: seq<nat>) {
    && |tids| == |s.table.fired|
    && (forall i, j :: 0 <= i < j < |tids| ==> tids[i] < tids[j])
    && (forall i {:trigger tids[i]} :: 0 <= i < |tids| ==>
          && tids[i] < |s.tasks| && s.table.fired[i] < |s.table.made|
          && s.tasks[tids[i]].work == s.table.made[s.table.fired[i]].work)
  }

  lemma SameFiredQueues(s: State, s': State, tids: seq<nat>)
    requires Queues(s, tids) && Later(s, s') && s'.table.fired == s.table.fired
    ensures Queues(s', tids)
  {
    forall i | 0 <= i < |tids|
      ensures s'.tasks[tids[i]].work == s.tasks[tids[i]].work
      ensures s'.table.made[s.table.fired[i]] == s.table.made[s.table.fired[i]]
    {
      assert TaskLater(s.tasks[tids[i]], s'.tasks[tids[i]]);
    }
  }

  lemma FireIfQueues(s: State, fd: nat, ev: Event, on: bool, tids: seq<nat>) returns (tids': seq<nat>)
    requires Core(s.table) && (on ==> CanFire(s, fd, ev)) && Queues(s, tids)
    ensures Core(FireIf(s, fd, ev, on).table) && Queues(FireIf(s, fd, ev, on), tids')
  {
    tids' := tids;
    if on {
      TriggerKeepsCore(s.table, fd, ev);
      tids' := tids + [|s.tasks|];
      var s', slot := Fire(s, fd, ev), SlotAt(s.table, fd, ev);
      assert s'.table.fired == s.table.fired + [slot.reg];
      assert s'.tasks[|s.tasks|].work == slot.work == s.table.made[slot.reg].work;
    }
  }

  lemma FireSetQueues(s: State, fd: nat, evs: set<Event>, tids: seq<nat>) returns (tids': seq<nat>)
    requires Core(s.table) && CanFireAll(s, fd, evs) && Queues(s, tids)
    ensures Queues(FireSet(s, fd, evs), tids')
  {
    var ctx := s.table.fds[fd];
    var s0 := s.(table := Ctl(s.table, RemoveOp(ctx, evs), fd, ctx.mask - evs));
    CtlKeepsCore(s.table, RemoveOp(ctx, evs), fd, ctx.mask - evs);
    tids' := FireIfQueues(s0, fd, READ, READ in evs, tids);
    tids' := FireIfQueues(FireIf(s0, fd, READ, READ in evs), fd, WRITE, WRITE in evs, tids');
  }

  lemma CancelQueues(s: State, fd: nat, ev: Event, ok: bool, tids: seq<nat>) returns (tids': seq<nat>)
    requires Core(s.table) && Queues(s, tids)
    ensures Queues(CancelIn(s, fd, ev, ok), tids')
  {
    tids' := tids;
    if CancelEvent(s.table, fd, ev, ok).rc.Ok? && CanFireAll(s, fd, {ev}) {
      tids' := FireSetQueues(s, fd, {ev}, tids);
    }
  }

  lemma LoopFiresNothing(s: State, w: nat, step: LoopStep)
    requires LoopEnabled(s, w, step)
    ensures LoopNext(s, w, step).table == s.table
  {}

  lemma CodeFiresNothing(s: State, w: nat, step: CodeStep)
    requires CodeEnabled(s, w, step) && SlotsMatch(s.table) && |s.table.fds| >= 32
    requires !step.Cancel? && !step.CancelFd?
    ensures CodeNext(s, w, step).table.fired == s.table.fired
  {}

  lemma IoFiresNothing(s: State, w: nat, step: IoStep)
    requires IoEnabled(s, w, step) && SlotsMatch(s.table) && |s.table.fds| >= 32 && !step.TimeoutCancel?
    ensures IoNext(s, w, step).table.fired == s.table.fired
  {}

  lemma IdleFiresNothing(s: State, w: nat, step: IdleStep)
    requires IdleEnabled(s, w, step) && SlotsMatch(s.table) && !step.Report?
    ensures IdleNext(s, w, step).table == s.table
  {
    if step.Flush? {
      FlushTable(MoveTo(s, w, Idling([])), s.workers[w].loc.cbs);
    }
  }

  lemma {:induction false} FlushTable(s: State, ts: seq<nat>)
    ensures PushTimeouts(s, ts).table == s.table
    decreases |ts|
  {
    if ts != [] {
      FlushTable(Push(s, CbWork(Timeout(ts[0])), None), ts[1..]);
    }
  }

  lemma CodeQueues(s: State, w: nat, step: CodeStep, tids: seq<nat>) returns (tids': seq<nat>)
    requires CodeEnabled(s, w, step) && TableInv(s.table) && Queues(s, tids)
    requires Later(s, CodeNext(s, w, step))
    ensures Queues(CodeNext(s, w, step), tids')
  {
    if step.Cancel? {
      tids' := CancelQueues(s, step.fd, step.ev, step.ok, tids);
    } else if step.CancelFd? && CancelFdIn(s, step.fd, step.ok) != s {
      tids' := FireSetQueues(s, step.fd, s.table.fds[step.fd].mask, tids);
    } else {
      tids' := tids;
      if !step.CancelFd? {
        CodeFiresNothing(s, w, step);
        SameFiredQueues(s, CodeNext(s, w, step), tids);
      }
    }
  }

  lemma IoQueues(s: State, w: nat, step: IoStep, tids: seq<nat>) returns (tids': seq<nat>)
    requires IoEnabled(s, w, step) && TableInv(s.table) && Queues(s, tids)
    requires Later(s, IoNext(s, w, step))
    ensures Queues(IoNext(s, w, step), tids')
  {
    if step.TimeoutCancel? {
      var call := s.calls[s.timers[s.fibers[FiberAt(s, w)].pc.timer].call];
      tids' := CancelQueues(SetPc(s, w, Ending), call.fd, call.ev, step.ok, tids);
    } else {
      tids' := tids;
      IoFiresNothing(s, w, step);
      SameFiredQueues(s, IoNext(s, w, step), tids);
    }
  }

  lemma IdleQueues(s: State, w: nat, step: IdleStep, tids: seq<nat>) returns (tids': seq<nat>)
    requires IdleEnabled(s, w, step) && TableInv(s.table) && Queues(s, tids)
    requires Later(s, IdleNext(s, w, step))
    ensures Queues(IdleNext(s, w, step), tids')
  {
    tids' := tids;
    if !step.Report? {
      IdleFiresNothing(s, w, step);
      SameFiredQueues(s, IdleNext(s, w, step), tids);
    } else if ReportIn(s, step.fd, step.reported, step.err, step.ok) != s {
      tids' := FireSetQueues(s, step.fd, RealEvents(s.table.fds[step.fd], step.reported, step.err), tids);
    }
  }

  /** A step that fires registrations queues their work, once each, and no other step fires any. */
  lemma StepQueues(s: State, step: Step, tids: seq<nat>) returns (tids': seq<nat>)
    requires Inv(s) && LostWasDropped(s) && Enabled(s, step) && Queues(s, tids)
    ensures Queues(Next(s, step), tids')
  {
    StepGoesForward(s, step);
    tids' := tids;
    match step {
      case Code(w, code) => tids' := CodeQueues(s, w, code, tids);
      case Io(w, io) => tids' := IoQueues(s, w, io, tids);
      case Idle(w, idle) => tids' := IdleQueues(s, w, idle, tids);
      case Loop(w, loop) =>
        LoopFiresNothing(s, w, loop);
        SameFiredQueues(s, Next(s, step), tids);
      case _ => SameFiredQueues(s, Next(s, step), tids);
    }
  }
}
