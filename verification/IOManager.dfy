/** IOManager's event operations on its mutable fd contexts (src/iomanager.cc). */
module IOManager {
  import opened Base
  import opened EventTable
  import opened EventTableInv

  /** The slots hold an EventContext; `events` is the mask. Which registration filled a slot is
      remembered beside it. */
  class FdContext {
    var events: set<Event>
    var read: Option<Work>
    var write: Option<Work>
    ghost var readReg: nat
    ghost var writeReg: nat

    constructor ()
      ensures View() == EMPTY_CTX
    {
      events, read, write := {}, None, None;
    }

    ghost function View(): FdCtx
      reads this
    {
      FdCtx(events, Slotted(read, readReg), Slotted(write, writeReg))
    }

    /** getContext(event) for reading; SetContext writes it. */
    function GetContext(ev: Event): Option<Work>
      reads this
    {
      if ev.READ? then read else write
    }

    method SetContext(ev: Event, newEvents: set<Event>, content: Option<Work>, ghost reg: nat)
      modifies this
      ensures View() == old(View()).Put(ev, newEvents, Slotted(content, reg))
    {
      events := newEvents;
      if ev.READ? {
        read, readReg := content, reg;
      } else {
        write, writeReg := content, reg;
      }
    }
  }

  function Slotted(content: Option<Work>, reg: nat): Slot {
    if content.Some? then Armed(content.value, reg) else Empty
  }

  ghost function Views(cs: seq<FdContext>): (v: seq<FdCtx>)
    reads cs
    ensures |v| == |cs| && forall i :: 0 <= i < |cs| ==> v[i] == cs[i].View()
  {
    seq(|cs|, i requires 0 <= i < |cs| reads cs => cs[i].View())
  }

  /** Triggering a slot schedules what it holds, after everything scheduled before. */
  lemma ScheduledGrows(t: Table, fd: nat, ev: Event)
    requires Core(t) && CanTrigger(t, fd, ev)
    ensures Scheduled(Trigger(t, fd, ev)) == Scheduled(t) + [SlotAt(t, fd, ev).work]
  {}

  lemma SameScheduled(t: Table, t': Table)
    requires t'.fired == t.fired && t.made <= t'.made && forall r :: r in t.fired ==> r < |t.made|
    ensures Scheduled(t') == Scheduled(t)
  {
    forall i | 0 <= i < |t.fired| ensures Scheduled(t')[i] == Scheduled(t)[i] {
      assert t.fired[i] in t.fired;
    }
  }

  lemma AddSchedulesNothing(t: Table, fd: nat, ev: Event, work: Work, ok: bool)
    requires TableInv(t)
    ensures var t' := EventTable.AddEvent(t, fd, ev, work, ok).table;
      TableInv(t') && Scheduled(t') == Scheduled(t)
  {
    AddEventKeepsInv(t, fd, ev, work, ok);
    SameScheduled(t, EventTable.AddEvent(t, fd, ev, work, ok).table);
  }

  lemma InitView(v: Table)
    requires v == Resize(Table([], map[], 0, [], [], []), 32)
    ensures v == InitTable() && TableInv(v) && Scheduled(v) == []
  {
    assert v.fds == InitTable().fds;
    InitInv();
  }

  /** One entry of an epoll_wait result, with the kernel's answer to the epoll_ctl it causes. */
  datatype Ready = Ready(fd: nat, events: set<Event>, err: bool, ok: bool)

  /** What a whole batch does to the table. */
  ghost function DispatchBatch(t: Table, batch: seq<Ready>): Reply
    decreases |batch|
  {
    if batch == [] then Reply(t, Ok)
    else if !SlotsMatch(t) || |t.fds| <= batch[0].fd then Reply(t, Abort)
    else
      var r := Dispatch(t, batch[0].fd, batch[0].events, batch[0].err, batch[0].ok);
      if r.rc.Abort? then r else DispatchBatch(r.table, batch[1..])
  }

  /** The report does not mix events that are live in the table with events that are not. */
  ghost predicate Unmixed(t: Table, r: Ready) {
    && r.fd < |t.fds|
    && (r.ok && Woken(t, r) != {} ==> r.events <= t.fds[r.fd].mask)
  }

  /** An error or a hang-up concerns every live event of the fd. */
  ghost function Woken(t: Table, r: Ready): set<Event>
    requires r.fd < |t.fds|
  {
    if r.err then t.fds[r.fd].mask else r.events * t.fds[r.fd].mask
  }

  /** A batch whose reports are each unmixed when they are handled. */
  ghost predicate NeverMixed(t: Table, batch: seq<Ready>)
    decreases |batch|
  {
    batch != [] ==>
      && SlotsMatch(t) && Unmixed(t, batch[0])
      && NeverMixed(Dispatch(t, batch[0].fd, batch[0].events, batch[0].err, batch[0].ok).table, batch[1..])
  }

  /** The batch trips no assert exactly when it is never mixed, whatever the kernel answers, and then
      leaves the table consistent. */
  lemma {:induction false} BatchAbortsExactly(t: Table, batch: seq<Ready>)
    requires TableInv(t) && forall i :: 0 <= i < |batch| ==> batch[i].fd < |t.fds|
    ensures DispatchBatch(t, batch).rc.Abort? <==> !NeverMixed(t, batch)
    ensures !DispatchBatch(t, batch).rc.Abort? ==> TableInv(DispatchBatch(t, batch).table)
    decreases |batch|
  {
    if batch != [] {
      var b := batch[0];
      DispatchKeepsInv(t, b.fd, b.events, b.err, b.ok);
      var r := Dispatch(t, b.fd, b.events, b.err, b.ok);
      if !r.rc.Abort? {
        BatchAbortsExactly(r.table, batch[1..]);
      }
    }
  }

  /** A dispatch leaves the other fds alone. */
  lemma DispatchOthers(t: Table, r: Ready, fd: nat)
    requires TableInv(t) && r.fd < |t.fds| && fd < |t.fds| && fd != r.fd
    ensures var t' := Dispatch(t, r.fd, r.events, r.err, r.ok).table;
      |t'.fds| == |t.fds| && t'.fds[fd] == t.fds[fd]
  {}

  /** epoll_wait names each fd once. Then a batch trips no assert exactly when none of its reports is
      mixed against the table as it is before the batch. */
  lemma {:induction false} DistinctBatchAborts(t: Table, batch: seq<Ready>)
    requires TableInv(t) && forall i :: 0 <= i < |batch| ==> batch[i].fd < |t.fds|
    requires forall i, j :: 0 <= i < j < |batch| ==> batch[i].fd != batch[j].fd
    ensures DispatchBatch(t, batch).rc.Abort? <==> exists i :: 0 <= i < |batch| && !Unmixed(t, batch[i])
    decreases |batch|
  {
    if batch != [] {
      var r, rest := batch[0], batch[1..];
      DispatchKeepsInv(t, r.fd, r.events, r.err, r.ok);
      var one := Dispatch(t, r.fd, r.events, r.err, r.ok);
      if !one.rc.Abort? {
        forall i | 0 < i < |batch|
          ensures batch[i].fd < |one.table.fds| && batch[i] == rest[i - 1]
          ensures Unmixed(one.table, batch[i]) <==> Unmixed(t, batch[i])
        {
          DispatchOthers(t, r, batch[i].fd);
        }
        DistinctBatchAborts(one.table, rest);
        assert Unmixed(t, r);
      }
    }
  }

  /** The report is about this event, which is live, and the kernel agrees. */
  ghost predicate Wakes(t: Table, r: Ready, fd: nat, ev: Event) {
    r.fd == fd && r.fd < |t.fds| && r.ok && ev in Woken(t, r)
  }

  lemma OneWakes(t: Table, r: Ready, fd: nat, ev: Event)
    requires TableInv(t) && r.fd < |t.fds| && Unmixed(t, r)
    ensures var one := Dispatch(t, r.fd, r.events, r.err, r.ok);
      && !one.rc.Abort? && TableInv(one.table) && |one.table.fds| == |t.fds|
      && SlotAt(one.table, fd, ev) == if Wakes(t, r, fd, ev) then Empty else SlotAt(t, fd, ev)
  {
    DispatchKeepsInv(t, r.fd, r.events, r.err, r.ok);
  }

  ghost predicate SomeWakes(t: Table, batch: seq<Ready>, fd: nat, ev: Event) {
    exists i :: 0 <= i < |batch| && Wakes(t, batch[i], fd, ev)
  }

  /** Handling one report changes nothing for reports about other fds. */
  lemma RestAgrees(t: Table, t': Table, batch: seq<Ready>, fd: nat, ev: Event)
    requires batch != [] && batch[0].fd < |t.fds| && |t'.fds| == |t.fds|
    requires forall fd: nat :: fd < |t.fds| && fd != batch[0].fd ==> t'.fds[fd] == t.fds[fd]
    requires forall i :: 0 <= i < |batch| ==> Unmixed(t, batch[i])
    requires forall i, j :: 0 <= i < j < |batch| ==> batch[i].fd != batch[j].fd
    ensures forall i :: 0 <= i < |batch[1..]| ==> Unmixed(t', batch[1..][i])
    ensures SomeWakes(t, batch, fd, ev) <==> Wakes(t, batch[0], fd, ev) || SomeWakes(t', batch[1..], fd, ev)
  {
    var rest := batch[1..];
    forall i | 0 <= i < |rest|
      ensures Unmixed(t', rest[i]) && (Wakes(t', rest[i], fd, ev) <==> Wakes(t, batch[i + 1], fd, ev))
    {
      assert Unmixed(t, batch[i + 1]) && t'.fds[rest[i].fd] == t.fds[rest[i].fd];
    }
    if SomeWakes(t, batch, fd, ev) && !Wakes(t, batch[0], fd, ev) {
      var i :| 0 <= i < |batch| && Wakes(t, batch[i], fd, ev);
      assert Wakes(t', rest[i - 1], fd, ev);
    }
    if SomeWakes(t', rest, fd, ev) {
      var i :| 0 <= i < |rest| && Wakes(t', rest[i], fd, ev);
      assert Wakes(t, batch[i + 1], fd, ev);
    }
  }

  /** A batch that names each fd once and is never mixed wakes exactly the live events of the table
      before the batch that its reports are about. */
  lemma {:induction false} DistinctBatchWakes(t: Table, batch: seq<Ready>, fd: nat, ev: Event)
    requires TableInv(t) && forall i :: 0 <= i < |batch| ==> Unmixed(t, batch[i])
    requires forall i, j :: 0 <= i < j < |batch| ==> batch[i].fd != batch[j].fd
    ensures SlotAt(DispatchBatch(t, batch).table, fd, ev) ==
            if SomeWakes(t, batch, fd, ev) then Empty else SlotAt(t, fd, ev)
    decreases |batch|
  {
    if batch != [] {
      var r, rest := batch[0], batch[1..];
      var t' := Dispatch(t, r.fd, r.events, r.err, r.ok).table;
      OneWakes(t, r, fd, ev);
      forall fd: nat | fd < |t.fds| && fd != r.fd ensures t'.fds[fd] == t.fds[fd] {
        DispatchOthers(t, r, fd);
      }
      RestAgrees(t, t', batch, fd, ev);
      DistinctBatchWakes(t', rest, fd, ev);
      assert DispatchBatch(t, batch) == DispatchBatch(t', rest);
    }
  }

  class Manager {
    var fdContexts: seq<FdContext>
    var kernel: map<nat, set<Event>>
    var pendingEventCount: int
    var tasks: seq<Work>
    // the history of registrations
    ghost var made: seq<Made>
    ghost var fired: seq<nat>
    ghost var dropped: seq<nat>

    ghost function View(): Table
      reads this, fdContexts
    {
      Table(Views(fdContexts), kernel, pendingEventCount, made, fired, dropped)
    }

    /** The contexts are distinct objects, the table is consistent, and what was scheduled is
        the work of the fired registrations, in order. */
    ghost predicate Valid()
      reads this, fdContexts
    {
      && DistinctContexts()
      && TableInv(View())
      && tasks == Scheduled(View())
    }

    constructor ()
      ensures Valid() && View() == InitTable() && fresh(fdContexts)
    {
      fdContexts, kernel, pendingEventCount, tasks := [], map[], 0, [];
      made, fired, dropped := [], [], [];
      new;
      assert View() == Table([], map[], 0, [], [], []);
      ContextResize(32);
      assert fdContexts[0..] == fdContexts;
      InitView(View());
    }

    method ContextResize(size: nat)
      requires forall i, j :: 0 <= i < j < |fdContexts| ==> fdContexts[i] != fdContexts[j]
      modifies this`fdContexts
      ensures |old(fdContexts)| <= size ==> old(fdContexts) <= fdContexts && fresh(fdContexts[|old(fdContexts)|..])
      ensures forall i, j :: 0 <= i < j < |fdContexts| ==> fdContexts[i] != fdContexts[j]
      ensures View() == Resize(old(View()), size)
    {
      if size <= |fdContexts| {
        fdContexts := fdContexts[..size];
        assert View().fds == Resize(old(View()), size).fds;
        return;
      }
      while |fdContexts| < size
        invariant |old(fdContexts)| <= |fdContexts| <= size
        invariant old(fdContexts) <= fdContexts && fresh(fdContexts[|old(fdContexts)|..])
        invariant forall i, j :: 0 <= i < j < |fdContexts| ==> fdContexts[i] != fdContexts[j]
        invariant forall i :: |old(fdContexts)| <= i < |fdContexts| ==> fdContexts[i].View() == EMPTY_CTX
      {
        var ctx := new FdContext();
        fdContexts := fdContexts + [ctx];
      }
      assert View().fds == Resize(old(View()), size).fds;
    }

    /** epoll_ctl on a legal call; `ok` is the kernel's answer. */
    method EpollCtl(op: CtlOp, fd: nat, interest: set<Event>, ok: bool) returns (failed: bool)
      modifies this`kernel
      ensures failed == (!ok || !Legal(old(kernel), op, fd))
      ensures kernel == if failed then old(kernel) else Ctl(old(View()), op, fd, interest).kernel
    {
      failed := !ok || (if op.ADD? then fd in kernel else fd !in kernel);
      if !failed {
        kernel := if op.DEL? then kernel - {fd} else kernel[fd := interest];
      }
    }

    ghost predicate DistinctContexts()
      reads this
    {
      forall i, j :: 0 <= i < j < |fdContexts| ==> fdContexts[i] != fdContexts[j]
    }

    /** The context of `fd`, after enlarging the table if it is too short. */
    method ContextOf(fd: nat) returns (ctx: FdContext)
      requires DistinctContexts() && |fdContexts| >= 32
      modifies this`fdContexts
      ensures DistinctContexts() && fd < |fdContexts| && ctx == fdContexts[fd]
      ensures old(fdContexts) <= fdContexts && fresh(fdContexts[|old(fdContexts)|..])
      ensures View() == Resize(old(View()), NewSize(|old(fdContexts)|, fd))
    {
      if |fdContexts| <= fd {
        ContextResize(fd * 3 / 2);
      }
      ctx := fdContexts[fd];
      assert View().fds == Resize(old(View()), NewSize(|old(fdContexts)|, fd)).fds;
    }

    /** Filling the slot once epoll_ctl succeeded. */
    method Register(fd: nat, ev: Event, work: Work)
      requires DistinctContexts() && fd < |fdContexts|
      modifies this`pendingEventCount, this`made, fdContexts[fd]
      ensures View() == EventTable.Register(old(View()), fd, ev, work)
    {
      pendingEventCount := pendingEventCount + 1;
      fdContexts[fd].SetContext(ev, fdContexts[fd].events + {ev}, Some(work), |made|);
      made := made + [Made(work, fd, ev)];
      assert View().fds == EventTable.Register(old(View()), fd, ev, work).fds;
    }

    /** triggerEvent and the decrement: the slot's content is moved to the task queue. */
    method TriggerEvent(fd: nat, ev: Event)
      requires DistinctContexts() && CanTrigger(View(), fd, ev) && Core(View()) && tasks == Scheduled(View())
      modifies this`pendingEventCount, this`fired, this`tasks, fdContexts[fd]
      ensures View() == Trigger(old(View()), fd, ev) && Core(View()) && tasks == Scheduled(View())
    {
      ghost var t := View();
      var ctx := fdContexts[fd];
      tasks := tasks + [ctx.GetContext(ev).value];
      fired := fired + [SlotAt(t, fd, ev).reg];
      ctx.SetContext(ev, ctx.events - {ev}, None, 0);
      pendingEventCount := pendingEventCount - 1;
      assert View() == Trigger(t, fd, ev) by {
        assert View().fds == Trigger(t, fd, ev).fds;
      }
      TriggerKeepsCore(t, fd, ev);
      ScheduledGrows(t, fd, ev);
    }

    /** resetContext after delEvent. */
    method ResetContext(fd: nat, ev: Event)
      requires DistinctContexts() && CanTrigger(View(), fd, ev)
      modifies this`pendingEventCount, this`dropped, fdContexts[fd]
      ensures View() == Discard(old(View()), fd, ev)
    {
      var ctx := fdContexts[fd];
      dropped := dropped + [SlotAt(View(), fd, ev).reg];
      ctx.SetContext(ev, ctx.events - {ev}, None, 0);
      pendingEventCount := pendingEventCount - 1;
      assert View().fds == Discard(old(View()), fd, ev).fds;
    }

    /** addEvent: registers `work` unless the event is live already (the assert) or the kernel
        refuses. */
    method AddEvent(fd: nat, ev: Event, work: Work, ok: bool) returns (rc: Rc)
      requires Valid()
      modifies this, fdContexts
      ensures Valid() && old(fdContexts) <= fdContexts && fresh(fdContexts[|old(fdContexts)|..])
      ensures EventTable.AddEvent(old(View()), fd, ev, work, ok) == Reply(View(), rc)
      ensures tasks == old(tasks)
    {
      ghost var r := EventTable.AddEvent(View(), fd, ev, work, ok);
      AddSchedulesNothing(View(), fd, ev, work, ok);
      rc := AddGrown(fd, ev, work, ok);
      assert View() == r.table;
    }

    method AddGrown(fd: nat, ev: Event, work: Work, ok: bool) returns (rc: Rc)
      requires DistinctContexts() && |fdContexts| >= 32
      modifies this`fdContexts, this`kernel, this`pendingEventCount, this`made, fdContexts
      ensures DistinctContexts() && old(fdContexts) <= fdContexts && fresh(fdContexts[|old(fdContexts)|..])
      ensures EventTable.AddEvent(old(View()), fd, ev, work, ok) == Reply(View(), rc)
    {
      var ctx := ContextOf(fd);
      assert ctx in old(fdContexts) || ctx in fdContexts[|old(fdContexts)|..];
      rc := AddTo(fd, ev, work, ok);
    }

    method AddTo(fd: nat, ev: Event, work: Work, ok: bool) returns (rc: Rc)
      requires DistinctContexts() && fd < |fdContexts|
      modifies this`kernel, this`pendingEventCount, this`made, fdContexts[fd]
      ensures AddIn(old(View()), fd, ev, work, ok) == Reply(View(), rc)
    {
      var ctx := fdContexts[fd];
      if ev in ctx.events {
        return Abort;
      }
      var failed := EpollCtl(if ctx.events == {} then ADD else MOD, fd, ctx.events + {ev}, ok);
      if failed {
        return Fail;
      }
      if ctx.GetContext(ev).Some? {
        return Abort;
      }
      Register(fd, ev, work);
      rc := Ok;
    }

    /** delEvent: removes the event without scheduling anything. */
    method DelEvent(fd: nat, ev: Event, ok: bool) returns (rc: Rc)
      requires Valid()
      modifies this, fdContexts
      ensures Valid() && fdContexts == old(fdContexts)
      ensures EventTable.DelEvent(old(View()), fd, ev, ok) == Reply(View(), rc)
      ensures tasks == old(tasks)
    {
      ghost var r := EventTable.DelEvent(View(), fd, ev, ok);
      DelEventKeepsInv(View(), fd, ev, ok);
      rc := DelFrom(fd, ev, ok);
      assert View() == r.table;
    }

    method DelFrom(fd: nat, ev: Event, ok: bool) returns (rc: Rc)
      requires DistinctContexts() && SlotsMatch(View())
      modifies this`kernel, this`pendingEventCount, this`dropped, fdContexts
      ensures EventTable.DelEvent(old(View()), fd, ev, ok) == Reply(View(), rc)
    {
      assert SlotAt(View(), fd, ev).Armed? <==> fd < |fdContexts| && ev in fdContexts[fd].events;
      if |fdContexts| <= fd || ev !in fdContexts[fd].events {
        return Fail;
      }
      var left := fdContexts[fd].events - {ev};
      var failed := EpollCtl(if left == {} then DEL else MOD, fd, left, ok);
      if failed {
        return Fail;
      }
      ResetContext(fd, ev);
      rc := Ok;
    }

    /** cancelEvent: removes the event and schedules its content. */
    method CancelEvent(fd: nat, ev: Event, ok: bool) returns (rc: Rc)
      requires Valid()
      modifies this, fdContexts
      ensures Valid() && fdContexts == old(fdContexts)
      ensures EventTable.CancelEvent(old(View()), fd, ev, ok) == Reply(View(), rc)
    {
      ghost var t := View();
      assert SlotAt(t, fd, ev).Armed? <==> fd < |fdContexts| && ev in fdContexts[fd].events;
      if |fdContexts| <= fd || ev !in fdContexts[fd].events {
        return Fail;
      }
      var left := fdContexts[fd].events - {ev};
      var failed := Narrow(fd, left, ok);
      if failed {
        return Fail;
      }
      TriggerEvent(fd, ev);
      rc := Ok;
      assert TableInv(View()) by {
        CancelEventKeepsInv(t, fd, ev, ok);
      }
    }

    /** epoll_ctl that leaves only `left` of an fd's events. */
    method Narrow(fd: nat, left: set<Event>, ok: bool) returns (failed: bool)
      requires Core(View()) && tasks == Scheduled(View())
      modifies this`kernel
      ensures Core(View()) && tasks == Scheduled(View())
      ensures var op := if left == {} then DEL else MOD;
        && failed == (!ok || !Legal(old(kernel), op, fd))
        && View() == if failed then old(View()) else Ctl(old(View()), op, fd, left)
    {
      ghost var t := View();
      var op := if left == {} then DEL else MOD;
      CtlKeepsCore(t, op, fd, left);
      failed := EpollCtl(op, fd, left, ok);
    }

    /** cancelAll: every live event of the fd is scheduled; the closing assert never fires. */
    method CancelAll(fd: nat, ok: bool) returns (rc: Rc)
      requires Valid()
      modifies this, fdContexts
      ensures Valid() && fdContexts == old(fdContexts) && !rc.Abort?
      ensures EventTable.CancelAll(old(View()), fd, ok) == Reply(View(), rc)
    {
      ghost var r := EventTable.CancelAll(View(), fd, ok);
      CancelAllConsumesMask(View(), fd, ok);
      rc := CancelIn(fd, ok);
      assert View() == r.table;
    }

    method CancelIn(fd: nat, ok: bool) returns (rc: Rc)
      requires DistinctContexts() && Core(View()) && tasks == Scheduled(View())
      modifies this`kernel, this`pendingEventCount, this`fired, this`tasks, fdContexts
      ensures EventTable.CancelAll(old(View()), fd, ok) == Reply(View(), rc)
      ensures tasks == Scheduled(View())
    {
      if |fdContexts| <= fd || fdContexts[fd].events == {} {
        return Fail;
      }
      var ctx := fdContexts[fd];
      var failed := Narrow(fd, {}, ok);
      if failed {
        return Fail;
      }
      assert SlotsMatch(View());
      if READ in ctx.events {
        assert SlotAt(View(), fd, READ).Armed?;
        TriggerEvent(fd, READ);
      }
      if WRITE in ctx.events {
        assert SlotAt(View(), fd, WRITE).Armed?;
        TriggerEvent(fd, WRITE);
      }
      rc := if ctx.events != {} then Abort else Ok;
    }

    /** One entry of the dispatch loop in idle. */
    method DispatchOne(fd: nat, reported: set<Event>, err: bool, ok: bool) returns (rc: Rc)
      requires DistinctContexts() && Core(View()) && tasks == Scheduled(View()) && fd < |fdContexts|
      modifies this`kernel, this`pendingEventCount, this`fired, this`tasks, fdContexts
      ensures !rc.Abort? ==> tasks == Scheduled(View())
      ensures Dispatch(old(View()), fd, reported, err, ok) == Reply(View(), rc)
    {
      var ctx := fdContexts[fd];
      ghost var t := View();
      var hit := if err then reported + ctx.events else reported;
      assert t.fds[fd] == ctx.View() && hit == RealEvents(t.fds[fd], reported, err);
      if ctx.events * hit == {} {
        return Fail;
      }
      var left := ctx.events - hit;
      assert left == t.fds[fd].mask - hit;
      var failed := Narrow(fd, left, ok);
      if failed {
        return Fail;
      }
      rc := TriggerAll(fd, hit);
    }

    method TriggerAll(fd: nat, hit: set<Event>) returns (rc: Rc)
      requires DistinctContexts() && fd < |fdContexts| && Core(View()) && tasks == Scheduled(View())
      modifies this`pendingEventCount, this`fired, this`tasks, fdContexts[fd]
      ensures TriggerHits(old(View()), fd, hit) == Reply(View(), rc)
      ensures rc.Ok? ==> Core(View()) && tasks == Scheduled(View())
    {
      var ctx := fdContexts[fd];
      if READ in hit {
        if READ !in ctx.events {
          return Abort;
        }
        assert SlotAt(View(), fd, READ).Armed?;
        TriggerEvent(fd, READ);
      }
      if WRITE in hit {
        if WRITE !in ctx.events {
          return Abort;
        }
        assert SlotAt(View(), fd, WRITE).Armed?;
        TriggerEvent(fd, WRITE);
      }
      rc := Ok;
    }

    method DispatchReady(r: Ready) returns (rc: Rc)
      requires Valid() && r.fd < |fdContexts|
      modifies this`kernel, this`pendingEventCount, this`fired, this`tasks, fdContexts
      ensures !rc.Abort? ==> Valid()
      ensures Dispatch(old(View()), r.fd, r.events, r.err, r.ok) == Reply(View(), rc)
    {
      ghost var after := Dispatch(View(), r.fd, r.events, r.err, r.ok);
      DispatchConsumes(View(), r.fd, r.events, r.err, r.ok);
      rc := DispatchOne(r.fd, r.events, r.err, r.ok);
      assert View() == after.table;
    }

    /** The dispatch loop of idle over one epoll_wait batch; it stops where an assert fires. */
    method DispatchAll(batch: seq<Ready>) returns (rc: Rc)
      requires Valid() && forall i :: 0 <= i < |batch| ==> batch[i].fd < |fdContexts|
      modifies this`kernel, this`pendingEventCount, this`fired, this`tasks, fdContexts
      ensures !rc.Abort? ==> Valid()
      ensures DispatchBatch(old(View()), batch) == Reply(View(), rc)
    {
      var i := 0;
      while i < |batch|
        invariant i <= |batch| && Valid()
        invariant DispatchBatch(old(View()), batch) == DispatchBatch(View(), batch[i..])
      {
        var r := batch[i];
        assert batch[i..][1..] == batch[i + 1..];
        var one := DispatchReady(r);
        if one.Abort? {
          return Abort;
        }
        i := i + 1;
      }
      rc := Ok;
    }
  }
}
