/**
  The fd table of the I/O manager as a value: per-fd event mask and the two event
  slots, the interest set the kernel was told about, the pending counter, and the
  history of registrations. Every operation is one section under the fd's lock
  (src/iomanager.cc); `ok` is the environment's answer to a legal epoll_ctl.
*/
module EventTable {
  import opened Base

  datatype Event = READ | WRITE

  datatype Callback = User(id: nat) | Timeout(timer: nat)

  /** What a slot or a queue entry resumes: a parked fiber or a callback. */
  datatype Work = FiberWork(fiber: nat) | CbWork(cb: Callback)

  /** `reg` numbers the addEvent call that filled the slot. */
  datatype Slot = Empty | Armed(work: Work, reg: nat)

  datatype FdCtx = FdCtx(mask: set<Event>, read: Slot, write: Slot) {
    function Get(ev: Event): Slot {
      if ev.READ? then read else write
    }

    function Put(ev: Event, newMask: set<Event>, slot: Slot): FdCtx {
      if ev.READ? then FdCtx(newMask, slot, write) else FdCtx(newMask, read, slot)
    }
  }

  const EMPTY_CTX := FdCtx({}, Empty, Empty)

  datatype Made = Made(work: Work, fd: nat, ev: Event)

  /** `made[r]` is what registration r asked for; `fired` and `dropped` list the
      registrations that were scheduled and those removed without scheduling. */
  datatype Table = Table(
    fds: seq<FdCtx>, kernel: map<nat, set<Event>>, pending: int,
    made: seq<Made>, fired: seq<nat>, dropped: seq<nat>)

  datatype Rc = Ok | Fail | Abort
  datatype Reply = Reply(table: Table, rc: Rc)

  datatype CtlOp = ADD | MOD | DEL

  predicate Legal(kernel: map<nat, set<Event>>, op: CtlOp, fd: nat) {
    if op.ADD? then fd !in kernel else fd in kernel
  }

  function Ctl(t: Table, op: CtlOp, fd: nat, interest: set<Event>): Table {
    t.(kernel := if op.DEL? then t.kernel - {fd} else t.kernel[fd := interest])
  }

  /** contextResize(fd * 1.5) when the table is too short for `fd`. */
  function NewSize(size: nat, fd: nat): nat {
    if fd < size then size else fd * 3 / 2
  }

  /** contextResize: new contexts are empty; a smaller size forgets contexts. */
  function Resize(t: Table, size: nat): Table {
    t.(fds := if size <= |t.fds| then t.fds[..size] else t.fds + seq(size - |t.fds|, _ => EMPTY_CTX))
  }

  /** The work of the fired registrations, in the order they were scheduled. */
  ghost function Scheduled(t: Table): seq<Work> {
    seq(|t.fired|, i requires 0 <= i < |t.fired| =>
      if t.fired[i] < |t.made| then t.made[t.fired[i]].work else CbWork(User(0)))
  }

  // ----- invariant

  function SlotAt(t: Table, fd: int, ev: Event): Slot {
    if 0 <= fd < |t.fds| then t.fds[fd].Get(ev) else Empty
  }

  ghost predicate SlotsMatch(t: Table) {
    forall fd, ev :: 0 <= fd < |t.fds| ==> (ev in t.fds[fd].mask <==> SlotAt(t, fd, ev).Armed?)
  }

  ghost predicate KernelMatches(t: Table) {
    && (forall fd :: fd in t.kernel ==> fd < |t.fds|)
    && (forall fd :: 0 <= fd < |t.fds| ==> (fd in t.kernel <==> t.fds[fd].mask != {}))
    && (forall fd :: 0 <= fd < |t.fds| && fd in t.kernel ==> t.kernel[fd] == t.fds[fd].mask)
  }

  /** Every event bit set in the table. */
  ghost function Bits(t: Table): set<(nat, Event)> {
    set fd: nat, ev: Event | fd < |t.fds| && ev in t.fds[fd].mask :: (fd, ev)
  }

  /** Registration `reg` still sits in the slot it was made for. */
  ghost predicate Registered(t: Table, reg: nat)
    requires reg < |t.made|
  {
    var m := t.made[reg];
    SlotAt(t, m.fd, m.ev) == Armed(m.work, reg)
  }

  ghost predicate SlotsFresh(t: Table) {
    forall fd: nat, ev :: SlotAt(t, fd, ev).Armed? ==>
      var slot := SlotAt(t, fd, ev);
      && slot.reg < |t.made| && t.made[slot.reg] == Made(slot.work, fd, ev)
      && slot.reg !in t.fired && slot.reg !in t.dropped
  }

  ghost predicate HistoryOk(t: Table) {
    && Distinct(t.fired) && Distinct(t.dropped)
    && (forall r :: r in t.fired ==> r < |t.made| && r !in t.dropped)
    && (forall r :: r in t.dropped ==> r < |t.made|)
    && (forall r: nat :: r < |t.made| ==> r in t.fired || r in t.dropped || Registered(t, r))
  }

  /** All of the invariant but the kernel's view, which lags behind inside a locked section. */
  ghost predicate Core(t: Table) {
    SlotsMatch(t) && t.pending == |Bits(t)| && SlotsFresh(t) && HistoryOk(t)
  }

  ghost predicate TableInv(t: Table) {
    Core(t) && KernelMatches(t) && |t.fds| >= 32
  }

  function InitTable(): Table {
    Table(seq(32, _ => EMPTY_CTX), map[], 0, [], [], [])
  }

  // ----- operations

  /** The slot of (fd, ev) can be triggered: its bit is set and it holds something. */
  predicate CanTrigger(t: Table, fd: nat, ev: Event) {
    fd < |t.fds| && ev in t.fds[fd].mask && t.fds[fd].Get(ev).Armed?
  }

  /** triggerEvent followed by the decrement: the slot's content is swapped out. */
  function Trigger(t: Table, fd: nat, ev: Event): Table
    requires CanTrigger(t, fd, ev)
  {
    var ctx := t.fds[fd];
    t.(fds := t.fds[fd := ctx.Put(ev, ctx.mask - {ev}, Empty)],
       pending := t.pending - 1,
       fired := t.fired + [ctx.Get(ev).reg])
  }

  /** resetContext after delEvent: the slot's content is discarded. */
  function Discard(t: Table, fd: nat, ev: Event): Table
    requires CanTrigger(t, fd, ev)
  {
    var ctx := t.fds[fd];
    t.(fds := t.fds[fd := ctx.Put(ev, ctx.mask - {ev}, Empty)],
       pending := t.pending - 1,
       dropped := t.dropped + [ctx.Get(ev).reg])
  }

  function AddOp(ctx: FdCtx): CtlOp {
    if ctx.mask == {} then ADD else MOD
  }

  function RemoveOp(ctx: FdCtx, gone: set<Event>): CtlOp {
    if ctx.mask - gone == {} then DEL else MOD
  }

  /** The register half of addEvent, once epoll_ctl succeeded. */
  function Register(t: Table, fd: nat, ev: Event, work: Work): Table
    requires fd < |t.fds|
  {
    var ctx := t.fds[fd];
    t.(fds := t.fds[fd := ctx.Put(ev, ctx.mask + {ev}, Armed(work, |t.made|))],
       pending := t.pending + 1,
       made := t.made + [Made(work, fd, ev)])
  }

  function AddEvent(t: Table, fd: nat, ev: Event, work: Work, ok: bool): Reply
    requires |t.fds| >= 32
  {
    AddIn(Resize(t, NewSize(|t.fds|, fd)), fd, ev, work, ok)
  }

  /** addEvent once the table is large enough. */
  function AddIn(g: Table, fd: nat, ev: Event, work: Work, ok: bool): Reply
    requires fd < |g.fds|
  {
    var ctx := g.fds[fd];
    if ev in ctx.mask then Reply(g, Abort)
    else if !ok || !Legal(g.kernel, AddOp(ctx), fd) then Reply(g, Fail)
    else
      var g1 := Ctl(g, AddOp(ctx), fd, ctx.mask + {ev});
      if ctx.Get(ev).Armed? then Reply(g1, Abort)
      else Reply(Register(g1, fd, ev, work), Ok)
  }

  function DelEvent(t: Table, fd: nat, ev: Event, ok: bool): Reply
    requires SlotsMatch(t)
  {
    if |t.fds| <= fd || ev !in t.fds[fd].mask then Reply(t, Fail)
    else
      var op := RemoveOp(t.fds[fd], {ev});
      if !ok || !Legal(t.kernel, op, fd) then Reply(t, Fail)
      else Reply(Discard(Ctl(t, op, fd, t.fds[fd].mask - {ev}), fd, ev), Ok)
  }

  function CancelEvent(t: Table, fd: nat, ev: Event, ok: bool): Reply
    requires SlotsMatch(t)
  {
    if |t.fds| <= fd || ev !in t.fds[fd].mask then Reply(t, Fail)
    else
      var op := RemoveOp(t.fds[fd], {ev});
      if !ok || !Legal(t.kernel, op, fd) then Reply(t, Fail)
      else Reply(Trigger(Ctl(t, op, fd, t.fds[fd].mask - {ev}), fd, ev), Ok)
  }

  function TriggerIf(t: Table, fd: nat, ev: Event, on: bool): Table
    requires on ==> CanTrigger(t, fd, ev)
  {
    if on then Trigger(t, fd, ev) else t
  }

  function CancelAll(t: Table, fd: nat, ok: bool): Reply
    requires SlotsMatch(t)
  {
    if |t.fds| <= fd || t.fds[fd].mask == {} then Reply(t, Fail)
    else if !ok || !Legal(t.kernel, DEL, fd) then Reply(t, Fail)
    else
      var t1 := TriggerIf(Ctl(t, DEL, fd, {}), fd, READ, READ in t.fds[fd].mask);
      var t2 := TriggerIf(t1, fd, WRITE, WRITE in t1.fds[fd].mask);
      if t2.fds[fd].mask != {} then Reply(t2, Abort) else Reply(t2, Ok)
  }

  /** EPOLLERR and EPOLLHUP stand for every registered event. */
  function RealEvents(ctx: FdCtx, reported: set<Event>, err: bool): set<Event> {
    if err then reported + ctx.mask else reported
  }

  /** One entry of the dispatch loop. A report may be stale by the time of the lock. */
  function Dispatch(t: Table, fd: nat, reported: set<Event>, err: bool, ok: bool): Reply
    requires SlotsMatch(t) && fd < |t.fds|
  {
    var mask, hit := t.fds[fd].mask, RealEvents(t.fds[fd], reported, err);
    if mask * hit == {} then Reply(t, Fail)
    else
      var op := RemoveOp(t.fds[fd], hit);
      if !ok || !Legal(t.kernel, op, fd) then Reply(t, Fail)
      else TriggerHits(Ctl(t, op, fd, mask - hit), fd, hit)
  }

  /** The two triggerEvent calls, each preceded by its assert. */
  function TriggerHits(t: Table, fd: nat, hit: set<Event>): Reply
    requires SlotsMatch(t) && fd < |t.fds|
  {
    var mask := t.fds[fd].mask;
    if READ in hit && READ !in mask then Reply(t, Abort)
    else
      var t1 := TriggerIf(t, fd, READ, READ in hit);
      if WRITE in hit && WRITE !in mask then Reply(t1, Abort)
      else Reply(TriggerIf(t1, fd, WRITE, WRITE in hit), Ok)
  }
}
