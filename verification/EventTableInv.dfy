/** Every operation on the fd table keeps its invariant. */
module EventTableInv {
  import opened Base
  import opened EventTable

  lemma InitInv()
    ensures TableInv(InitTable())
  {
    assert Bits(InitTable()) == {};
  }

  ghost predicate Removed(t: Table, t': Table, fd: nat, ev: Event)
    requires CanTrigger(t, fd, ev)
  {
    && t'.fds == t.fds[fd := t.fds[fd].Put(ev, t.fds[fd].mask - {ev}, Empty)]
    && t'.made == t.made && t'.pending == t.pending - 1
  }

  lemma RemovedSlots(t: Table, t': Table, fd: nat, ev: Event)
    requires CanTrigger(t, fd, ev) && Removed(t, t', fd, ev)
    ensures forall fd', ev' ::
      SlotAt(t', fd', ev') == if fd' == fd && ev' == ev then Empty else SlotAt(t, fd', ev')
    ensures |Bits(t')| == |Bits(t)| - 1
    ensures SlotsMatch(t) ==> SlotsMatch(t')
  {
    assert Bits(t') == Bits(t) - {(fd, ev)};
    assert (fd, ev) in Bits(t);
  }

  /** triggerEvent: the registration in the slot, and no other, becomes the next one fired; its slot is
      empty afterwards and every other slot is as before. */
  lemma TriggerKeepsCore(t: Table, fd: nat, ev: Event)
    requires Core(t) && CanTrigger(t, fd, ev)
    ensures var t', reg := Trigger(t, fd, ev), SlotAt(t, fd, ev).reg;
      && Core(t') && t'.made == t.made && t'.dropped == t.dropped && t'.fired == t.fired + [reg]
      && Registered(t, reg) && reg !in t.fired && !Registered(t', reg)
      && forall fd', ev' :: SlotAt(t', fd', ev') == if fd' == fd && ev' == ev then Empty else SlotAt(t, fd', ev')
  {
    var t' := Trigger(t, fd, ev);
    RemovedSlots(t, t', fd, ev);
    var reg := SlotAt(t, fd, ev).reg;
    assert t'.fired[|t.fired|] == reg;
    assert forall r :: r in t'.fired <==> r in t.fired || r == reg;
    forall r: nat | r < |t.made| ensures r in t'.fired || r in t.dropped || Registered(t', r) {
      assert r in t.fired || r in t.dropped || Registered(t, r);
    }
  }

  lemma DiscardKeepsCore(t: Table, fd: nat, ev: Event)
    requires Core(t) && CanTrigger(t, fd, ev)
    ensures Core(Discard(t, fd, ev))
  {
    var t' := Discard(t, fd, ev);
    RemovedSlots(t, t', fd, ev);
    var reg := SlotAt(t, fd, ev).reg;
    assert t'.dropped[|t.dropped|] == reg;
    assert forall r :: r in t'.dropped <==> r in t.dropped || r == reg;
    forall r: nat | r < |t.made| ensures r in t.fired || r in t'.dropped || Registered(t', r) {
      assert r in t.fired || r in t.dropped || Registered(t, r);
    }
  }

  lemma RegisteredSlots(t: Table, fd: nat, ev: Event, work: Work)
    requires fd < |t.fds| && ev !in t.fds[fd].mask
    ensures forall fd', ev' ::
              SlotAt(Register(t, fd, ev, work), fd', ev') ==
              if fd' == fd && ev' == ev then Armed(work, |t.made|) else SlotAt(t, fd', ev')
    ensures |Bits(Register(t, fd, ev, work))| == |Bits(t)| + 1
  {
    assert Bits(Register(t, fd, ev, work)) == Bits(t) + {(fd, ev)};
    assert (fd, ev) !in Bits(t);
  }

  lemma RegisterKeepsCore(t: Table, fd: nat, ev: Event, work: Work)
    requires Core(t) && fd < |t.fds| && ev !in t.fds[fd].mask
    ensures Core(Register(t, fd, ev, work))
  {
    var t' := Register(t, fd, ev, work);
    RegisteredSlots(t, fd, ev, work);
    forall r: nat | r < |t'.made| ensures r in t'.fired || r in t'.dropped || Registered(t', r) {
      assert r < |t.made| ==> r in t.fired || r in t.dropped || Registered(t, r);
    }
  }

  /** Only the kernel's view or trailing empty contexts differ. */
  lemma SameSlotsKeepCore(t: Table, t': Table)
    requires Core(t) && t'.(kernel := t.kernel, fds := t.fds) == t
    requires forall fd, ev :: SlotAt(t', fd, ev) == SlotAt(t, fd, ev)
    requires SlotsMatch(t') && Bits(t') == Bits(t)
    ensures Core(t')
  {
    forall r: nat | r < |t'.made| ensures r in t'.fired || r in t'.dropped || Registered(t', r) {
      assert r in t.fired || r in t.dropped || Registered(t, r);
    }
  }

  lemma CtlKeepsCore(t: Table, op: CtlOp, fd: nat, interest: set<Event>)
    requires Core(t)
    ensures Core(Ctl(t, op, fd, interest))
  {
    assert Bits(Ctl(t, op, fd, interest)) == Bits(t);
    SameSlotsKeepCore(t, Ctl(t, op, fd, interest));
  }

  lemma ResizedSlots(t: Table, size: nat)
    requires SlotsMatch(t) && forall fd :: size <= fd < |t.fds| ==> t.fds[fd].mask == {}
    ensures forall fd, ev :: SlotAt(Resize(t, size), fd, ev) == SlotAt(t, fd, ev)
    ensures Bits(Resize(t, size)) == Bits(t) && SlotsMatch(Resize(t, size))
  {
    var t' := Resize(t, size);
    forall fd, ev
      ensures SlotAt(t', fd, ev) == SlotAt(t, fd, ev)
    {
      if size <= fd < |t.fds| {
        assert !SlotAt(t, fd, ev).Armed?;
      }
    }
    forall fd | 0 <= fd < |t'.fds|
      ensures t'.fds[fd] == if fd < |t.fds| then t.fds[fd] else EMPTY_CTX
    {}
  }

  /** Changing the size keeps the table consistent exactly when no context with a live event is
      forgotten, as it can be when a second grower asks for less than the table already has. */
  lemma ResizeKeepsInv(t: Table, size: nat)
    requires TableInv(t) && size >= 32
    ensures TableInv(Resize(t, size)) <==> forall fd :: size <= fd < |t.fds| ==> t.fds[fd].mask == {}
    ensures TableInv(Resize(t, size)) ==> forall fd, ev :: SlotAt(Resize(t, size), fd, ev) == SlotAt(t, fd, ev)
  {
    var t' := Resize(t, size);
    if forall fd :: size <= fd < |t.fds| ==> t.fds[fd].mask == {} {
      ResizedSlots(t, size);
      SameSlotsKeepCore(t, t');
      assert KernelMatches(t') by {
        forall fd | 0 <= fd < |t'.fds|
          ensures t'.fds[fd] == if fd < |t.fds| then t.fds[fd] else EMPTY_CTX
        {}
      }
    } else {
      var fd :| size <= fd < |t.fds| && t.fds[fd].mask != {};
      assert fd in t'.kernel;
    }
  }

  // ----- the operations

  /** Restores the kernel's view of `fd` when the rest of it was right all along. */
  lemma KernelSettles(t: Table, t': Table, fd: nat)
    requires KernelMatches(t) && fd < |t.fds| == |t'.fds|
    requires forall fd' :: 0 <= fd' < |t.fds| && fd' != fd ==> t'.fds[fd'] == t.fds[fd']
    requires t'.kernel == if t'.fds[fd].mask == {} then t.kernel - {fd} else t.kernel[fd := t'.fds[fd].mask]
    ensures KernelMatches(t')
  {}

  /** The part of addEvent after epoll_ctl succeeded. */
  lemma RegisterKeepsInv(g: Table, fd: nat, ev: Event, work: Work)
    requires TableInv(g) && fd < |g.fds| && ev !in g.fds[fd].mask
    ensures TableInv(Register(Ctl(g, AddOp(g.fds[fd]), fd, g.fds[fd].mask + {ev}), fd, ev, work))
  {
    var ctx := g.fds[fd];
    var g1 := Ctl(g, AddOp(ctx), fd, ctx.mask + {ev});
    var g2 := Register(g1, fd, ev, work);
    assert Core(g2) by {
      CtlKeepsCore(g, AddOp(ctx), fd, ctx.mask + {ev});
      RegisterKeepsCore(g1, fd, ev, work);
    }
    assert KernelMatches(g2) by {
      KernelSettles(g, g2, fd);
    }
  }

  /** addEvent in a table that is large enough. */
  lemma AddInKeepsInv(g: Table, fd: nat, ev: Event, work: Work, ok: bool)
    requires TableInv(g) && fd < |g.fds|
    ensures var r := AddIn(g, fd, ev, work, ok);
      && TableInv(r.table) && fd < |r.table.fds|
      && (r.rc.Abort? <==> SlotAt(g, fd, ev).Armed?)
      && (r.rc.Ok? <==> !SlotAt(g, fd, ev).Armed? && ok)
      && r.table.made == (if r.rc.Ok? then g.made + [Made(work, fd, ev)] else g.made)
      && r.table.fired == g.fired && r.table.dropped == g.dropped
      && forall fd', ev' :: SlotAt(r.table, fd', ev') ==
           if r.rc.Ok? && fd' == fd && ev' == ev then Armed(work, |g.made|) else SlotAt(g, fd', ev')
  {
    assert ev in g.fds[fd].mask <==> SlotAt(g, fd, ev).Armed?;
    if ev !in g.fds[fd].mask && ok {
      var g1 := Ctl(g, AddOp(g.fds[fd]), fd, g.fds[fd].mask + {ev});
      assert AddIn(g, fd, ev, work, ok) == Reply(Register(g1, fd, ev, work), Ok);
      RegisterKeepsInv(g, fd, ev, work);
      RegisteredSlots(g1, fd, ev, work);
    }
  }

  /** addEvent: it aborts exactly on a live event, fails exactly when the kernel refuses a
      legal call, and otherwise fills the slot and nothing else. */
  lemma AddEventKeepsInv(t: Table, fd: nat, ev: Event, work: Work, ok: bool)
    requires TableInv(t)
    ensures var r := AddEvent(t, fd, ev, work, ok);
      && TableInv(r.table)
      && (r.rc.Abort? <==> SlotAt(t, fd, ev).Armed?)
      && (r.rc.Ok? <==> !SlotAt(t, fd, ev).Armed? && ok)
      && r.table.made == (if r.rc.Ok? then t.made + [Made(work, fd, ev)] else t.made)
      && r.table.fired == t.fired && r.table.dropped == t.dropped
      && fd < |r.table.fds| == (if fd < |t.fds| then |t.fds| else fd * 3 / 2)
      && forall fd', ev' :: SlotAt(r.table, fd', ev') ==
           if r.rc.Ok? && fd' == fd && ev' == ev then Armed(work, |t.made|) else SlotAt(t, fd', ev')
  {
    var size := NewSize(|t.fds|, fd);
    ResizeKeepsInv(t, size);
    AddInKeepsInv(Resize(t, size), fd, ev, work, ok);
  }

  /** delEvent: succeeds exactly when the event is live and the kernel agrees, and then
      discards that slot and nothing else. */
  lemma DelEventKeepsInv(t: Table, fd: nat, ev: Event, ok: bool)
    requires TableInv(t)
    ensures var r := DelEvent(t, fd, ev, ok);
      && TableInv(r.table) && !r.rc.Abort?
      && (r.rc.Ok? <==> SlotAt(t, fd, ev).Armed? && ok)
      && r.table.made == t.made && r.table.fired == t.fired
      && r.table.dropped == (if r.rc.Ok? then t.dropped + [SlotAt(t, fd, ev).reg] else t.dropped)
      && forall fd', ev' :: SlotAt(r.table, fd', ev') ==
           if r.rc.Ok? && fd' == fd && ev' == ev then Empty else SlotAt(t, fd', ev')
  {
    if SlotAt(t, fd, ev).Armed? && ok {
      var ctx := t.fds[fd];
      var t1 := Ctl(t, RemoveOp(ctx, {ev}), fd, ctx.mask - {ev});
      var t2 := Discard(t1, fd, ev);
      assert Core(t2) by {
        CtlKeepsCore(t, RemoveOp(ctx, {ev}), fd, ctx.mask - {ev});
        DiscardKeepsCore(t1, fd, ev);
      }
      RemovedSlots(t1, t2, fd, ev);
      assert KernelMatches(t2) by {
        KernelSettles(t, t2, fd);
      }
    }
  }

  /** cancelEvent: like delEvent, but the slot's content is scheduled. */
  lemma CancelEventKeepsInv(t: Table, fd: nat, ev: Event, ok: bool)
    requires TableInv(t)
    ensures var r := CancelEvent(t, fd, ev, ok);
      && TableInv(r.table) && !r.rc.Abort?
      && (r.rc.Ok? <==> SlotAt(t, fd, ev).Armed? && ok)
      && r.table.made == t.made && r.table.dropped == t.dropped
      && r.table.fired == (if r.rc.Ok? then t.fired + [SlotAt(t, fd, ev).reg] else t.fired)
      && forall fd', ev' :: SlotAt(r.table, fd', ev') ==
           if r.rc.Ok? && fd' == fd && ev' == ev then Empty else SlotAt(t, fd', ev')
  {
    if SlotAt(t, fd, ev).Armed? && ok {
      var ctx := t.fds[fd];
      var t1 := Ctl(t, RemoveOp(ctx, {ev}), fd, ctx.mask - {ev});
      var t2 := Trigger(t1, fd, ev);
      assert Core(t2) by {
        CtlKeepsCore(t, RemoveOp(ctx, {ev}), fd, ctx.mask - {ev});
        TriggerKeepsCore(t1, fd, ev);
      }
      RemovedSlots(t1, t2, fd, ev);
      assert KernelMatches(t2) by {
        KernelSettles(t, t2, fd);
      }
    }
  }

  predicate CanTriggerAll(t: Table, fd: nat, evs: set<Event>) {
    (READ in evs ==> CanTrigger(t, fd, READ)) && (WRITE in evs ==> CanTrigger(t, fd, WRITE))
  }

  /** Triggering a set of events of one fd: what both cancelAll and the dispatch loop do. */
  function TriggerSet(t: Table, fd: nat, evs: set<Event>): Table
    requires CanTriggerAll(t, fd, evs)
  {
    TriggerIf(TriggerIf(t, fd, READ, READ in evs), fd, WRITE, WRITE in evs)
  }

  /** The registrations a trigger set consumes, in the order READ, WRITE. */
  function RegsOf(t: Table, fd: nat, evs: set<Event>): seq<nat>
    requires CanTriggerAll(t, fd, evs)
  {
    (if READ in evs then [SlotAt(t, fd, READ).reg] else []) +
    (if WRITE in evs then [SlotAt(t, fd, WRITE).reg] else [])
  }

  lemma TriggerSetKeepsCore(t: Table, fd: nat, evs: set<Event>)
    requires Core(t) && fd < |t.fds| && CanTriggerAll(t, fd, evs)
    ensures var t' := TriggerSet(t, fd, evs);
      && Core(t') && |t'.fds| == |t.fds| && t'.fds[fd].mask == t.fds[fd].mask - evs
      && t'.kernel == t.kernel && t'.made == t.made && t'.dropped == t.dropped
      && t'.fired == t.fired + RegsOf(t, fd, evs)
      && (forall fd', ev' ::
            SlotAt(t', fd', ev') == if fd' == fd && ev' in evs then Empty else SlotAt(t, fd', ev'))
      && (forall fd' :: 0 <= fd' < |t.fds| && fd' != fd ==> t'.fds[fd'] == t.fds[fd'])
  {
    var t1 := TriggerIf(t, fd, READ, READ in evs);
    if READ in evs {
      TriggerKeepsCore(t, fd, READ);
      RemovedSlots(t, t1, fd, READ);
    }
    if WRITE in evs {
      TriggerKeepsCore(t1, fd, WRITE);
      RemovedSlots(t1, Trigger(t1, fd, WRITE), fd, WRITE);
    }
  }

  /** Removing `evs` from the kernel's interest and then triggering them. */
  function Consume(t: Table, fd: nat, evs: set<Event>): Table
    requires fd < |t.fds| && CanTriggerAll(t, fd, evs)
  {
    TriggerSet(Ctl(t, RemoveOp(t.fds[fd], evs), fd, t.fds[fd].mask - evs), fd, evs)
  }

  lemma ConsumeKeepsInv(t: Table, fd: nat, evs: set<Event>)
    requires TableInv(t) && fd < |t.fds| && CanTriggerAll(t, fd, evs)
    ensures TableInv(Consume(t, fd, evs))
  {
    var ctx := t.fds[fd];
    var t0 := Ctl(t, RemoveOp(ctx, evs), fd, ctx.mask - evs);
    CtlKeepsCore(t, RemoveOp(ctx, evs), fd, ctx.mask - evs);
    TriggerSetKeepsCore(t0, fd, evs);
    KernelSettles(t, TriggerSet(t0, fd, evs), fd);
  }

  /** cancelAll consumes the whole mask or does nothing. */
  lemma CancelAllConsumesMask(t: Table, fd: nat, ok: bool)
    requires TableInv(t)
    ensures var r := CancelAll(t, fd, ok);
      && TableInv(r.table) && !r.rc.Abort?
      && (r.rc.Ok? <==> fd < |t.fds| && t.fds[fd].mask != {} && ok)
      && (r.rc.Ok? ==> CanTriggerAll(t, fd, t.fds[fd].mask) && r.table == Consume(t, fd, t.fds[fd].mask))
      && (r.rc.Fail? ==> r.table == t)
  {
    if fd < |t.fds| && t.fds[fd].mask != {} && ok {
      var mask := t.fds[fd].mask;
      assert forall ev :: ev in mask ==> SlotAt(t, fd, ev).Armed?;
      CancelAllConsumes(t, fd);
      ConsumeKeepsInv(t, fd, mask);
    }
  }

  lemma CancelAllConsumes(t: Table, fd: nat)
    requires SlotsMatch(t) && fd < |t.fds| && t.fds[fd].mask != {} && CanTriggerAll(t, fd, t.fds[fd].mask)
    requires Legal(t.kernel, DEL, fd)
    ensures CancelAll(t, fd, true) == Reply(Consume(t, fd, t.fds[fd].mask), Ok)
  {
    var mask := t.fds[fd].mask;
    assert mask - mask == {};
    assert forall ev :: ev in mask ==> ev == READ || ev == WRITE;
    assert mask - {READ} - {WRITE} == {};
  }

  lemma TriggerHitsConsumes(t: Table, fd: nat, hit: set<Event>)
    requires SlotsMatch(t) && fd < |t.fds|
    ensures var r := TriggerHits(t, fd, hit);
      && (r.rc.Ok? <==> hit <= t.fds[fd].mask) && (r.rc.Abort? <==> !(hit <= t.fds[fd].mask))
      && (r.rc.Ok? ==> CanTriggerAll(t, fd, hit) && r.table == TriggerSet(t, fd, hit))
  {
    var mask := t.fds[fd].mask;
    assert hit <= mask <==> (READ in hit ==> READ in mask) && (WRITE in hit ==> WRITE in mask);
    assert forall ev :: ev in mask ==> SlotAt(t, fd, ev).Armed?;
  }

  /** A dispatch aborts, or consumes what it hits, or does nothing. */
  lemma DispatchConsumes(t: Table, fd: nat, reported: set<Event>, err: bool, ok: bool)
    requires TableInv(t) && fd < |t.fds|
    ensures var r := Dispatch(t, fd, reported, err, ok);
      var mask, hit := t.fds[fd].mask, RealEvents(t.fds[fd], reported, err);
      && (r.rc.Abort? <==> ok && hit * mask != {} && !(hit <= mask))
      && (r.rc.Ok? <==> ok && hit * mask != {} && hit <= mask)
      && (!r.rc.Abort? ==> TableInv(r.table))
      && (r.rc.Fail? ==> r.table == t)
      && (r.rc.Ok? ==> CanTriggerAll(t, fd, hit) && r.table == Consume(t, fd, hit))
  {
    var mask, hit := t.fds[fd].mask, RealEvents(t.fds[fd], reported, err);
    var r := Dispatch(t, fd, reported, err, ok);
    assert mask * hit == hit * mask;
    if hit * mask != {} && ok {
      var t0 := Ctl(t, RemoveOp(t.fds[fd], hit), fd, mask - hit);
      assert r == TriggerHits(t0, fd, hit);
      TriggerHitsConsumes(t0, fd, hit);
      if hit <= mask {
        assert CanTriggerAll(t, fd, hit) && r.table == Consume(t, fd, hit);
        assert TableInv(r.table) by {
          ConsumeKeepsInv(t, fd, hit);
        }
      }
    } else {
      assert r == Reply(t, Fail);
    }
  }

  /** Events of one fd were woken: their slots are empty, their registrations follow the others that
      fired, READ before WRITE, and the rest of the table is as it was. */
  ghost predicate Woke(t: Table, t': Table, fd: nat, evs: set<Event>) {
    && TableInv(t') && |t'.fds| == |t.fds| && t'.made == t.made && t'.dropped == t.dropped
    && (forall ev <- evs :: SlotAt(t, fd, ev).Armed?)
    && (forall fd': nat, ev ::
          SlotAt(t', fd', ev) == if fd' == fd && ev in evs then Empty else SlotAt(t, fd', ev))
    && t'.fired == t.fired
         + (if READ in evs then [SlotAt(t, fd, READ).reg] else [])
         + (if WRITE in evs then [SlotAt(t, fd, WRITE).reg] else [])
  }

  lemma ConsumeWakes(t: Table, fd: nat, evs: set<Event>)
    requires TableInv(t) && fd < |t.fds| && evs <= t.fds[fd].mask
    ensures CanTriggerAll(t, fd, evs) && Woke(t, Consume(t, fd, evs), fd, evs)
  {
    assert forall ev <- evs :: SlotAt(t, fd, ev).Armed?;
    assert TableInv(Consume(t, fd, evs)) by {
      ConsumeKeepsInv(t, fd, evs);
    }
    var ctx := t.fds[fd];
    var t0 := Ctl(t, RemoveOp(ctx, evs), fd, ctx.mask - evs);
    assert Core(t0) by {
      CtlKeepsCore(t, RemoveOp(ctx, evs), fd, ctx.mask - evs);
    }
    TriggerSetKeepsCore(t0, fd, evs);
    assert RegsOf(t0, fd, evs) == RegsOf(t, fd, evs);
  }

  /** cancelAll: wakes every live event of the fd, and the assert at the end never fires. */
  lemma CancelAllKeepsInv(t: Table, fd: nat, ok: bool)
    requires TableInv(t)
    ensures var r := CancelAll(t, fd, ok);
      && !r.rc.Abort? && (r.rc.Ok? <==> ok && exists ev :: SlotAt(t, fd, ev).Armed?)
      && (r.rc.Ok? ==> Woke(t, r.table, fd, set ev | ev in {READ, WRITE} && SlotAt(t, fd, ev).Armed?))
      && (r.rc.Fail? ==> r.table == t)
  {
    CancelAllConsumesMask(t, fd, ok);
    if fd < |t.fds| {
      var mask := t.fds[fd].mask;
      assert mask == set ev | ev in {READ, WRITE} && SlotAt(t, fd, ev).Armed?;
      if mask != {} {
        var ev :| ev in mask;
        assert SlotAt(t, fd, ev).Armed?;
      }
      ConsumeWakes(t, fd, mask);
    }
  }

  /** One dispatch. EPOLLERR and EPOLLHUP wake every live event of the fd, any other report the live
      events it names; READ is scheduled before WRITE. An assert fires exactly when that
      wakes something while the report also names an event that is no longer live. */
  lemma DispatchKeepsInv(t: Table, fd: nat, reported: set<Event>, err: bool, ok: bool)
    requires TableInv(t) && fd < |t.fds|
    ensures var r, mask := Dispatch(t, fd, reported, err, ok), t.fds[fd].mask;
      var woken := if err then mask else reported * mask;
      && (r.rc.Abort? <==> ok && woken != {} && !(reported <= mask))
      && (r.rc.Ok? <==> ok && woken != {} && reported <= mask)
      && (r.rc.Ok? ==> Woke(t, r.table, fd, woken))
      && (r.rc.Fail? ==> r.table == t)
  {
    var mask, hit := t.fds[fd].mask, RealEvents(t.fds[fd], reported, err);
    var woken := if err then mask else reported * mask;
    DispatchConsumes(t, fd, reported, err, ok);
    assert hit * mask == woken && (hit <= mask <==> reported <= mask);
    if hit <= mask {
      assert hit == woken;
      ConsumeWakes(t, fd, hit);
    }
  }

  /** Every successful addEvent is consumed exactly once: it is still in its slot, or was
      dropped once, or was scheduled once, and never two of these. */
  lemma ConsumedExactlyOnce(t: Table, reg: nat)
    requires TableInv(t) && reg < |t.made|
    ensures multiset(t.fired)[reg] + multiset(t.dropped)[reg] + (if Registered(t, reg) then 1 else 0) == 1
  {
    CountDistinct(t.fired, reg);
    CountDistinct(t.dropped, reg);
  }

  lemma {:induction false} CountDistinct(s: seq<nat>, x: nat)
    requires Distinct(s)
    ensures multiset(s)[x] == if x in s then 1 else 0
  {
    if s != [] {
      var n := |s| - 1;
      CountDistinct(s[..n], x);
      assert s == s[..n] + [s[n]];
    }
  }
}
