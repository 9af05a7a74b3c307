/** Runs of the timer manager: every order of the operations, over any clock readings. */
module TimerRuns {
  import opened Base
  import opened TimerSpec

  /** The manager and what an observer remembers: every timer made, how often each callback was
      handed out, which cancels succeeded, and the deadline reported last (none: no timer). */
  datatype World<!K> = World(
    clock: nat,
    s: State<K>,
    reported: Option<nat>,
    born: map<K, Entry>,
    fired: map<K, nat>,
    canceled: set<K>)

  /** The steps. A new timer and the expiry scan read the clock before they take the lock, so their
      reading may be old. */
  datatype Op<K> =
    | Tick(ms: nat)
    | Add(k: K, addr: nat, at: nat, period: nat, recurring: bool, cb: Option<nat>)
    | Cancel(k: K)
    | Refresh(k: K)
    | Reset(k: K, period: nat, fromNow: bool)
    | GetNext
    | Expire(at: nat)

  ghost predicate Enabled<K>(w: World<K>, op: Op<K>) {
    match op
    case Tick(ms) => w.clock + ms < Word
    case Add(k, _, at, _, _, _) => k !in w.born && at <= w.clock
    case Cancel(k) => k in w.born
    case Refresh(k) => k in w.born
    case Reset(k, _, _) => k in w.born
    case GetNext => true
    case Expire(at) => at <= w.clock
  }

  ghost function Reported<K>(bag: map<K, Entry>): (r: Option<nat>)
    ensures r.None? <==> bag == map[]
    ensures r.Some? ==> IsFirst(bag, r.value)
  {
    if bag == map[] then None
    else
      EarliestExists(bag);
      var next :| IsFirst(bag, next);
      Some(next)
  }

  lemma {:induction false} EarliestExists<K>(bag: map<K, Entry>)
    requires bag != map[]
    ensures exists next :: IsFirst(bag, next)
    decreases |bag|
  {
    var k :| k in bag;
    var rest := bag - {k};
    if rest == map[] {
      assert forall j :: j in bag && j != k ==> j in rest;
      assert IsFirst(bag, bag[k].next);
    } else {
      EarliestExists(rest);
      var n :| IsFirst(rest, n);
      var least := if bag[k].next < n then bag[k].next else n;
      forall j | j in bag
        ensures least <= bag[j].next
      {
        assert j != k ==> j in rest && rest[j] == bag[j];
      }
      assert IsFirst(bag, least);
    }
  }

  ghost function Next<K>(w: World<K>, op: Op<K>): World<K>
    requires Enabled(w, op)
  {
    match op
    case Tick(ms) => w.(clock := w.clock + ms)
    case Add(k, addr, at, period, recurring, cb) =>
      var e := Entry(addr, Plus64(at, period), period, recurring, cb);
      w.(s := Inserted(w.s, k, e), born := w.born[k := e], fired := w.fired[k := 0])
    case Cancel(k) =>
      w.(s := Canceled(w.s, k), canceled := if Armed(w.s, k) then w.canceled + {k} else w.canceled)
    case Refresh(k) => w.(s := Refreshed(w.s, k, w.clock))
    case Reset(k, period, fromNow) => w.(s := ResetTo(w.s, k, period, fromNow, w.clock))
    case GetNext => w.(s := w.s.(tickled := false), reported := Reported(w.s.bag))
    case Expire(at) => w.(s := Expired(w.s, at), fired := FiredMore(w, at))
  }

  /** The scan hands out one callback for each due timer. */
  ghost function FiredMore<K>(w: World<K>, at: nat): map<K, nat> {
    map k | k in w.fired ::
      if k in w.s.bag && Due(w.s.bag[k], at, Rollover(w.s.previous, at)) then w.fired[k] + 1 else w.fired[k]
  }

  ghost function Initial<K>(now: nat): World<K> {
    World(now, State(map[], false, now), None, map[], map[], {})
  }

  /** ops lead from w to w2. */
  ghost predicate Runs<K>(w: World<K>, ops: seq<Op<K>>, w2: World<K>)
    decreases |ops|
  {
    if ops == [] then w == w2 else Enabled(w, ops[0]) && Runs(Next(w, ops[0]), ops[1..], w2)
  }

  // Every timer accounted for

  /** The fate of timer k: waiting, or gone for exactly one reason. */
  ghost predicate Accounted<K>(w: World<K>, k: K)
    requires k in w.born
  {
    && k in w.fired
    && (k in w.s.bag ==>
          && w.s.bag[k].recurring == w.born[k].recurring && w.s.bag[k].cb == w.born[k].cb
          && k !in w.canceled && (!w.born[k].recurring ==> w.fired[k] == 0))
    && (k !in w.s.bag ==>
          if w.born[k].recurring then k in w.canceled
          else w.fired[k] == if k in w.canceled then 0 else 1)
  }

  ghost predicate AllAccounted<K>(w: World<K>) {
    && (forall k <- w.s.bag :: k in w.born) && (forall k <- w.canceled :: k in w.born)
    && (forall k :: k in w.born ==> Accounted(w, k))
  }

  lemma StepAccounts<K>(w: World<K>, op: Op<K>)
    requires AllAccounted(w) && Enabled(w, op)
    ensures AllAccounted(Next(w, op))
  {
    var w2 := Next(w, op);
    forall k | k in w2.born
      ensures Accounted(w2, k)
    {
      assert k in w.born ==> Accounted(w, k);
    }
  }

  lemma {:induction false} RunAccounts<K>(w: World<K>, ops: seq<Op<K>>, w2: World<K>)
    requires AllAccounted(w) && Runs(w, ops, w2)
    ensures AllAccounted(w2)
    decreases |ops|
  {
    if ops != [] {
      StepAccounts(w, ops[0]);
      RunAccounts(Next(w, ops[0]), ops[1..], w2);
    }
  }

  /** Over every run a one-shot callback is handed out at most once, and a timer is waiting, handed out
      or cancelled, never two of these and never none. */
  lemma OneShotFiresOnce<K>(now: nat, ops: seq<Op<K>>, w: World<K>, k: K)
    requires Runs(Initial(now), ops, w) && k in w.born && !w.born[k].recurring
    ensures k in w.fired && w.fired[k] <= 1
    ensures (k in w.s.bag) == (w.fired[k] == 0 && k !in w.canceled)
    ensures !(w.fired[k] == 1 && k in w.canceled)
  {
    RunAccounts(Initial(now), ops, w);
    assert Accounted(w, k);
  }

  /** After a successful cancel nothing is handed out, and the timer never waits again. */
  lemma {:induction false} NothingAfterCancel<K>(w: World<K>, ops: seq<Op<K>>, w2: World<K>, k: K)
    requires AllAccounted(w) && k in w.canceled && Runs(w, ops, w2)
    ensures k in w.fired && k in w2.fired && w2.fired[k] == w.fired[k]
    ensures k in w2.canceled && k !in w2.s.bag
    decreases |ops|
  {
    assert Accounted(w, k);
    if ops != [] {
      StepAccounts(w, ops[0]);
      NothingAfterCancel(Next(w, ops[0]), ops[1..], w2, k);
    }
  }

  // No lost wake-up

  /** While notifications are not muted, no timer is due before the deadline reported last. */
  ghost predicate Awake<K>(w: World<K>) {
    !w.s.tickled ==> forall k <- w.s.bag :: InTime(w, w.s.bag[k].next)
  }

  ghost predicate InTime<K>(w: World<K>, next: nat) {
    w.reported.Some? && w.reported.value <= next
  }

  /** The steps that put a timer before the reported deadline and tell nobody: refreshing an armed
      timer, or re-inserting a due recurring one, to a deadline that is too early. */
  ghost predicate Loses<K>(w: World<K>, op: Op<K>) {
    && !w.s.tickled
    && match op
       case Refresh(k) => Armed(w.s, k) && !InTime(w, Plus64(w.clock, w.s.bag[k].ms))
       case Expire(at) =>
         exists k :: k in w.s.bag && w.s.bag[k].recurring
                     && Due(w.s.bag[k], at, Rollover(w.s.previous, at))
                     && !InTime(w, Plus64(at, w.s.bag[k].ms))
       case _ => false
  }

  /** An insertion is either at the front, and notifies, or behind a timer that is not too early. */
  lemma InsertionWakes<K>(w: World<K>, s: State<K>, k: K, e: Entry)
    requires !s.tickled ==> forall j <- s.bag :: InTime(w, s.bag[j].next)
    ensures var s2 := Inserted(s, k, e);
      !s2.tickled ==> forall j <- s2.bag :: InTime(w, s2.bag[j].next)
  {
    var s2 := Inserted(s, k, e);
    if !s2.tickled {
      var j :| j in s2.bag && j != k && !Before(s2.bag[k], s2.bag[j]);
      assert s.bag[j] == s2.bag[j];
    }
  }

  lemma ResetWakes<K>(w: World<K>, op: Op<K>)
    requires Awake(w) && Enabled(w, op) && op.Reset?
    ensures Awake(Next(w, op))
  {
    if Armed(w.s, op.k) {
      InsertionWakes(w, Without(w.s, op.k), op.k, ResetEntry(w.s.bag[op.k], op.period, op.fromNow, w.clock));
    }
  }

  lemma RefreshWakes<K>(w: World<K>, op: Op<K>)
    requires Awake(w) && Enabled(w, op) && op.Refresh?
    ensures Awake(Next(w, op)) <==> !Loses(w, op)
  {
    var w2 := Next(w, op);
    if Armed(w.s, op.k) {
      assert op.k in w2.s.bag && w2.s.bag[op.k].next == Plus64(w.clock, w.s.bag[op.k].ms);
    }
  }

  lemma ExpireWakes<K>(w: World<K>, op: Op<K>)
    requires Awake(w) && Enabled(w, op) && op.Expire?
    ensures Awake(Next(w, op)) <==> !Loses(w, op)
  {
    var w2 := Next(w, op);
    var all := Rollover(w.s.previous, op.at);
    forall k | k in w.s.bag && Due(w.s.bag[k], op.at, all) && w.s.bag[k].recurring
      ensures k in w2.s.bag && w2.s.bag[k].next == Plus64(op.at, w.s.bag[k].ms)
    {}
  }

  /** One step, whatever the clock and the periods: it keeps every timer no earlier than the reported
      deadline exactly when it is not a losing one. Additions and resets never lose, overflow or not. */
  lemma StaysAwakeExactly<K>(w: World<K>, op: Op<K>)
    requires Awake(w) && Enabled(w, op)
    ensures Awake(Next(w, op)) <==> !Loses(w, op)
  {
    match op
    case Add(k, addr, at, period, recurring, cb) =>
      InsertionWakes(w, w.s, k, Entry(addr, Plus64(at, period), period, recurring, cb));
    case Refresh(_) => RefreshWakes(w, op);
    case Reset(_, _, _) => ResetWakes(w, op);
    case Expire(_) => ExpireWakes(w, op);
    case Tick(_) =>
    case Cancel(_) =>
    case GetNext =>
  }

  /** No step of the run loses. */
  ghost predicate NeverLoses<K>(w: World<K>, ops: seq<Op<K>>)
    decreases |ops|
  {
    ops == [] || (Enabled(w, ops[0]) && !Loses(w, ops[0]) && NeverLoses(Next(w, ops[0]), ops[1..]))
  }

  /** Every state the run goes through is awake. */
  ghost predicate AwakeAllAlong<K>(w: World<K>, ops: seq<Op<K>>)
    decreases |ops|
  {
    Awake(w) && (ops == [] || (Enabled(w, ops[0]) && AwakeAllAlong(Next(w, ops[0]), ops[1..])))
  }

  lemma {:induction false} RunStaysAwake<K>(w: World<K>, ops: seq<Op<K>>, w2: World<K>)
    requires Awake(w) && Runs(w, ops, w2)
    ensures AwakeAllAlong(w, ops) <==> NeverLoses(w, ops)
    ensures NeverLoses(w, ops) ==> Awake(w2)
    decreases |ops|
  {
    if ops != [] {
      StaysAwakeExactly(w, ops[0]);
      if !Loses(w, ops[0]) {
        RunStaysAwake(Next(w, ops[0]), ops[1..], w2);
      }
    }
  }

  /** Over every run of the manager, no wake-up is ever lost exactly when no step is a losing one. */
  lemma NoLostWakeUpExactly<K>(now: nat, ops: seq<Op<K>>, w: World<K>)
    requires Runs(Initial(now), ops, w)
    ensures AwakeAllAlong(Initial(now), ops) <==> NeverLoses(Initial(now), ops)
    ensures NeverLoses(Initial(now), ops) ==> Awake(w)
  {
    RunStaysAwake(Initial(now), ops, w);
  }

  // Clocks that only move forward never lose

  /** The refreshed deadline and those of due recurring timers stay within 64 bits, and the expiry scan
      does not take its reading for a clock that was set back. */
  ghost predicate Calm<K>(w: World<K>, op: Op<K>) {
    match op
    case Refresh(k) => Armed(w.s, k) ==> w.clock + w.s.bag[k].ms < Word
    case Expire(at) =>
      && !Rollover(w.s.previous, at)
      && forall k <- w.s.bag :: w.s.bag[k].recurring && w.s.bag[k].next <= at ==> at + w.s.bag[k].ms < Word
    case _ => true
  }

  /** The period of a pending timer began at some moment that has passed, even if its deadline wrapped. */
  ghost predicate Started(e: Entry, clock: nat) {
    e.next < Word && Minus64(e.next, e.ms) <= clock
  }

  ghost predicate AllStarted<K>(w: World<K>) {
    w.clock < Word && forall k <- w.s.bag :: Started(w.s.bag[k], w.clock)
  }

  lemma StartedAt(start: nat, ms: nat)
    requires start < Word
    ensures Plus64(start, ms) < Word && Minus64(Plus64(start, ms), ms) == start
  {
    var q := (start + ms) / Word;
    assert start + ms == q * Word + Plus64(start, ms);
    assert Plus64(start, ms) - ms == start + (-q) * Word;
    ModShift(start, -q);
  }

  lemma ModShift(a: nat, q: int)
    requires a < Word
    ensures (a + q * Word) % Word == a
  {}

  lemma StepStarts<K>(w: World<K>, op: Op<K>)
    requires AllStarted(w) && Enabled(w, op)
    ensures AllStarted(Next(w, op))
  {
    match op
    case Add(_, _, at, period, _, _) => StartedAt(at, period);
    case Refresh(k) =>
      if Armed(w.s, k) {
        StartedAt(w.clock, w.s.bag[k].ms);
      }
    case Reset(k, period, fromNow) =>
      if Armed(w.s, k) {
        var e := w.s.bag[k];
        StartedAt(if fromNow then w.clock else Minus64(e.next, e.ms), period);
      }
    case Expire(at) =>
      var w2 := Next(w, op);
      forall k | k in w2.s.bag
        ensures Started(w2.s.bag[k], w2.clock)
      {
        StartedAt(at, w.s.bag[k].ms);
      }
    case _ =>
  }

  /** A timer whose period began in the past is due at most one period from now. */
  lemma DueWithinPeriod(e: Entry, clock: nat)
    requires Started(e, clock) && clock + e.ms < Word
    ensures e.next <= clock + e.ms
  {
    if e.next >= e.ms {
      assert Minus64(e.next, e.ms) == e.next - e.ms;
    }
  }

  lemma CalmNeverLoses<K>(w: World<K>, op: Op<K>)
    requires AllStarted(w) && Awake(w) && Enabled(w, op) && Calm(w, op)
    ensures !Loses(w, op)
  {
    if op.Refresh? && Armed(w.s, op.k) {
      DueWithinPeriod(w.s.bag[op.k], w.clock);
    }
  }

  ghost predicate CalmRun<K>(w: World<K>, ops: seq<Op<K>>, w2: World<K>)
    decreases |ops|
  {
    if ops == [] then w == w2
    else Enabled(w, ops[0]) && Calm(w, ops[0]) && CalmRun(Next(w, ops[0]), ops[1..], w2)
  }

  lemma {:induction false} CalmRunNeverLoses<K>(w: World<K>, ops: seq<Op<K>>, w2: World<K>)
    requires AllStarted(w) && Awake(w) && CalmRun(w, ops, w2)
    ensures Runs(w, ops, w2) && NeverLoses(w, ops)
    decreases |ops|
  {
    if ops != [] {
      CalmNeverLoses(w, ops[0]);
      StaysAwakeExactly(w, ops[0]);
      StepStarts(w, ops[0]);
      CalmRunNeverLoses(Next(w, ops[0]), ops[1..], w2);
    }
  }

  /** No lost wake-up: in every state a calm run reaches with the flag clear, each pending timer is due
      no earlier than the deadline last reported, and if none was reported nothing is pending. */
  lemma NoLostWakeUp<K>(now: nat, ops: seq<Op<K>>, w: World<K>)
    requires now < Word && CalmRun(Initial(now), ops, w)
    ensures !w.s.tickled ==> forall k <- w.s.bag :: w.reported.Some? && w.reported.value <= w.s.bag[k].next
  {
    CalmRunNeverLoses(Initial(now), ops, w);
    NoLostWakeUpExactly(now, ops, w);
  }

  // Losing steps are reachable

  lemma OnlyOne<K>(bag: map<K, Entry>, k: K, next: nat)
    requires k in bag && (forall j <- bag :: j == k) && bag[k].next == next
    ensures Reported(bag) == Some(next)
  {
    assert k in bag && Reported(bag).Some?;
    var first := Reported(bag).value;
    assert IsFirst(bag, first);
    var j :| j in bag && bag[j].next == first;
    assert j == k;
  }

  /** With a period close to 2^64, refreshing wraps to a deadline long before the reported one. */
  lemma WrapLosesWakeUp() returns (ops: seq<Op<int>>, w: World<int>)
    ensures Runs(Initial(0), ops, w)
    ensures !w.s.tickled && 7 in w.s.bag && w.reported == Some(Word - 1) && w.s.bag[7].next == 4
  {
    var w0 := Initial<int>(0);
    var add, ask, tick, again := Add(7, 0, 0, Word - 1, false, Some(0)), GetNext, Tick(5), Refresh(7);
    var w1 := Next(w0, add);
    var w2 := Next(w1, ask);
    OnlyOne(w1.s.bag, 7, Word - 1);
    var w3 := Next(w2, tick);
    w := Next(w3, again);
    ops := [add, ask, tick, again];
    assert Runs(w, [], w);
    assert [again][1..] == [] && Runs(w3, [again], w);
    assert [tick, again][1..] == [again] && Runs(w2, [tick, again], w);
    assert [ask, tick, again][1..] == [tick, again] && Runs(w1, [ask, tick, again], w);
    assert ops[1..] == [ask, tick, again];
  }

  /** Under an hour after time zero any older reading counts as a rollover, and puts a recurring timer
      back before the reported deadline. */
  lemma EarlyRolloverLosesWakeUp() returns (ops: seq<Op<int>>, w: World<int>)
    ensures Runs(Initial(10), ops, w)
    ensures !w.s.tickled && 7 in w.s.bag && w.reported == Some(1010) && w.s.bag[7].next == 1005
  {
    var w0 := Initial<int>(10);
    var add, ask, late := Add(7, 0, 10, 1000, true, Some(0)), GetNext, Expire(5);
    var w1 := Next(w0, add);
    var w2 := Next(w1, ask);
    OnlyOne(w1.s.bag, 7, 1010);
    RolloverMeans(10, 5);
    w := Next(w2, late);
    ops := [add, ask, late];
    assert Runs(w, [], w);
    assert [late][1..] == [] && Runs(w2, [late], w);
    assert [ask, late][1..] == [late] && Runs(w1, [ask, late], w);
    assert ops[1..] == [ask, late];
  }
}
