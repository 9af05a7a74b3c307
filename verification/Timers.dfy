/** The timer manager of src/timer.cc: an ordered set of timer objects, keyed by fields that change
    only while an object is outside it, against the plain bag. */
module Timers {
  import opened Base
  import opened TimerSpec

  class Timer {
    const addr: nat
    const recurring: bool
    var ms: nat
    var next: nat
    var cb: Option<nat>

    constructor (addr: nat, ms: nat, cb: Option<nat>, recurring: bool, now: nat)
      ensures this.addr == addr && this.recurring == recurring
      ensures this.ms == ms && this.cb == cb && next == Plus64(now, ms)
    {
      this.addr, this.recurring, this.ms, this.cb := addr, recurring, ms, cb;
      next := Plus64(now, ms);
    }

    function Entry(): Entry
      reads this
    {
      TimerSpec.Entry(addr, next, ms, recurring, cb)
    }
  }

  ghost predicate Sorted(ts: seq<Timer>)
    reads ts
  {
    forall i, j :: 0 <= i < j < |ts| ==> Before(ts[i].Entry(), ts[j].Entry())
  }

  lemma ErasedSorted(ts: seq<Timer>, i: nat)
    requires Sorted(ts) && i < |ts|
    ensures Sorted(ts[..i] + ts[i + 1..])
  {
    var r := ts[..i] + ts[i + 1..];
    forall a, b | 0 <= a < b < |r|
      ensures Before(r[a].Entry(), r[b].Entry())
    {
      var a', b' := if a < i then a else a + 1, if b < i then b else b + 1;
      assert r[a] == ts[a'] && r[b] == ts[b'];
    }
  }

  lemma ErasedMembers(ts: seq<Timer>, i: nat, t: Timer)
    requires Sorted(ts) && i < |ts|
    ensures t in ts[..i] + ts[i + 1..] <==> t in ts && t != ts[i]
  {
    var r := ts[..i] + ts[i + 1..];
    if t in r {
      var j :| 0 <= j < |r| && r[j] == t;
      var j' := if j < i then j else j + 1;
      assert ts[j'] == t;
      assert Before(ts[if j' < i then j' else i].Entry(), ts[if j' < i then i else j'].Entry());
    }
    if t in ts && t != ts[i] {
      var j :| 0 <= j < |ts| && ts[j] == t;
      assert r[if j < i then j else j - 1] == t;
    }
  }

  /** Putting a timer where the comparator wants it. */
  lemma InsertedSorted(ts: seq<Timer>, i: nat, t: Timer)
    requires Sorted(ts) && i <= |ts|
    requires forall j :: 0 <= j < i ==> Before(ts[j].Entry(), t.Entry())
    requires forall j :: i <= j < |ts| ==> Before(t.Entry(), ts[j].Entry())
    ensures Sorted(ts[..i] + [t] + ts[i..])
  {
    var r := ts[..i] + [t] + ts[i..];
    forall a, b | 0 <= a < b < |r|
      ensures Before(r[a].Entry(), r[b].Entry())
    {
      var a', b' := if a < i then a else a - 1, if b < i then b else b - 1;
      assert r[a] == if a == i then t else ts[a'];
      assert r[b] == if b == i then t else ts[b'];
    }
  }

  lemma InsertedMembers(ts: seq<Timer>, i: nat, t: Timer, u: Timer)
    requires i <= |ts|
    ensures u in ts[..i] + [t] + ts[i..] <==> u == t || u in ts
  {
    assert ts == ts[..i] + ts[i..];
  }

  class TimerManager {
    var timers: seq<Timer>
    var tickled: bool
    var previous: nat
    // the timers that somebody still refers to
    ghost var made: set<Timer>

    /** The set is sorted by the comparator, and addresses tell objects apart. */
    ghost predicate Ordered()
      reads `timers, `made, made
    {
      && (forall t <- timers :: t in made)
      && Sorted(timers)
      && (forall a, b | a in made && b in made && a != b :: a.addr != b.addr)
    }

    /** A timer has its callback only while it is in the set. */
    ghost predicate Valid()
      reads `timers, `made, made
    {
      Ordered() && forall t <- made :: t.cb.Some? ==> t in timers
    }

    ghost function Bag(): map<Timer, Entry>
      reads `timers, timers
    {
      map t | t in timers :: t.Entry()
    }

    ghost function View(): State<Timer>
      reads this, timers
    {
      State(Bag(), tickled, previous)
    }

    constructor (now: nat)
      ensures Valid() && View() == State(map[], false, now) && made == {}
    {
      timers, tickled, previous, made := [], false, now, {};
    }

    /** lower_bound: the first timer not before the key. */
    method LowerBound(key: Entry) returns (i: nat)
      requires Ordered()
      ensures i <= |timers|
      ensures forall j :: 0 <= j < i ==> Before(timers[j].Entry(), key)
      ensures forall j :: i <= j < |timers| ==> !Before(timers[j].Entry(), key)
    {
      i := 0;
      while i < |timers| && Before(timers[i].Entry(), key)
        invariant i <= |timers|
        invariant forall j :: 0 <= j < i ==> Before(timers[j].Entry(), key)
      {
        i := i + 1;
      }
    }

    /** find: for a timer that has its callback it always hits. */
    method Find(t: Timer) returns (i: nat)
      requires Ordered() && t in made
      ensures i <= |timers| && (i < |timers| <==> t in timers)
      ensures i < |timers| ==> timers[i] == t
    {
      i := LowerBound(t.Entry());
      if i < |timers| && Before(t.Entry(), timers[i].Entry()) {
        i := |timers|;
      }
    }

    method Erase(i: nat)
      requires Ordered() && i < |timers|
      modifies this`timers
      ensures Ordered() && Bag() == old(Bag()) - {old(timers[i])}
      ensures forall t :: t in timers <==> t in old(timers) && t != old(timers[i])
    {
      ErasedSorted(timers, i);
      forall t ensures t in timers[..i] + timers[i + 1..] <==> t in timers && t != timers[i] {
        ErasedMembers(timers, i, t);
      }
      timers := timers[..i] + timers[i + 1..];
    }

    /** insert of a timer that is not in the set. */
    method Insert(t: Timer) returns (front: bool)
      requires Ordered() && t in made && t !in timers
      modifies this`timers
      ensures Ordered() && Bag() == old(Bag())[t := t.Entry()]
      ensures forall u :: u in timers <==> u == t || u in old(timers)
      ensures front <==> AtFront(Bag(), t)
    {
      var i := LowerBound(t.Entry());
      FitsAt(t, i);
      timers := timers[..i] + [t] + timers[i..];
      front := i == 0;
      FrontExactly(t, i);
    }

    /** Where the search ends is where a timer from outside the set belongs. */
    lemma FitsAt(t: Timer, i: nat)
      requires Ordered() && t in made && t !in timers && i <= |timers|
      requires forall j :: 0 <= j < i ==> Before(timers[j].Entry(), t.Entry())
      requires forall j :: i <= j < |timers| ==> !Before(timers[j].Entry(), t.Entry())
      ensures var ts := timers[..i] + [t] + timers[i..];
        Sorted(ts) && forall u :: u in ts <==> u == t || u in timers
    {
      forall j | i <= j < |timers|
        ensures Before(t.Entry(), timers[j].Entry())
      {
        assert timers[j] in timers;
        BeforeIsTotal(t.Entry(), timers[j].Entry(), t.Entry());
      }
      InsertedSorted(timers, i, t);
      forall u ensures u in timers[..i] + [t] + timers[i..] <==> u == t || u in timers {
        InsertedMembers(timers, i, t, u);
      }
    }

    /** First in the sorted sequence is first in the bag. */
    lemma FrontExactly(t: Timer, i: nat)
      requires Sorted(timers) && i < |timers| && timers[i] == t
      ensures i == 0 <==> AtFront(Bag(), t)
    {
      if i == 0 {
        forall u | u in Bag() && u != t
          ensures Before(Bag()[t], Bag()[u])
        {
          var j :| 0 <= j < |timers| && timers[j] == u;
        }
      } else {
        assert timers[0] in Bag() && Before(timers[0].Entry(), t.Entry());
      }
    }

    /** addTimer under the lock: says whether to wake the waiter. */
    method Place(t: Timer) returns (notify: bool)
      requires Ordered() && t in made && t !in timers
      modifies this`timers, this`tickled
      ensures Ordered() && View() == Inserted(old(View()), t, t.Entry())
      ensures forall u :: u in timers <==> u == t || u in old(timers)
      ensures notify <==> !old(tickled) && AtFront(Bag(), t)
      ensures tickled <==> old(tickled) || notify
    {
      var front := Insert(t);
      notify := front && !tickled;
      if notify {
        tickled := true;
      }
    }

    /** addTimer: the deadline counts from a clock reading taken before the lock. */
    method AddTimer(addr: nat, ms: nat, cb: Option<nat>, recurring: bool, now: nat) returns (t: Timer, notify: bool)
      requires Valid() && forall u <- made :: u.addr != addr
      modifies this
      ensures Valid() && fresh(t) && made == old(made) + {t}
      ensures View() == Inserted(old(View()), t, Entry(addr, Plus64(now, ms), ms, recurring, cb))
      ensures Bag() == old(Bag())[t := Entry(addr, Plus64(now, ms), ms, recurring, cb)] && previous == old(previous)
      ensures notify <==> !old(tickled) && AtFront(Bag(), t)
      ensures tickled <==> old(tickled) || notify
    {
      ghost var was := View();
      t := new Timer(addr, ms, cb, recurring, now);
      made := made + {t};
      assert View() == was && t.Entry() == Entry(addr, Plus64(now, ms), ms, recurring, cb);
      notify := Place(t);
    }

    /** The last reference to a timer outside the set goes away; its address may be used again. The
        set itself keeps what is in it alive. */
    ghost method Forget(t: Timer)
      requires Valid() && t !in timers
      modifies this`made
      ensures Valid() && View() == old(View()) && made == old(made) - {t}
    {
      made := made - {t};
    }

    /** Takes a timer out of the set: the search always hits. */
    method Remove(t: Timer)
      requires Ordered() && t in made && t in timers
      modifies this`timers
      ensures Ordered() && Bag() == old(Bag()) - {t}
      ensures forall u :: u in timers <==> u in old(timers) && u != t
    {
      var i := Find(t);
      Erase(i);
    }

    /** Changing a key outside the set leaves the set alone. */
    method Rekey(t: Timer, ms: nat, next: nat)
      requires Ordered() && t in made && t !in timers
      modifies t`ms, t`next
      ensures Ordered() && View() == old(View()) && t.ms == ms && t.next == next
    {
      t.ms, t.next := ms, next;
    }

    /** Timer::cancel. */
    method Cancel(t: Timer) returns (ok: bool)
      requires Valid() && t in made
      modifies this`timers, t`cb
      ensures Valid() && View() == Canceled(old(View()), t) && ok == Armed(old(View()), t)
      ensures Bag() == if ok then old(Bag()) - {t} else old(Bag())
      ensures tickled == old(tickled) && previous == old(previous)
    {
      if t.cb.None? {
        return false;
      }
      ghost var was := Bag();
      t.cb := None;
      assert Bag() - {t} == was - {t};
      Remove(t);
      return true;
    }

    /** Timer::refresh: a new deadline, a full period from now; nobody is told. */
    method Refresh(t: Timer, now: nat) returns (ok: bool)
      requires Valid() && t in made
      modifies this`timers, t`next, t`ms
      ensures Valid() && View() == Refreshed(old(View()), t, now) && ok == Armed(old(View()), t)
      ensures Bag() == if ok then old(Bag())[t := old(t.Entry()).(next := Plus64(now, old(t.ms)))] else old(Bag())
      ensures tickled == old(tickled) && previous == old(previous)
    {
      if t.cb.None? {
        return false;
      }
      ghost var was := Bag();
      Remove(t);
      Rekey(t, t.ms, Plus64(now, t.ms));
      PutBack(was, t, t.Entry());
      var front := Insert(t);
      return true;
    }

    /** Timer::reset: a new period, from now or from where the old one started. */
    method Reset(t: Timer, ms: nat, fromNow: bool, now: nat) returns (ok: bool, notify: bool)
      requires Valid() && t in made
      modifies this`timers, this`tickled, t`next, t`ms
      ensures Valid() && View() == ResetTo(old(View()), t, ms, fromNow, now)
      ensures ok <==> Armed(old(View()), t) || (ms == old(t.ms) && !fromNow)
      ensures Armed(old(View()), t) && (fromNow || ms != old(t.ms)) ==>
        Bag() == old(Bag())[t := Entry(t.addr,
          if fromNow then Plus64(now, ms) else Plus64(Minus64(old(t.next), old(t.ms)), ms), ms, t.recurring, t.cb)]
      ensures !Armed(old(View()), t) || (ms == old(t.ms) && !fromNow) ==> Bag() == old(Bag()) && !notify
      ensures notify ==> !old(tickled) && t in Bag() && AtFront(Bag(), t)
      ensures (tickled <==> old(tickled) || notify) && previous == old(previous)
      ensures Armed(old(View()), t) && (fromNow || ms != old(t.ms)) && AtFront(Bag(), t) ==> tickled
    {
      if ms == t.ms && !fromNow {
        return true, false;
      }
      if t.cb.None? {
        return false, false;
      }
      notify := Rearm(t, ms, if fromNow then now else Minus64(t.next, t.ms));
      return true, notify;
    }

    /** The new start and period of a timer in the set: it is taken out and put where it belongs. */
    method Rearm(t: Timer, ms: nat, start: nat) returns (notify: bool)
      requires Valid() && t in timers
      modifies this`timers, this`tickled, t`next, t`ms
      ensures Valid() && View() == Inserted(Without(old(View()), t), t, t.Entry())
      ensures t.next == Plus64(start, ms) && t.ms == ms
      ensures Bag() == old(Bag())[t := t.Entry()]
      ensures (notify <==> !old(tickled) && AtFront(Bag(), t)) && (tickled <==> old(tickled) || notify)
    {
      ghost var was := View();
      Remove(t);
      Rekey(t, ms, Plus64(start, ms));
      assert View() == Without(was, t);
      PutBack(was.bag, t, t.Entry());
      notify := Place(t);
    }

    /** getNextTimer: how long until the first deadline; unmutes notifications. */
    method GetNextTimer(now: nat) returns (r: nat)
      requires Valid()
      modifies this`tickled
      ensures Valid() && View() == old(View()).(tickled := false)
      ensures timers == [] ==> r == Word - 1
      ensures timers != [] ==> IsFirst(Bag(), timers[0].next)
      ensures timers != [] ==> r == if now >= timers[0].next then 0 else timers[0].next - now
    {
      tickled := false;
      if |timers| == 0 {
        return Word - 1;
      }
      assert timers[0] in timers && Bag()[timers[0]].next == timers[0].next;
      r := if now >= timers[0].next then 0 else timers[0].next - now;
    }

    method HasTimer() returns (r: bool)
      ensures r <==> Bag() != map[]
    {
      r := |timers| > 0;
      assert r ==> timers[0] in Bag();
    }

    /** Where the timers that are not due begin: lower_bound of a probe with the reading as its
        deadline and any address, then past the timers due this very millisecond. */
    method Split(now: nat, probe: nat, rollover: bool) returns (it: nat)
      requires Ordered()
      ensures it <= |timers|
      ensures forall i :: 0 <= i < it ==> Due(timers[i].Entry(), now, rollover)
      ensures forall i :: it <= i < |timers| ==> !Due(timers[i].Entry(), now, rollover)
    {
      if rollover {
        return |timers|;
      }
      it := LowerBound(Entry(probe, now, 0, false, None));
      while it < |timers| && timers[it].next == now
        invariant it <= |timers|
        invariant forall i :: 0 <= i < it ==> timers[i].next <= now
        invariant forall i :: it <= i < |timers| ==> timers[i].next >= now
      {
        it := it + 1;
      }
    }

    method DetectClockRollover(now: nat) returns (rollover: bool)
      modifies this`previous
      ensures previous == now && rollover == Rollover(old(previous), now)
    {
      rollover := now < previous && now < Minus64(previous, Hour);
      previous := now;
    }

    method SweepOne(t: Timer, now: nat)
      requires Ordered() && t in made && t !in timers
      modifies this`timers, t
      ensures Ordered() && t.ms == old(t.ms)
      ensures forall u :: u in timers <==> u in old(timers) || (u == t && t.recurring)
      ensures if t.recurring then t.cb == old(t.cb) && t.next == Plus64(now, t.ms) else t.cb.None?
    {
      if t.recurring {
        Rekey(t, t.ms, Plus64(now, t.ms));
        var front := Insert(t);
      } else {
        t.cb := None;
      }
    }

    /** The loop over the expired timers, which are already outside the set: hands out each callback;
        a recurring timer comes back a period from now, another forgets its callback. */
    method Sweep(expired: seq<Timer>, now: nat) returns (cbs: seq<Option<nat>>)
      requires Ordered() && Distinct(expired) && forall t <- expired :: t in made && t !in timers
      modifies this`timers, expired
      ensures Ordered()
      ensures |cbs| == |expired| && forall i :: 0 <= i < |cbs| ==> cbs[i] == old(expired[i].cb)
      ensures forall t :: t in timers <==> t in old(timers) || (t in expired && t.recurring)
      ensures forall t <- expired ::
        t.ms == old(t.ms) && (if t.recurring then t.cb == old(t.cb) && t.next == Plus64(now, t.ms) else t.cb.None?)
    {
      cbs := [];
      for n := 0 to |expired|
        invariant Ordered() && |cbs| == n
        invariant forall i :: 0 <= i < n ==> cbs[i] == old(expired[i].cb)
        invariant forall t :: t in timers <==> t in old(timers) || (t in expired[..n] && t.recurring)
        invariant forall t <- expired[..n] ::
          t.ms == old(t.ms) && (if t.recurring then t.cb == old(t.cb) && t.next == Plus64(now, t.ms) else t.cb.None?)
        invariant forall i :: n <= i < |expired| ==>
          expired[i].ms == old(expired[i].ms) && expired[i].cb == old(expired[i].cb)
      {
        PrefixSnoc(expired, n);
        cbs := cbs + [expired[n].cb];
        SweepOne(expired[n], now);
      }
      assert expired[..|expired|] == expired;
    }

    /** `who` are exactly the due timers of the bag, earliest deadline first. */
    ghost predicate DueList(who: seq<Timer>, bag: map<Timer, Entry>, now: nat, all: bool) {
      && Distinct(who)
      && (forall t <- who :: t in bag && Due(bag[t], now, all))
      && (forall t <- bag :: Due(bag[t], now, all) ==> t in who)
      && (forall i, j :: 0 <= i < j < |who| ==> bag[who[i]].next <= bag[who[j]].next)
    }

    /** Cuts the due timers off the front of the set. */
    method CutDue(now: nat, probe: nat, rollover: bool) returns (expired: seq<Timer>)
      requires Valid()
      modifies this`timers
      ensures Ordered() && DueList(expired, old(Bag()), now, rollover) && forall t <- expired :: t in old(timers)
      ensures forall t :: t in timers <==> t in old(timers) && t !in expired
    {
      var it := Split(now, probe, rollover);
      expired := timers[..it];
      CutMembers(timers, it);
      forall t ensures t in expired <==> t in Bag() && Due(Bag()[t], now, rollover) {
        if t in timers {
          var i :| 0 <= i < |timers| && timers[i] == t;
          assert t in expired <==> i < it;
        }
      }
      timers := timers[it..];
    }

    /** Takes the due timers out, collects their callbacks and puts the recurring ones back. */
    method Harvest(now: nat, probe: nat, all: bool) returns (cbs: seq<Option<nat>>, ghost who: seq<Timer>)
      requires Valid()
      modifies this`timers, timers
      ensures Valid() && Bag() == AfterExpiry(old(Bag()), now, all)
      ensures DueList(who, old(Bag()), now, all)
      ensures |cbs| == |who| && forall i :: 0 <= i < |who| ==> cbs[i] == old(Bag())[who[i]].cb
    {
      ghost var was := Bag();
      var expired := CutDue(now, probe, all);
      who := expired;
      assert forall i :: 0 <= i < |expired| ==> expired[i] in old(timers);
      cbs := Sweep(expired, now);
      SweptBag(was, now, all);
    }

    /** listExpiredCb: exactly the callbacks that are due, all of them on a clock rollover, earliest
        first; one-shot timers leave, recurring ones stay a period ahead, the rest is untouched. */
    method ListExpiredCb(now: nat, probe: nat) returns (cbs: seq<Option<nat>>, ghost who: seq<Timer>)
      requires Valid()
      modifies this`timers, this`previous, timers
      ensures Valid() && View() == Expired(old(View()), now)
      ensures DueList(who, old(Bag()), now, Rollover(old(previous), now))
      ensures forall t :: t in who <==> t in old(Bag()) && (Rollover(old(previous), now) || old(Bag())[t].next <= now)
      ensures forall t :: t in Bag() <==> t in old(Bag()) && (t !in who || old(Bag())[t].recurring)
      ensures forall t :: t in Bag() ==>
        Bag()[t] == var e := old(Bag())[t]; if t in who then e.(next := Plus64(now, e.ms)) else e
      ensures tickled == old(tickled) && previous == if old(timers) == [] then old(previous) else now
      ensures |cbs| == |who| && forall i :: 0 <= i < |who| ==> cbs[i] == old(Bag())[who[i]].cb
    {
      if |timers| == 0 {
        return [], [];
      }
      assert timers[0] in Bag();
      var rollover := DetectClockRollover(now);
      if !rollover && timers[0].next > now {
        NothingDue(now);
        return [], [];
      }
      cbs, who := Harvest(now, probe, rollover);
    }

    lemma NothingDue(now: nat)
      requires Ordered() && |timers| > 0 && timers[0].next > now
      ensures DueList([], Bag(), now, false) && AfterExpiry(Bag(), now, false) == Bag()
    {
      forall t | t in timers ensures t.next > now {
        var i :| 0 <= i < |timers| && timers[i] == t;
      }
    }

    /** The bag after the sweep, element by element. */
    lemma SweptBag(was: map<Timer, Entry>, now: nat, all: bool)
      requires forall t :: t in timers <==> t in was && (!Due(was[t], now, all) || was[t].recurring)
      requires forall t | t in timers && t in was ::
        t.Entry() == if Due(was[t], now, all) then was[t].(next := Plus64(now, was[t].ms)) else was[t]
      ensures Bag() == AfterExpiry(was, now, all)
    {}
  }

  /** A sorted sequence falls into two disjoint parts without repetitions. */
  lemma CutMembers(ts: seq<Timer>, it: nat)
    requires Sorted(ts) && it <= |ts|
    ensures Distinct(ts[..it]) && Sorted(ts[it..])
    ensures forall t :: t in ts[it..] <==> t in ts && t !in ts[..it]
    ensures forall i :: 0 <= i < |ts| ==> (ts[i] in ts[..it] <==> i < it)
  {
    forall i, j | 0 <= i < j < |ts|
      ensures ts[i] != ts[j]
    {
      assert Before(ts[i].Entry(), ts[j].Entry());
    }
    assert ts == ts[..it] + ts[it..];
  }

  lemma PutBack(bag: map<Timer, Entry>, t: Timer, e: Entry)
    ensures (bag - {t})[t := e] == bag[t := e]
  {}
}
