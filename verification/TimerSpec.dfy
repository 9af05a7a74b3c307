/** The timers of src/timer.cc as a plain bag: what each operation of the manager means. */
module TimerSpec {
  import opened Base

  // deadlines, periods and clock readings are unsigned 64-bit milliseconds
  const Hour: nat := 60 * 60 * 1000

  /** A pending timer; `addr` is where the object lives, which breaks ties between deadlines. */
  datatype Entry = Entry(addr: nat, next: nat, ms: nat, recurring: bool, cb: Option<nat>)

  /** The comparator of the ordered set, on timers that are not null. */
  predicate Before(a: Entry, b: Entry) {
    a.next < b.next || (a.next == b.next && a.addr < b.addr)
  }

  /** What the manager knows: the pending timers, the flag that mutes notifications, and the last
      clock reading of the expiry scan. */
  datatype State<!K> = State(bag: map<K, Entry>, tickled: bool, previous: nat)

  ghost predicate AtFront<K>(bag: map<K, Entry>, k: K)
    requires k in bag
  {
    forall j :: j in bag && j != k ==> Before(bag[k], bag[j])
  }

  /** Inserting an entry; a new front notifies, once, until somebody asks for the next deadline. */
  ghost function Inserted<K>(s: State<K>, k: K, e: Entry): State<K> {
    var bag := s.bag[k := e];
    State(bag, s.tickled || AtFront(bag, k), s.previous)
  }

  /** Whether a timer can still be acted upon: pending, with its callback. */
  predicate Armed<K>(s: State<K>, k: K) {
    k in s.bag && s.bag[k].cb.Some?
  }

  ghost function Without<K>(s: State<K>, k: K): State<K> {
    s.(bag := s.bag - {k})
  }

  ghost function Canceled<K>(s: State<K>, k: K): State<K> {
    if Armed(s, k) then Without(s, k) else s
  }

  ghost function Refreshed<K>(s: State<K>, k: K, now: nat): State<K> {
    if Armed(s, k) then s.(bag := s.bag[k := s.bag[k].(next := Plus64(now, s.bag[k].ms))]) else s
  }

  /** The entry after a reset: the period counts from now or from where the old one started. */
  function ResetEntry(e: Entry, ms: nat, fromNow: bool, now: nat): Entry {
    var start := if fromNow then now else Minus64(e.next, e.ms);
    e.(ms := ms, next := Plus64(start, ms))
  }

  ghost function ResetTo<K>(s: State<K>, k: K, ms: nat, fromNow: bool, now: nat): State<K> {
    if !Armed(s, k) || (ms == s.bag[k].ms && !fromNow) then s
    else Inserted(Without(s, k), k, ResetEntry(s.bag[k], ms, fromNow, now))
  }

  /** detectClockRollover: the reading lies more than an hour before the last one. The subtraction
      wraps below one hour. */
  predicate Rollover(previous: nat, now: nat) {
    now < previous && now < Minus64(previous, Hour)
  }

  predicate Due(e: Entry, now: nat, all: bool) {
    all || e.next <= now
  }

  ghost function AfterExpiry<K>(bag: map<K, Entry>, now: nat, all: bool): map<K, Entry> {
    map k | k in bag && (!Due(bag[k], now, all) || bag[k].recurring) ::
      if Due(bag[k], now, all) then bag[k].(next := Plus64(now, bag[k].ms)) else bag[k]
  }

  /** The expiry scan: due timers go, recurring ones come back a period from now. An empty bag is
      not even looked at. */
  ghost function Expired<K>(s: State<K>, now: nat): State<K> {
    if s.bag == map[] then s
    else State(AfterExpiry(s.bag, now, Rollover(s.previous, now)), s.tickled, now)
  }

  /** The earliest deadline of a bag. */
  ghost predicate IsFirst<K>(bag: map<K, Entry>, next: nat) {
    (exists k :: k in bag && bag[k].next == next) && forall k :: k in bag ==> next <= bag[k].next
  }

  /** When the rollover test is sound: for readings of at least an hour it fires exactly when the
      clock went back by more than an hour; for earlier readings it fires whenever it went back. */
  lemma RolloverMeans(previous: nat, now: nat)
    requires previous < Word
    ensures previous >= Hour ==> (Rollover(previous, now) <==> now + Hour < previous)
    ensures previous < Hour ==> (Rollover(previous, now) <==> now < previous)
  {
    if previous < Hour {
      assert (previous - Hour) % Word == previous - Hour + Word;
    } else {
      assert (previous - Hour) % Word == previous - Hour;
    }
  }

  /** Before is a strict total order on entries with different addresses. */
  lemma BeforeIsTotal(a: Entry, b: Entry, c: Entry)
    ensures !Before(a, a) && !(Before(a, b) && Before(b, a))
    ensures Before(a, b) && Before(b, c) ==> Before(a, c)
    ensures a.addr != b.addr ==> Before(a, b) || Before(b, a)
  {}
}
