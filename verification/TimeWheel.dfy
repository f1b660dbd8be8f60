/** The time wheel of crates/lockfree/src/timewheel.rs, one call at a time: a hashed wheel that agrees
    with a plain list of deadlines.  Times are nanoseconds since the wheel was created. */
module TimeWheel {
  import opened Options

  /** The tick a moment falls in; the wheel counts in whole microseconds. */
  function Tick(tickMicros: nat, time: nat): nat
    requires tickMicros > 0
  {
    time / 1000 / tickMicros
  }

  lemma TickMonotone(tickMicros: nat, a: nat, b: nat)
    requires tickMicros > 0
    ensures a <= b ==> Tick(tickMicros, a) <= Tick(tickMicros, b)
    ensures Tick(tickMicros, a) < Tick(tickMicros, b) ==> a < b
  {
    if a <= b {
      DivMonotone(a, b, 1000);
      DivMonotone(a / 1000, b / 1000, tickMicros);
    } else {
      DivMonotone(b, a, 1000);
      DivMonotone(b / 1000, a / 1000, tickMicros);
    }
  }

  lemma {:induction false} MulMonotone(d: nat, m: nat, n: nat)
    requires m <= n
    ensures d * m <= d * n
    decreases n
  {
    if m < n { MulMonotone(d, m, n - 1); }
  }

  lemma DivMonotone(a: nat, b: nat, d: nat)
    requires d > 0 && a <= b
    ensures a / d <= b / d
  {
    var x, y := a / d, b / d;
    var r, s := a % d, b % d;
    assert a == d * x + r && b == d * y + s;
    if x > y {
      MulMonotone(d, y + 1, x);
      assert false;
    }
  }

  lemma MulDiv(d: nat, k: nat)
    requires d > 0
    ensures d * k / d == k
  {
    var q, r := d * k / d, d * k % d;
    assert d * k == d * q + r;
    if q < k {
      MulMonotone(d, q + 1, k);
      assert false;
    } else if q > k {
      MulMonotone(d, k + 1, q);
      assert false;
    }
  }

  /** The first moment of a tick. */
  function TickStart(tickMicros: nat, tick: nat): nat {
    tickMicros * tick * 1000
  }

  lemma TickStarts(tickMicros: nat, tick: nat)
    requires tickMicros > 0
    ensures Tick(tickMicros, TickStart(tickMicros, tick)) == tick
  {
    MulDiv(tickMicros, tick);
    assert tickMicros * tick * 1000 / 1000 == tickMicros * tick;
  }

  // ----- The plain list -----

  /** Timers with the tick they are due after, in order of registration. */
  type Pending<T> = seq<(nat, T)>

  function Bucket<T>(list: Pending<T>, tick: nat): seq<T> {
    if list == [] then []
    else (if list[0].0 == tick then [list[0].1] else []) + Bucket(list[1..], tick)
  }

  /** The timers of ticks `lo..hi`, tick by tick, each tick in order of registration. */
  function Due<T>(list: Pending<T>, lo: nat, hi: nat): seq<T>
    decreases hi
  {
    if hi <= lo then [] else Due(list, lo, hi - 1) + Bucket(list, hi - 1)
  }

  function From<T>(list: Pending<T>, tick: nat): Pending<T> {
    if list == [] then []
    else (if list[0].0 >= tick then [list[0]] else []) + From(list[1..], tick)
  }

  lemma {:induction false} BucketAppend<T>(list: Pending<T>, entry: (nat, T), tick: nat)
    ensures Bucket(list + [entry], tick) == Bucket(list, tick) + (if entry.0 == tick then [entry.1] else [])
  {
    if list == [] {
      assert [] + [entry] == [entry];
    } else {
      assert (list + [entry])[1..] == list[1..] + [entry];
      BucketAppend(list[1..], entry, tick);
    }
  }

  lemma {:induction false} BucketFrom<T>(list: Pending<T>, tick: nat, k: nat)
    ensures Bucket(From(list, tick), k) == if k >= tick then Bucket(list, k) else []
  {
    if list != [] {
      BucketFrom(list[1..], tick, k);
      if list[0].0 >= tick {
        assert From(list, tick)[1..] == From(list[1..], tick);
      } else {
        assert From(list, tick) == From(list[1..], tick);
      }
    }
  }

  lemma {:induction false} BucketMember<T>(list: Pending<T>, tick: nat, timer: T)
    ensures timer in Bucket(list, tick) <==> (tick, timer) in list
  {
    if list != [] {
      BucketMember(list[1..], tick, timer);
      assert list == [list[0]] + list[1..];
    }
  }

  lemma {:induction false} FromMember<T>(list: Pending<T>, tick: nat, entry: (nat, T))
    ensures entry in From(list, tick) <==> entry in list && entry.0 >= tick
  {
    if list != [] {
      FromMember(list[1..], tick, entry);
      assert list == [list[0]] + list[1..];
    }
  }

  lemma {:induction false} DueMember<T>(list: Pending<T>, lo: nat, hi: nat, timer: T)
    ensures timer in Due(list, lo, hi) <==> exists k :: lo <= k < hi && (k, timer) in list
    decreases hi
  {
    hide Bucket;
    if lo < hi {
      assert Due(list, lo, hi) == Due(list, lo, hi - 1) + Bucket(list, hi - 1);
      hide Due;
      DueMember(list, lo, hi - 1, timer);
      BucketMember(list, hi - 1, timer);
    }
  }

  // ----- The wheel -----

  class HashedTimeWheel<T> {
    const tickMicros: nat
    var timers: map<nat, seq<T>>
    var ticks: nat
    var timerCount: nat
    ghost var pending: Pending<T>

    ghost predicate Valid()
      reads this
    {
      && tickMicros > 0
      && (forall k :: k in timers <==> Bucket(pending, k) != [])
      && (forall k | k in timers :: timers[k] == Bucket(pending, k))
      && (forall k | k in timers :: k >= ticks)
    }

    constructor (tickMicros: nat)
      requires tickMicros > 0
      ensures Valid() && this.tickMicros == tickMicros && ticks == 0 && pending == [] && timerCount == 0
    {
      this.tickMicros := tickMicros;
      timers, ticks, timerCount, pending := map[], 0, 0, [];
    }

    /** A timer is refused when its tick has passed, and else joins the list. */
    method NewTimer(timer: T, duration: nat, now: nat) returns (r: Option<nat>)
      requires Valid()
      modifies this
      ensures Valid() && ticks == old(ticks)
      ensures
        var tick := Tick(tickMicros, now + duration);
        && r == (if old(ticks) > tick then None else Some(tick))
        && pending == old(pending) + (if r.Some? then [(tick, timer)] else [])
        && timerCount == old(timerCount) + (if r.Some? then 1 else 0)
    {
      var tick := Tick(tickMicros, now + duration);
      if ticks > tick {
        return None;
      }
      forall k ensures Bucket(pending + [(tick, timer)], k)
                       == Bucket(pending, k) + (if tick == k then [timer] else [])
      {
        BucketAppend(pending, (tick, timer), k);
      }
      timers := timers[tick := (if tick in timers then timers[tick] else []) + [timer]];
      pending := pending + [(tick, timer)];
      timerCount := timerCount + 1;
      return Some(tick);
    }

    /** The timers of all ticks passed since the last call, and no others; nothing below the new tick
        remains. */
    method NextTick(now: nat) returns (r: Option<seq<T>>)
      requires Valid() && ticks <= Tick(tickMicros, now)
      modifies this
      ensures Valid() && ticks == Tick(tickMicros, now) && timerCount == old(timerCount)
      ensures r == if old(ticks) == ticks then None else Some(Due(old(pending), old(ticks), ticks))
      ensures pending == if old(ticks) == ticks then old(pending) else From(old(pending), ticks)
    {
      hide Bucket, From, Tick;
      var current, tick := ticks, Tick(tickMicros, now);
      if current == tick {
        return None;
      }
      ticks := tick;
      var timeout: seq<T> := [];
      for i := current to tick
        invariant tickMicros > 0 && pending == old(pending) && ticks == tick && timerCount == old(timerCount)
        invariant timeout == Due(old(pending), current, i)
        invariant forall k :: k in timers <==> k >= i && Bucket(pending, k) != []
        invariant forall k | k in timers :: timers[k] == Bucket(pending, k)
      {
        if i in timers {
          timeout := timeout + timers[i];
          timers := timers - {i};
        }
      }
      forall k ensures Bucket(From(pending, tick), k) == if k >= tick then Bucket(pending, k) else [] {
        BucketFrom(pending, tick, k);
      }
      pending := From(pending, tick);
      return Some(timeout);
    }
  }

  // ----- Every sequence of calls -----

  datatype Call = Register(now: nat, duration: nat) | Advance(now: nat)

  /** The list and the tick, with a timer named by the index of the call that registered it. */
  datatype Wheel = Wheel(ticks: nat, list: Pending<nat>)

  function After(tickMicros: nat, calls: seq<Call>): Wheel
    requires tickMicros > 0
  {
    if calls == [] then Wheel(0, [])
    else
      var n := |calls| - 1;
      var w := After(tickMicros, calls[..n]);
      match calls[n]
      case Register(now, duration) =>
        var tick := Tick(tickMicros, now + duration);
        if w.ticks > tick then w else w.(list := w.list + [(tick, n)])
      case Advance(now) =>
        var tick := Tick(tickMicros, now);
        if tick == w.ticks then w else Wheel(tick, From(w.list, tick))
  }

  /** What call `j` delivers. */
  function Delivers(tickMicros: nat, calls: seq<Call>, j: nat): seq<nat>
    requires tickMicros > 0 && j < |calls|
  {
    var w := After(tickMicros, calls[..j]);
    if calls[j].Advance? then Due(w.list, w.ticks, Tick(tickMicros, calls[j].now)) else []
  }

  predicate Monotone(calls: seq<Call>) {
    forall i, j | 0 <= i < j < |calls| :: calls[i].now <= calls[j].now
  }

  function DueTick(tickMicros: nat, call: Call): nat
    requires tickMicros > 0 && call.Register?
  {
    Tick(tickMicros, call.now + call.duration)
  }

  predicate Accepted(tickMicros: nat, calls: seq<Call>, i: nat)
    requires tickMicros > 0
  {
    && i < |calls| && calls[i].Register?
    && After(tickMicros, calls[..i]).ticks <= DueTick(tickMicros, calls[i])
  }

  /** No call between `i` and `n` has advanced past the tick of timer `i`. */
  ghost predicate Waiting(tickMicros: nat, calls: seq<Call>, i: nat, n: nat)
    requires tickMicros > 0 && i < |calls| && calls[i].Register? && n <= |calls|
  {
    forall j | i < j < n && calls[j].Advance? :: Tick(tickMicros, calls[j].now) <= DueTick(tickMicros, calls[i])
  }

  /** On a monotone clock the wheel is never ahead of time: `assert!(current <= ticks)` cannot fail. */
  lemma {:induction false} NeverAhead(tickMicros: nat, calls: seq<Call>, n: nat, time: nat)
    requires tickMicros > 0 && n <= |calls|
    requires forall i | 0 <= i < n :: calls[i].now <= time
    ensures After(tickMicros, calls[..n]).ticks <= Tick(tickMicros, time)
  {
    if n > 0 {
      assert calls[..n][..n - 1] == calls[..n - 1];
      NeverAhead(tickMicros, calls, n - 1, time);
      TickMonotone(tickMicros, calls[n - 1].now, time);
    }
  }

  ghost predicate Exact(tickMicros: nat, calls: seq<Call>, n: nat)
    requires tickMicros > 0 && n <= |calls|
  {
    var w := After(tickMicros, calls[..n]);
    && (forall k, i: nat ::
          (k, i) in w.list <==>
          i < n && Accepted(tickMicros, calls, i) && k == DueTick(tickMicros, calls[i]) &&
          Waiting(tickMicros, calls, i, n))
    && (forall entry | entry in w.list :: entry.0 >= w.ticks)
  }

  /** The list holds exactly the accepted timers that no advance has passed, and none is overdue. */
  lemma {:induction false} ListIsExact(tickMicros: nat, calls: seq<Call>, n: nat)
    requires tickMicros > 0 && n <= |calls| && Monotone(calls)
    ensures Exact(tickMicros, calls, n)
  {
    if n > 0 {
      var m := n - 1;
      assert calls[..n][..m] == calls[..m];
      ListIsExact(tickMicros, calls, m);
      NeverAhead(tickMicros, calls, m, calls[m].now);
      if calls[m].Register? { RegisterExact(tickMicros, calls, m); } else { AdvanceExact(tickMicros, calls, m); }
    }
  }

  lemma RegisterExact(tickMicros: nat, calls: seq<Call>, m: nat)
    requires tickMicros > 0 && m < |calls| && calls[m].Register? && Exact(tickMicros, calls, m)
    ensures Exact(tickMicros, calls, m + 1)
  {
    hide Tick;
    var w, w' := After(tickMicros, calls[..m]), After(tickMicros, calls[..m + 1]);
    assert calls[..m + 1][..m] == calls[..m];
    forall k, i: nat
      ensures (k, i) in w'.list <==>
              i < m + 1 && Accepted(tickMicros, calls, i) && k == DueTick(tickMicros, calls[i])
              && Waiting(tickMicros, calls, i, m + 1)
    {
      assert (k, i) in w.list <==>
             i < m && Accepted(tickMicros, calls, i) && k == DueTick(tickMicros, calls[i]) &&
             Waiting(tickMicros, calls, i, m);
      assert (k, i) in w'.list <==> (k, i) in w.list || (w' != w && (k, i) == w'.list[|w.list|]);
    }
  }

  /** What one advance does to the condition on one timer. */
  lemma AdvanceEntry(tickMicros: nat, calls: seq<Call>, m: nat, i: nat)
    requires tickMicros > 0 && m < |calls| && calls[m].Advance?
    ensures i < m && calls[i].Register? ==>
              (Waiting(tickMicros, calls, i, m + 1)
               <==> Waiting(tickMicros, calls, i, m) && DueTick(tickMicros, calls[i]) >= Tick(tickMicros, calls[m].now))
    ensures i < m + 1 && Accepted(tickMicros, calls, i) ==> i < m
  {
    hide Tick;
  }

  lemma AdvanceExact(tickMicros: nat, calls: seq<Call>, m: nat)
    requires tickMicros > 0 && m < |calls| && calls[m].Advance? && Exact(tickMicros, calls, m)
    requires After(tickMicros, calls[..m]).ticks <= Tick(tickMicros, calls[m].now)
    ensures Exact(tickMicros, calls, m + 1)
  {
    var w, w' := After(tickMicros, calls[..m]), After(tickMicros, calls[..m + 1]);
    assert calls[..m + 1][..m] == calls[..m];
    var tick := Tick(tickMicros, calls[m].now);
    hide Tick, After, Waiting, From, DueTick;
    forall entry ensures entry in w'.list <==> entry in w.list && entry.0 >= tick {
      FromMember(w.list, tick, entry);
    }
    forall k, i: nat
      ensures (k, i) in w'.list <==>
              i < m + 1 && Accepted(tickMicros, calls, i) && k == DueTick(tickMicros, calls[i])
              && Waiting(tickMicros, calls, i, m + 1)
    {
      AdvanceEntry(tickMicros, calls, m, i);
      assert (k, i) in w.list <==>
             i < m && Accepted(tickMicros, calls, i) && k == DueTick(tickMicros, calls[i]) &&
             Waiting(tickMicros, calls, i, m);
    }
  }

  /** Agreement with a plain list of deadlines: over any calls on a monotone clock, timer `i` is among what
      call `j` delivers if and only if it was accepted and `j` is the first advance after it whose tick
      number exceeds its own. */
  lemma DeliveredByFirstAdvance(tickMicros: nat, calls: seq<Call>, i: nat, j: nat)
    requires tickMicros > 0 && j < |calls| && Monotone(calls)
    ensures i in Delivers(tickMicros, calls, j) <==>
              && i < j && Accepted(tickMicros, calls, i) && calls[j].Advance?
              && Waiting(tickMicros, calls, i, j) && Tick(tickMicros, calls[j].now) > DueTick(tickMicros, calls[i])
  {
    hide Tick, Due;
    var w := After(tickMicros, calls[..j]);
    ListIsExact(tickMicros, calls, j);
    if calls[j].Advance? {
      DueMember(w.list, w.ticks, Tick(tickMicros, calls[j].now), i);
      if i < j && Accepted(tickMicros, calls, i) && Waiting(tickMicros, calls, i, j) {
        assert (DueTick(tickMicros, calls[i]), i) in w.list;
        assert (DueTick(tickMicros, calls[i]), i).0 >= w.ticks;
      }
    }
  }

  // ----- Never twice -----

  /** How often a timer occurs in the list with a tick in `lo..hi`. */
  function Times<T(==)>(list: Pending<T>, lo: nat, hi: nat, timer: T): nat {
    if list == [] then 0
    else (if list[0].1 == timer && lo <= list[0].0 < hi then 1 else 0) + Times(list[1..], lo, hi, timer)
  }

  lemma {:induction false} TimesSplit<T>(list: Pending<T>, lo: nat, mid: nat, hi: nat, timer: T)
    requires lo <= mid <= hi
    ensures Times(list, lo, hi, timer) == Times(list, lo, mid, timer) + Times(list, mid, hi, timer)
  {
    if list != [] { TimesSplit(list[1..], lo, mid, hi, timer); }
  }

  lemma {:induction false} BucketCount<T>(list: Pending<T>, tick: nat, timer: T)
    ensures multiset(Bucket(list, tick))[timer] == Times(list, tick, tick + 1, timer)
  {
    if list != [] {
      BucketCount(list[1..], tick, timer);
      var front := if list[0].0 == tick then [list[0].1] else [];
      assert Bucket(list, tick) == front + Bucket(list[1..], tick);
    }
  }

  lemma {:induction false} DueCount<T>(list: Pending<T>, lo: nat, hi: nat, timer: T)
    ensures multiset(Due(list, lo, hi))[timer] == Times(list, lo, hi, timer)
    decreases hi
  {
    hide Bucket, Times;
    if hi <= lo {
      NoTimes(list, lo, hi, timer);
    } else {
      var front, last := Due(list, lo, hi - 1), Bucket(list, hi - 1);
      assert Due(list, lo, hi) == front + last;
      hide Due;
      DueCount(list, lo, hi - 1, timer);
      BucketCount(list, hi - 1, timer);
      TimesSplit(list, lo, hi - 1, hi, timer);
      assert multiset(front + last) == multiset(front) + multiset(last);
    }
  }

  lemma {:induction false} NoTimes<T>(list: Pending<T>, lo: nat, hi: nat, timer: T)
    requires hi <= lo || forall entry | entry in list :: entry.1 != timer
    ensures Times(list, lo, hi, timer) == 0
  {
    if list != [] { NoTimes(list[1..], lo, hi, timer); }
  }

  predicate Increasing(list: Pending<nat>, below: nat) {
    && (forall x, y | 0 <= x < y < |list| :: list[x].1 < list[y].1)
    && (forall x | 0 <= x < |list| :: list[x].1 < below)
  }

  lemma {:induction false} FromIncreasing(list: Pending<nat>, tick: nat, below: nat)
    requires Increasing(list, below)
    ensures Increasing(From(list, tick), below)
  {
    if list != [] {
      FromIncreasing(list[1..], tick, below);
      forall entry | entry in From(list[1..], tick) ensures list[0].1 < entry.1 {
        FromMember(list[1..], tick, entry);
      }
    }
  }

  lemma {:induction false} ListIncreasing(tickMicros: nat, calls: seq<Call>)
    requires tickMicros > 0
    ensures Increasing(After(tickMicros, calls).list, |calls|)
  {
    if calls != [] {
      var n := |calls| - 1;
      ListIncreasing(tickMicros, calls[..n]);
      if calls[n].Advance? {
        FromIncreasing(After(tickMicros, calls[..n]).list, Tick(tickMicros, calls[n].now), n);
      }
    }
  }

  lemma {:induction false} IncreasingOnce(list: Pending<nat>, lo: nat, hi: nat, below: nat, timer: nat)
    requires Increasing(list, below)
    ensures Times(list, lo, hi, timer) <= 1
  {
    if list != [] {
      IncreasingOnce(list[1..], lo, hi, below, timer);
      if list[0].1 == timer { NoTimes(list[1..], lo, hi, timer); }
    }
  }

  /** Exactly once: no call delivers a timer twice, and no two calls deliver the same timer. */
  lemma DeliveredOnce(tickMicros: nat, calls: seq<Call>, i: nat, j: nat, j': nat)
    requires tickMicros > 0 && j < |calls| && j' < |calls| && Monotone(calls)
    ensures multiset(Delivers(tickMicros, calls, j))[i] <= 1
    ensures i in Delivers(tickMicros, calls, j) && i in Delivers(tickMicros, calls, j') ==> j == j'
  {
    hide Tick;
    var w := After(tickMicros, calls[..j]);
    ListIncreasing(tickMicros, calls[..j]);
    if calls[j].Advance? {
      DueCount(w.list, w.ticks, Tick(tickMicros, calls[j].now), i);
      IncreasingOnce(w.list, w.ticks, Tick(tickMicros, calls[j].now), j, i);
    }
    DeliveredByFirstAdvance(tickMicros, calls, i, j);
    DeliveredByFirstAdvance(tickMicros, calls, i, j');
  }

  // ----- In which order -----

  lemma {:induction false} BucketIncreasing(list: Pending<nat>, tick: nat, below: nat, a: nat, b: nat)
    requires Increasing(list, below) && a < b < |Bucket(list, tick)|
    ensures Bucket(list, tick)[a] < Bucket(list, tick)[b]
  {
    var rest := Bucket(list[1..], tick);
    if list[0].0 == tick {
      assert Bucket(list, tick) == [list[0].1] + rest;
      if a == 0 {
        BucketMember(list[1..], tick, rest[b - 1]);
      } else {
        BucketIncreasing(list[1..], tick, below, a - 1, b - 1);
      }
    } else {
      assert Bucket(list, tick) == rest;
      BucketIncreasing(list[1..], tick, below, a, b);
    }
  }

  /** `x` is listed with an earlier tick than `y`, or with the same one and registered before it. */
  predicate Before(list: Pending<nat>, x: nat, y: nat) {
    exists u, v | u in list && v in list :: u.1 == x && v.1 == y && (u.0 < v.0 || (u.0 == v.0 && x < y))
  }

  lemma ListedBefore(list: Pending<nat>, k: nat, x: nat, l: nat, y: nat)
    requires (k, x) in list && (l, y) in list && (k < l || (k == l && x < y))
    ensures Before(list, x, y)
  {
    var u, v := (k, x), (l, y);
    assert u in list && v in list && u.1 == x && v.1 == y;
  }

  lemma BucketOrdered(list: Pending<nat>, tick: nat, below: nat, a: nat, b: nat)
    requires Increasing(list, below) && a < b < |Bucket(list, tick)|
    ensures Before(list, Bucket(list, tick)[a], Bucket(list, tick)[b])
  {
    hide Bucket, Before;
    var x, y := Bucket(list, tick)[a], Bucket(list, tick)[b];
    BucketMember(list, tick, x);
    BucketMember(list, tick, y);
    BucketIncreasing(list, tick, below, a, b);
    ListedBefore(list, tick, x, tick, y);
  }

  /** What is due earlier comes before what is in the bucket of a later tick. */
  lemma DueBeforeBucket(list: Pending<nat>, lo: nat, hi: nat, x: nat, y: nat)
    requires x in Due(list, lo, hi) && y in Bucket(list, hi)
    ensures Before(list, x, y)
  {
    hide Due, Bucket, Before;
    DueMember(list, lo, hi, x);
    BucketMember(list, hi, y);
    var k :| lo <= k < hi && (k, x) in list;
    ListedBefore(list, k, x, hi, y);
  }

  lemma {:induction false} DueOrdered(list: Pending<nat>, lo: nat, hi: nat, below: nat, a: nat, b: nat)
    requires Increasing(list, below) && a < b < |Due(list, lo, hi)|
    ensures Before(list, Due(list, lo, hi)[a], Due(list, lo, hi)[b])
    decreases hi
  {
    var front, last := Due(list, lo, hi - 1), Bucket(list, hi - 1);
    assert Due(list, lo, hi) == front + last;
    hide Bucket, Due, Before, Increasing;
    if b < |front| {
      DueOrdered(list, lo, hi - 1, below, a, b);
    } else if a < |front| {
      DueBeforeBucket(list, lo, hi - 1, front[a], last[b - |front|]);
    } else {
      BucketOrdered(list, hi - 1, below, a - |front|, b - |front|);
    }
  }

  /** A call delivers in order of ticks, and within a tick in order of registration. */
  lemma DeliveredInOrder(tickMicros: nat, calls: seq<Call>, j: nat, a: nat, b: nat)
    requires tickMicros > 0 && j < |calls| && Monotone(calls) && a < b < |Delivers(tickMicros, calls, j)|
    ensures
      var x, y := Delivers(tickMicros, calls, j)[a], Delivers(tickMicros, calls, j)[b];
      && Accepted(tickMicros, calls, x) && Accepted(tickMicros, calls, y)
      && var u, v := DueTick(tickMicros, calls[x]), DueTick(tickMicros, calls[y]);
         u < v || (u == v && x < y)
  {
    hide Tick, Due;
    var w := After(tickMicros, calls[..j]);
    ListIsExact(tickMicros, calls, j);
    ListIncreasing(tickMicros, calls[..j]);
    var d := Delivers(tickMicros, calls, j);
    DueOrdered(w.list, w.ticks, Tick(tickMicros, calls[j].now), j, a, b);
    var u, v :| u in w.list && v in w.list && u.1 == d[a] && v.1 == d[b] && (u.0 < v.0 || (u.0 == v.0 && d[a] < d[b]));
    assert (u.0, u.1) in w.list && (v.0, v.1) in w.list;
  }

  // ----- The object over a sequence of calls -----

  lemma AfterStep(tickMicros: nat, calls: seq<Call>, n: nat)
    requires tickMicros > 0 && n < |calls|
    ensures
      var w, w', c := After(tickMicros, calls[..n]), After(tickMicros, calls[..n + 1]), calls[n];
      w' == if c.Register? then
              if w.ticks > DueTick(tickMicros, c) then w else w.(list := w.list + [(DueTick(tickMicros, c), n)])
            else
              if Tick(tickMicros, c.now) == w.ticks then w else
                Wheel(Tick(tickMicros, c.now), From(w.list, Tick(tickMicros, c.now)))
  {
    assert calls[..n + 1][..n] == calls[..n];
  }

  /** The object, given any calls on a monotone clock, agrees with `After` and delivers what `Delivers` says. */
  method Perform(tickMicros: nat, calls: seq<Call>) returns (wheel: HashedTimeWheel<nat>, delivered: seq<seq<nat>>)
    requires tickMicros > 0 && Monotone(calls)
    ensures wheel.Valid() && wheel.tickMicros == tickMicros
    ensures Wheel(wheel.ticks, wheel.pending) == After(tickMicros, calls)
    ensures |delivered| == |calls| && forall j :: 0 <= j < |calls| ==> delivered[j] == Delivers(tickMicros, calls, j)
  {
    hide Tick, From, Due, After;
    wheel := new HashedTimeWheel<nat>(tickMicros);
    delivered := [];
    assert After(tickMicros, calls[..0]) == Wheel(0, []) by { NoCalls(tickMicros, calls[..0]); }
    for n := 0 to |calls|
      invariant fresh(wheel) && wheel.Valid() && wheel.tickMicros == tickMicros
      invariant Wheel(wheel.ticks, wheel.pending) == After(tickMicros, calls[..n])
      invariant |delivered| == n && forall j :: 0 <= j < n ==> delivered[j] == Delivers(tickMicros, calls, j)
    {
      AfterStep(tickMicros, calls, n);
      match calls[n] {
        case Register(now, duration) =>
          var _ := wheel.NewTimer(n, duration, now);
          delivered := delivered + [[]];
        case Advance(now) =>
          NeverAhead(tickMicros, calls, n, now);
          ghost var w := After(tickMicros, calls[..n]);
          var out := wheel.NextTick(now);
          if out.None? { NothingDue(w.list, w.ticks); }
          delivered := delivered + [if out.Some? then out.value else []];
      }
    }
    assert calls[..|calls|] == calls;
  }

  lemma NoCalls(tickMicros: nat, calls: seq<Call>)
    requires tickMicros > 0 && calls == []
    ensures After(tickMicros, calls) == Wheel(0, [])
  {
  }

  lemma NothingDue<T>(list: Pending<T>, tick: nat)
    ensures Due(list, tick, tick) == []
  {
  }
}
