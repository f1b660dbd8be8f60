/** The time wheel of crates/lockfree/src/timewheel.rs under every interleaving of any number of threads
    in `new_timer` and `next_tick`; one step per clock reading, atomic access or map operation. */
module TimeWheelRaces {
  import opened Options
  import opened TimeWheel

  /** What a thread does next.  The first `fetch_update` writes back what it read, so it is one read; the
      second runs its closure between its read and its exchange. */
  datatype Pc =
    | Idle
    | ReadClock(id: nat, duration: nat)           // Instant::now of new_timer
    | Check(id: nat, tick: nat)                   // first ticks.fetch_update
    | Push(id: nat, tick: nat)                    // timers.entry().or_default().push
    | Recheck(id: nat, tick: nat)                 // ticks.load
    | Discard(id: nat, tick: nat)                 // timers.remove
    | Reload(id: nat, tick: nat)                  // second ticks.fetch_update: load
    | DiscardLate(id: nat, tick: nat, seen: nat)  // second ticks.fetch_update: timers.remove
    | Confirm(id: nat, tick: nat, seen: nat)      // second ticks.fetch_update: exchange
    | Count(id: nat, tick: nat)                   // timer_count.fetch_add
    | LoadTicks                                   // ticks.load of next_tick
    | TickClock(current: nat)                     // Instant::now of next_tick
    | Swap(current: nat, ticks: nat)              // the assertion, the comparison, compare_exchange
    | Drain(next: nat, ticks: nat)                // timers.remove, tick by tick
    | Panicked                                    // assert!(current <= ticks) failed

  /** `deadlines` gives registration time plus duration of every timer that read the clock; `delivered`
      counts deliveries, `accepted` holds the timers whose registration returned a tick, `dropped` those a
      registration removed, `ranges` the tick ranges of successful calls of `next_tick`. */
  datatype State = State(
    now: nat, ticks: nat, buckets: map<nat, set<nat>>, timerCount: nat, threads: map<nat, Pc>, nextId: nat,
    deadlines: map<nat, nat>, delivered: multiset<nat>, accepted: set<nat>, dropped: set<nat>,
    ranges: seq<(nat, nat)>)
  {
    function Pc(t: nat): Pc {
      if t in threads then threads[t] else Idle
    }

    function Set(t: nat, pc: Pc): State {
      this.(threads := threads[t := pc])
    }

    function At(tick: nat): set<nat> {
      if tick in buckets then buckets[tick] else {}
    }
  }

  datatype Event =
    | Elapse(nanos: nat)
    | NewTimer(t: nat, duration: nat)
    | NextTick(t: nat)
    | Step(t: nat)
    | Spurious(t: nat)                            // the weak exchange of fetch_update fails for no reason

  predicate Enabled(s: State, e: Event) {
    match e
    case Elapse(_) => true
    case NewTimer(t, _) => s.Pc(t).Idle?
    case NextTick(t) => s.Pc(t).Idle?
    case Step(t) => !s.Pc(t).Idle? && !s.Pc(t).Panicked?
    case Spurious(t) => s.Pc(t).Confirm?
  }

  /** The second closure: what it does with the tick count it was given. */
  function Judge(id: nat, tick: nat, seen: nat): Pc {
    if seen > tick then DiscardLate(id, tick, seen) else Confirm(id, tick, seen)
  }

  function StepOf(tickMicros: nat, s: State, t: nat): State
    requires tickMicros > 0 && Enabled(s, Step(t))
  {
    match s.Pc(t)
    case ReadClock(id, duration) =>
      s.(deadlines := s.deadlines[id := s.now + duration]).Set(t, Check(id, Tick(tickMicros, s.now + duration)))
    case Check(id, tick) => s.Set(t, if s.ticks > tick then Idle else Push(id, tick))
    case Push(id, tick) => s.(buckets := s.buckets[tick := s.At(tick) + {id}]).Set(t, Recheck(id, tick))
    case Recheck(id, tick) => s.Set(t, if s.ticks > tick then Discard(id, tick) else Reload(id, tick))
    case Discard(id, tick) =>
      if tick in s.buckets then
        s.(buckets := s.buckets - {tick}, dropped := s.dropped + s.buckets[tick]).Set(t, Idle)
      else s.Set(t, Reload(id, tick))
    case Reload(id, tick) => s.Set(t, Judge(id, tick, s.ticks))
    case DiscardLate(id, tick, seen) =>
      if tick in s.buckets then
        s.(buckets := s.buckets - {tick}, dropped := s.dropped + s.buckets[tick]).Set(t, Idle)
      else s.Set(t, Confirm(id, tick, seen))
    case Confirm(id, tick, seen) =>
      s.Set(t, if s.ticks == seen then Count(id, tick) else Judge(id, tick, s.ticks))
    case Count(id, _) => s.(timerCount := s.timerCount + 1, accepted := s.accepted + {id}).Set(t, Idle)
    case LoadTicks => s.Set(t, TickClock(s.ticks))
    case TickClock(current) => s.Set(t, Swap(current, Tick(tickMicros, s.now)))
    case Swap(current, ticks) =>
      if current > ticks then s.Set(t, Panicked)
      else if current == ticks then s.Set(t, Idle)
      else if s.ticks == current then
        s.(ticks := ticks, ranges := s.ranges + [(current, ticks)]).Set(t, Drain(current, ticks))
      else s.Set(t, LoadTicks)
    case Drain(next, ticks) =>
      if next >= ticks then s.Set(t, Idle)
      else
        s.(buckets := s.buckets - {next}, delivered := s.delivered + multiset(s.At(next)))
          .Set(t, Drain(next + 1, ticks))
  }

  function Apply(tickMicros: nat, s: State, e: Event): State
    requires tickMicros > 0 && Enabled(s, e)
  {
    match e
    case Elapse(nanos) => s.(now := s.now + nanos)
    case NewTimer(t, duration) => s.(nextId := s.nextId + 1).Set(t, ReadClock(s.nextId, duration))
    case NextTick(t) => s.Set(t, LoadTicks)
    case Step(t) => StepOf(tickMicros, s, t)
    case Spurious(t) => s.Set(t, Judge(s.Pc(t).id, s.Pc(t).tick, s.ticks))
  }

  const START := State(0, 0, map[], 0, map[], 0, map[], multiset{}, {}, {}, [])

  function Exec(tickMicros: nat, run: seq<Event>): Option<State>
    requires tickMicros > 0
  {
    if run == [] then Some(START)
    else
      var before := Exec(tickMicros, run[..|run| - 1]);
      var e := run[|run| - 1];
      if before.Some? && Enabled(before.value, e) then Some(Apply(tickMicros, before.value, e)) else None
  }

  // ----- Ticks -----

  ghost predicate ClockThread(tickMicros: nat, s: State, t: nat)
    requires tickMicros > 0
  {
    match s.Pc(t)
    case TickClock(current) => current <= s.ticks
    case Swap(current, ticks) => current <= ticks <= Tick(tickMicros, s.now)
    case Drain(next, ticks) => ticks <= Tick(tickMicros, s.now)
    case Discard(_, tick) => tick < s.ticks
    case DiscardLate(_, tick, seen) => tick < seen <= s.ticks
    case Confirm(_, _, seen) => seen <= s.ticks
    case Panicked => false
    case _ => true
  }

  /** The ranges start at tick 0, follow one another without gap or overlap, and end at `ticks`. */
  predicate Consecutive(ranges: seq<(nat, nat)>, ticks: nat) {
    && (forall i | 0 <= i < |ranges| :: ranges[i].0 < ranges[i].1)
    && (forall i | 0 <= i < |ranges| - 1 :: ranges[i].1 == ranges[i + 1].0)
    && (if ranges == [] then ticks == 0 else ranges[0].0 == 0 && ranges[|ranges| - 1].1 == ticks)
  }

  ghost predicate ClockInv(tickMicros: nat, s: State)
    requires tickMicros > 0
  {
    && s.ticks <= Tick(tickMicros, s.now)
    && (forall t :: ClockThread(tickMicros, s, t))
    && Consecutive(s.ranges, s.ticks)
  }

  lemma OthersStay(tickMicros: nat, s: State, e: Event, u: nat)
    requires tickMicros > 0 && Enabled(s, e) && (e.Elapse? || u != e.t)
    ensures Apply(tickMicros, s, e).Pc(u) == s.Pc(u)
  {
    hide Tick;
  }

  lemma ClockOthers(tickMicros: nat, s: State, e: Event, u: nat)
    requires tickMicros > 0 && ClockThread(tickMicros, s, u) && Enabled(s, e) && s.ticks <= Tick(tickMicros, s.now)
    requires e.Elapse? || u != e.t
    requires s.ticks <= Apply(tickMicros, s, e).ticks
    ensures ClockThread(tickMicros, Apply(tickMicros, s, e), u)
  {
    hide Tick;
    var s' := Apply(tickMicros, s, e);
    TickMonotone(tickMicros, s.now, s'.now);
    OthersStay(tickMicros, s, e, u);
    assert s.now <= s'.now;
    hide Apply;
  }

  lemma ClockOwn(tickMicros: nat, s: State, e: Event)
    requires tickMicros > 0 && !e.Elapse? && ClockThread(tickMicros, s, e.t) && Enabled(s, e)
    requires s.ticks <= Tick(tickMicros, s.now)
    ensures var s' := Apply(tickMicros, s, e);
            ClockThread(tickMicros, s', e.t) && s.ticks <= s'.ticks <= Tick(tickMicros, s'.now)
  {
    hide Tick;
  }

  /** A step claims no ticks, or those from the current tick count on. */
  lemma ClaimFacts(tickMicros: nat, s: State, e: Event)
    requires tickMicros > 0 && Enabled(s, e)
    ensures var s' := Apply(tickMicros, s, e);
            (s'.ranges == s.ranges && s'.ticks == s.ticks)
            || (s.ticks < s'.ticks && s'.ranges == s.ranges + [(s.ticks, s'.ticks)])
  {
    hide Tick;
  }

  lemma RangesStep(tickMicros: nat, s: State, e: Event)
    requires tickMicros > 0 && Consecutive(s.ranges, s.ticks) && Enabled(s, e)
    ensures Consecutive(Apply(tickMicros, s, e).ranges, Apply(tickMicros, s, e).ticks)
  {
    ClaimFacts(tickMicros, s, e);
    hide Apply;
  }

  lemma ClockStep(tickMicros: nat, s: State, e: Event)
    requires tickMicros > 0 && ClockInv(tickMicros, s) && Enabled(s, e)
    ensures ClockInv(tickMicros, Apply(tickMicros, s, e))
  {
    var s' := Apply(tickMicros, s, e);
    RangesStep(tickMicros, s, e);
    TickMonotone(tickMicros, s.now, s'.now);
    if e.Elapse? {
      assert s'.ticks == s.ticks;
    } else {
      assert ClockThread(tickMicros, s, e.t);
      ClockOwn(tickMicros, s, e);
    }
    hide Tick, Apply, ClockThread, Consecutive;
    forall u ensures ClockThread(tickMicros, s', u) {
      if e.Elapse? || u != e.t {
        ClockOthers(tickMicros, s, e, u);
      }
    }
  }

  // ----- Timers -----

  predicate Unregistered(pc: Pc) {
    pc.ReadClock? || pc.Check? || pc.Push?
  }

  predicate HasId(pc: Pc) {
    Unregistered(pc) || Registering(pc) || pc.Count?
  }

  ghost predicate TimerThread(tickMicros: nat, s: State, t: nat)
    requires tickMicros > 0
  {
    var pc := s.Pc(t);
    && (HasId(pc) ==> pc.id < s.nextId && pc.id !in s.accepted)
    && (Unregistered(pc) ==> s.delivered[pc.id] == 0 && forall k :: pc.id !in s.At(k))
    && (pc.ReadClock? ==> pc.id !in s.deadlines)
    && (pc.Check? || Registering(pc) ==> pc.id in s.deadlines && Tick(tickMicros, s.deadlines[pc.id]) == pc.tick)
  }

  /** A timer in the bucket of tick `k` belongs there and has not been delivered. */
  ghost predicate InBucket(tickMicros: nat, s: State, k: nat, id: nat)
    requires tickMicros > 0
  {
    id in s.At(k) ==>
      id < s.nextId && id in s.deadlines && Tick(tickMicros, s.deadlines[id]) == k && s.delivered[id] == 0
  }

  ghost predicate DistinctIds(s: State) {
    forall t, u | t != u && HasId(s.Pc(t)) && HasId(s.Pc(u)) :: s.Pc(t).id != s.Pc(u).id
  }

  ghost predicate TimerInv(tickMicros: nat, s: State)
    requires tickMicros > 0
  {
    && (forall t :: TimerThread(tickMicros, s, t))
    && DistinctIds(s)
    && (forall id | id in s.deadlines :: id < s.nextId)
    && s.timerCount == |s.accepted| && (forall id | id in s.accepted :: id < s.nextId)
    && (forall k, id :: InBucket(tickMicros, s, k, id))
    && (forall id | id in s.delivered ::
          id < s.nextId && s.delivered[id] == 1 && id in s.deadlines && s.deadlines[id] < s.now)
  }

  /** What a step changes about the timers, thread counters aside. */
  predicate SameTimers(s: State, s': State) {
    && s'.nextId == s.nextId && s'.deadlines == s.deadlines && s'.delivered == s.delivered && s'.now == s.now
    && s'.accepted == s.accepted && s'.timerCount == s.timerCount
  }

  lemma IdsStayDistinct(s: State, s': State, t: nat)
    requires DistinctIds(s)
    requires forall u | u != t :: s'.Pc(u) == s.Pc(u)
    requires HasId(s'.Pc(t)) ==> HasId(s.Pc(t)) && s'.Pc(t).id == s.Pc(t).id
    ensures DistinctIds(s')
  {
    forall u, v | u != v && HasId(s'.Pc(u)) && HasId(s'.Pc(v)) ensures s'.Pc(u).id != s'.Pc(v).id {
      assert HasId(s.Pc(u)) && HasId(s.Pc(v));
    }
  }

  /** A step that moves one thread along and at most removes a bucket. */
  lemma QuietStep(tickMicros: nat, s: State, s': State, t: nat)
    requires tickMicros > 0 && TimerInv(tickMicros, s) && SameTimers(s, s')
    requires forall u | u != t :: s'.Pc(u) == s.Pc(u)
    requires forall k :: s'.At(k) <= s.At(k)
    requires HasId(s'.Pc(t)) ==> HasId(s.Pc(t)) && s'.Pc(t).id == s.Pc(t).id
    requires Unregistered(s'.Pc(t)) ==> Unregistered(s.Pc(t))
    requires s'.Pc(t).ReadClock? ==> s.Pc(t).ReadClock?
    requires s'.Pc(t).Check? || Registering(s'.Pc(t)) ==>
               (s.Pc(t).Check? || Registering(s.Pc(t))) && s'.Pc(t).tick == s.Pc(t).tick
    ensures TimerInv(tickMicros, s')
  {
    hide Tick;
    IdsStayDistinct(s, s', t);
    forall k, id ensures InBucket(tickMicros, s', k, id) {
      assert InBucket(tickMicros, s, k, id);
    }
    forall u ensures TimerThread(tickMicros, s', u) {
      assert TimerThread(tickMicros, s, u);
    }
  }

  lemma ReadClockStep(tickMicros: nat, s: State, t: nat)
    requires tickMicros > 0 && TimerInv(tickMicros, s) && s.Pc(t).ReadClock?
    ensures TimerInv(tickMicros, StepOf(tickMicros, s, t))
  {
    hide Tick;
    var s', own := StepOf(tickMicros, s, t), s.Pc(t).id;
    assert TimerThread(tickMicros, s, t);
    IdsStayDistinct(s, s', t);
    assert forall k :: s'.At(k) == s.At(k);
    forall k, id ensures InBucket(tickMicros, s', k, id) {
      assert InBucket(tickMicros, s, k, id) && (id in s'.At(k) ==> id in s.At(k) && id != own);
    }
    forall u ensures TimerThread(tickMicros, s', u) {
      assert TimerThread(tickMicros, s, u);
      assert u != t && HasId(s.Pc(u)) ==> s.Pc(u).id != own;
    }
  }

  /** What a push changes. */
  lemma PushFacts(tickMicros: nat, s: State, t: nat)
    requires tickMicros > 0 && s.Pc(t).Push?
    ensures var s', id, tick := StepOf(tickMicros, s, t), s.Pc(t).id, s.Pc(t).tick;
            && SameTimers(s, s') && s'.Pc(t) == Recheck(id, tick) && (forall u | u != t :: s'.Pc(u) == s.Pc(u))
            && forall k :: s'.At(k) == if k == tick then s.At(k) + {id} else s.At(k)
  {
  }

  lemma PushStep(tickMicros: nat, s: State, t: nat)
    requires tickMicros > 0 && TimerInv(tickMicros, s) && s.Pc(t).Push?
    ensures TimerInv(tickMicros, StepOf(tickMicros, s, t))
  {
    hide Tick, StepOf;
    var s', id, tick := StepOf(tickMicros, s, t), s.Pc(t).id, s.Pc(t).tick;
    PushFacts(tickMicros, s, t);
    assert TimerThread(tickMicros, s, t);
    IdsStayDistinct(s, s', t);
    forall k, x ensures InBucket(tickMicros, s', k, x) {
      assert InBucket(tickMicros, s, k, x);
    }
    forall u ensures TimerThread(tickMicros, s', u) {
      assert TimerThread(tickMicros, s, u);
      assert u != t && HasId(s.Pc(u)) ==> s.Pc(u).id != id;
    }
  }

  lemma CountStep(tickMicros: nat, s: State, t: nat)
    requires tickMicros > 0 && TimerInv(tickMicros, s) && s.Pc(t).Count?
    ensures TimerInv(tickMicros, StepOf(tickMicros, s, t))
  {
    hide Tick;
    var s' := StepOf(tickMicros, s, t);
    assert TimerThread(tickMicros, s, t);
    IdsStayDistinct(s, s', t);
    assert forall k :: s'.At(k) == s.At(k);
    forall k, id ensures InBucket(tickMicros, s', k, id) {
      assert InBucket(tickMicros, s, k, id);
    }
    forall u ensures TimerThread(tickMicros, s', u) {
      assert TimerThread(tickMicros, s, u);
      assert u != t && HasId(s.Pc(u)) ==> s.Pc(u).id != s.Pc(t).id;
    }
  }

  lemma DrainStep(tickMicros: nat, s: State, t: nat)
    requires tickMicros > 0 && TimerInv(tickMicros, s) && ClockInv(tickMicros, s)
    requires s.Pc(t).Drain? && s.Pc(t).next < s.Pc(t).ticks
    ensures TimerInv(tickMicros, StepOf(tickMicros, s, t))
  {
    hide Tick;
    var s', next := StepOf(tickMicros, s, t), s.Pc(t).next;
    assert ClockThread(tickMicros, s, t);
    IdsStayDistinct(s, s', t);
    assert forall k :: s'.At(k) == if k == next then {} else s.At(k);
    forall id | id in s.At(next) ensures id in s.deadlines && s.deadlines[id] < s.now && id < s.nextId {
      assert InBucket(tickMicros, s, next, id);
      TickMonotone(tickMicros, s.deadlines[id], s.now);
    }
    forall id | id in s'.delivered
      ensures id < s'.nextId && s'.delivered[id] == 1 && id in s'.deadlines && s'.deadlines[id] < s'.now
    {
      assert InBucket(tickMicros, s, next, id);
      assert id in s.delivered || id in s.At(next);
    }
    forall k, id ensures InBucket(tickMicros, s', k, id) {
      assert InBucket(tickMicros, s, k, id) && InBucket(tickMicros, s, next, id);
    }
    forall u ensures TimerThread(tickMicros, s', u) {
      assert TimerThread(tickMicros, s, u);
    }
  }

  lemma CallStep(tickMicros: nat, s: State, t: nat, duration: nat)
    requires tickMicros > 0 && TimerInv(tickMicros, s) && Enabled(s, NewTimer(t, duration))
    ensures TimerInv(tickMicros, Apply(tickMicros, s, NewTimer(t, duration)))
  {
    hide Tick;
    var s' := Apply(tickMicros, s, NewTimer(t, duration));
    assert forall k :: s'.At(k) == s.At(k);
    forall k ensures s.nextId !in s.At(k) {
      assert InBucket(tickMicros, s, k, s.nextId);
    }
    forall k, id ensures InBucket(tickMicros, s', k, id) {
      assert InBucket(tickMicros, s, k, id);
    }
    forall u ensures TimerThread(tickMicros, s', u) {
      assert TimerThread(tickMicros, s, u);
    }
    forall u, v | u != v && HasId(s'.Pc(u)) && HasId(s'.Pc(v)) ensures s'.Pc(u).id != s'.Pc(v).id {
      assert TimerThread(tickMicros, s, u) && TimerThread(tickMicros, s, v);
    }
  }

  lemma ElapseStep(tickMicros: nat, s: State, nanos: nat)
    requires tickMicros > 0 && TimerInv(tickMicros, s)
    ensures TimerInv(tickMicros, Apply(tickMicros, s, Elapse(nanos)))
  {
    hide Tick;
    var s' := Apply(tickMicros, s, Elapse(nanos));
    IdsStayDistinct(s, s', 0);
    assert forall k :: s'.At(k) == s.At(k);
    forall k, id ensures InBucket(tickMicros, s', k, id) {
      assert InBucket(tickMicros, s, k, id);
    }
    forall u ensures TimerThread(tickMicros, s', u) {
      assert TimerThread(tickMicros, s, u);
    }
  }

  /** Steps that neither read the clock, push, count nor drain. */
  predicate Quiet(s: State, e: Event) {
    match e
    case NextTick(_) => true
    case Spurious(_) => true
    case Step(t) =>
      !s.Pc(t).ReadClock? && !s.Pc(t).Push? && !s.Pc(t).Count? && !(s.Pc(t).Drain? && s.Pc(t).next < s.Pc(t).ticks)
    case _ => false
  }

  lemma QuietFacts(tickMicros: nat, s: State, e: Event)
    requires tickMicros > 0 && Enabled(s, e) && Quiet(s, e)
    ensures var s', t := Apply(tickMicros, s, e), e.t;
            && SameTimers(s, s') && (forall k :: s'.At(k) <= s.At(k))
            && (HasId(s'.Pc(t)) ==> HasId(s.Pc(t)) && s'.Pc(t).id == s.Pc(t).id)
            && (Unregistered(s'.Pc(t)) ==> Unregistered(s.Pc(t)))
            && !s'.Pc(t).ReadClock?
            && (s'.Pc(t).Check? || Registering(s'.Pc(t)) ==>
                  (s.Pc(t).Check? || Registering(s.Pc(t))) && s'.Pc(t).tick == s.Pc(t).tick)
  {
    hide Tick;
  }

  lemma TimerStep(tickMicros: nat, s: State, e: Event)
    requires tickMicros > 0 && TimerInv(tickMicros, s) && ClockInv(tickMicros, s) && Enabled(s, e)
    ensures TimerInv(tickMicros, Apply(tickMicros, s, e))
  {
    if Quiet(s, e) {
      var s' := Apply(tickMicros, s, e);
      QuietFacts(tickMicros, s, e);
      hide Tick, TimerInv, Apply, Quiet;
      forall u | u != e.t ensures s'.Pc(u) == s.Pc(u) { OthersStay(tickMicros, s, e, u); }
      QuietStep(tickMicros, s, s', e.t);
    } else {
      hide Tick, TimerInv, ClockInv;
      match e
      case Elapse(nanos) => ElapseStep(tickMicros, s, nanos);
      case NewTimer(t, duration) => CallStep(tickMicros, s, t, duration);
      case Step(t) =>
        if s.Pc(t).ReadClock? {
          ReadClockStep(tickMicros, s, t);
        } else if s.Pc(t).Push? {
          PushStep(tickMicros, s, t);
        } else if s.Pc(t).Count? {
          CountStep(tickMicros, s, t);
        } else {
          DrainStep(tickMicros, s, t);
        }
    }
  }

  lemma {:induction false} RunKeepsInv(tickMicros: nat, run: seq<Event>)
    requires tickMicros > 0 && Exec(tickMicros, run).Some?
    ensures ClockInv(tickMicros, Exec(tickMicros, run).value) && TimerInv(tickMicros, Exec(tickMicros, run).value)
  {
    if run != [] {
      var s, e := Exec(tickMicros, run[..|run| - 1]).value, run[|run| - 1];
      RunKeepsInv(tickMicros, run[..|run| - 1]);
      ClockStep(tickMicros, s, e);
      TimerStep(tickMicros, s, e);
    } else {
      assert START.now / 1000 == 0;
    }
  }

  // ----- What holds in every run -----

  /** Under every interleaving: no timer is delivered before registration time plus duration, none is
      delivered twice, tick ranges are consecutive and disjoint, the assertion never fails, and `timers`
      counts the registrations that were accepted. */
  lemma SafeUnderRaces(tickMicros: nat, run: seq<Event>)
    requires tickMicros > 0 && Exec(tickMicros, run).Some?
    ensures
      var s := Exec(tickMicros, run).value;
      && (forall id | id in s.delivered :: s.delivered[id] == 1 && id in s.deadlines && s.deadlines[id] < s.now)
      && Consecutive(s.ranges, s.ticks) && s.ticks <= Tick(tickMicros, s.now)
      && (forall t :: !s.Pc(t).Panicked?)
      && s.timerCount == |s.accepted|
  {
    RunKeepsInv(tickMicros, run);
    var s := Exec(tickMicros, run).value;
    forall t ensures !s.Pc(t).Panicked? { assert ClockThread(tickMicros, s, t); }
  }

  /** A registration that returns None at any of its three exits is of a timer whose deadline has passed. */
  lemma RefusedInAnyRun(tickMicros: nat, run: seq<Event>, t: nat)
    requires tickMicros > 0 && Exec(tickMicros, run).Some? && Enabled(Exec(tickMicros, run).value, Step(t))
    requires
      var s := Exec(tickMicros, run).value;
      (s.Pc(t).Check? || Registering(s.Pc(t))) && StepOf(tickMicros, s, t).Pc(t).Idle?
    ensures
      var s := Exec(tickMicros, run).value;
      s.Pc(t).id in s.deadlines && s.deadlines[s.Pc(t).id] < s.now
  {
    RunKeepsInv(tickMicros, run);
    var s := Exec(tickMicros, run).value;
    assert ClockThread(tickMicros, s, t) && TimerThread(tickMicros, s, t);
    TickMonotone(tickMicros, s.deadlines[s.Pc(t).id], s.now);
  }

  /** Timer `id` is the one that a call at moment `at` registered for `duration`. */
  ghost predicate Asked(tickMicros: nat, run: seq<Event>, i: nat, id: nat, at: nat, duration: nat)
    requires tickMicros > 0
  {
    && i < |run| && run[i].NewTimer? && run[i].duration == duration && Exec(tickMicros, run[..i]).Some?
    && Exec(tickMicros, run[..i]).value.nextId == id && Exec(tickMicros, run[..i]).value.now == at
  }

  /** It has not read the clock yet, or its deadline is at least the moment of the call plus the duration. */
  predicate Covers(s: State, t: nat, id: nat, at: nat, duration: nat) {
    && at <= s.now && id < s.nextId
    && (s.Pc(t) == ReadClock(id, duration) || (id in s.deadlines && at + duration <= s.deadlines[id]))
  }

  lemma CoversStep(tickMicros: nat, s: State, e: Event, t: nat, id: nat, at: nat, duration: nat)
    requires tickMicros > 0 && TimerInv(tickMicros, s) && Covers(s, t, id, at, duration) && Enabled(s, e)
    ensures Covers(Apply(tickMicros, s, e), t, id, at, duration)
  {
    hide Tick;
    if !e.Elapse? {
      assert TimerThread(tickMicros, s, e.t);
    }
    if !e.Elapse? && e.t != t { OthersStay(tickMicros, s, e, t); }
  }

  lemma {:induction false} AskedIsCovered(
    tickMicros: nat, run: seq<Event>, i: nat, id: nat, at: nat, duration: nat)
    requires tickMicros > 0 && Exec(tickMicros, run).Some? && Asked(tickMicros, run, i, id, at, duration)
    ensures Covers(Exec(tickMicros, run).value, run[i].t, id, at, duration)
  {
    var front, e := run[..|run| - 1], run[|run| - 1];
    if i == |run| - 1 {
      assert run[..i] == front;
    } else {
      assert run[..i] == front[..i] && run[i] == front[i];
      AskedIsCovered(tickMicros, front, i, id, at, duration);
      RunKeepsInv(tickMicros, front);
      CoversStep(tickMicros, Exec(tickMicros, front).value, e, run[i].t, id, at, duration);
    }
  }

  /** From the events alone: a timer is delivered only after the moment of the call that registered it plus the
      duration it asked for. */
  lemma NeverEarly(tickMicros: nat, run: seq<Event>, i: nat, id: nat, at: nat, duration: nat)
    requires tickMicros > 0 && Exec(tickMicros, run).Some? && Asked(tickMicros, run, i, id, at, duration)
    requires id in Exec(tickMicros, run).value.delivered
    ensures at + duration < Exec(tickMicros, run).value.now
  {
    AskedIsCovered(tickMicros, run, i, id, at, duration);
    RunKeepsInv(tickMicros, run);
    var s := Exec(tickMicros, run).value;
    assert TimerThread(tickMicros, s, run[i].t);
  }

  // ----- Losing timers -----

  /** Between its first look at the tick count and its last. */
  predicate Registering(pc: Pc) {
    pc.Push? || pc.Recheck? || pc.Discard? || pc.Reload? || pc.DiscardLate? || pc.Confirm?
  }

  predicate Pushed(pc: Pc) {
    (Registering(pc) && !pc.Push?) || pc.Count?
  }

  /** The timer is in its bucket or was delivered. */
  predicate Kept(tickMicros: nat, s: State, id: nat)
    requires tickMicros > 0
  {
    id in s.delivered || (id in s.deadlines && id in s.At(Tick(tickMicros, s.deadlines[id])))
  }

  ghost predicate LossInv(tickMicros: nat, s: State)
    requires tickMicros > 0
  {
    && (forall id | id in s.accepted :: Kept(tickMicros, s, id) || id in s.dropped)
    && (forall t | Pushed(s.Pc(t)) :: Kept(tickMicros, s, s.Pc(t).id) || s.Pc(t).id in s.dropped)
    && (forall id | id in s.dropped :: id < s.nextId && id !in s.delivered && forall k :: id !in s.At(k))
    && (forall t | Unregistered(s.Pc(t)) :: s.Pc(t).id !in s.dropped)
    && (forall k | k in s.buckets :: s.buckets[k] != {})
  }

  /** The two removals of a registration: its tick has passed, and there is a bucket for it. */
  predicate Discards(s: State, e: Event) {
    e.Step? && (s.Pc(e.t).Discard? || s.Pc(e.t).DiscardLate?) && s.Pc(e.t).tick in s.buckets
  }

  /** What a step drops. */
  lemma DroppedStep(tickMicros: nat, s: State, e: Event)
    requires tickMicros > 0 && Enabled(s, e)
    ensures Apply(tickMicros, s, e).dropped == s.dropped + (if Discards(s, e) then s.buckets[s.Pc(e.t).tick] else {})
  {
    hide Tick;
  }

  lemma KeptStep(tickMicros: nat, s: State, e: Event, id: nat)
    requires tickMicros > 0 && TimerInv(tickMicros, s) && Enabled(s, e) && Kept(tickMicros, s, id)
    ensures Kept(tickMicros, Apply(tickMicros, s, e), id) || id in Apply(tickMicros, s, e).dropped
  {
    hide Tick;
    if e.Step? {
      assert TimerThread(tickMicros, s, e.t);
      if s.Pc(e.t).ReadClock? && id in s.deadlines { assert s.Pc(e.t).id !in s.At(Tick(tickMicros, s.deadlines[id])); }
    }
  }

  /** A thread past its push in `s'` was so in `s`, with the same timer, or has just pushed. */
  lemma PushedBefore(tickMicros: nat, s: State, e: Event, u: nat)
    requires tickMicros > 0 && Enabled(s, e) && Pushed(Apply(tickMicros, s, e).Pc(u))
    ensures (Pushed(s.Pc(u)) && s.Pc(u).id == Apply(tickMicros, s, e).Pc(u).id)
         || (e == Step(u) && s.Pc(u).Push? && s.Pc(u).id == Apply(tickMicros, s, e).Pc(u).id)
  {
    if e.Elapse? || u != e.t {
      OthersStay(tickMicros, s, e, u);
      hide Apply;
    } else {
      hide Tick;
    }
  }

  lemma PushKeeps(tickMicros: nat, s: State, t: nat)
    requires tickMicros > 0 && TimerInv(tickMicros, s) && s.Pc(t).Push?
    ensures Kept(tickMicros, StepOf(tickMicros, s, t), s.Pc(t).id)
  {
    hide Tick;
    assert TimerThread(tickMicros, s, t);
    assert s.Pc(t).id in StepOf(tickMicros, s, t).At(s.Pc(t).tick);
  }

  lemma AcceptedBefore(tickMicros: nat, s: State, e: Event, id: nat)
    requires tickMicros > 0 && Enabled(s, e) && id in Apply(tickMicros, s, e).accepted && id !in s.accepted
    ensures e.Step? && Pushed(s.Pc(e.t)) && s.Pc(e.t).id == id
  {
    hide Tick;
  }

  lemma StepApplies(tickMicros: nat, s: State, t: nat)
    requires tickMicros > 0 && Enabled(s, Step(t))
    ensures Apply(tickMicros, s, Step(t)) == StepOf(tickMicros, s, t)
  {
  }

  /** A timer that was kept or dropped stays so. */
  lemma KeptOrDropped(tickMicros: nat, s: State, e: Event, id: nat)
    requires tickMicros > 0 && TimerInv(tickMicros, s) && Enabled(s, e) && (Kept(tickMicros, s, id) || id in s.dropped)
    ensures Kept(tickMicros, Apply(tickMicros, s, e), id) || id in Apply(tickMicros, s, e).dropped
  {
    hide Kept, Apply, TimerInv;
    if id in s.dropped {
      DroppedStep(tickMicros, s, e);
    } else {
      KeptStep(tickMicros, s, e, id);
    }
  }

  lemma KeptAll(tickMicros: nat, s: State, e: Event)
    requires tickMicros > 0 && TimerInv(tickMicros, s) && LossInv(tickMicros, s) && Enabled(s, e)
    ensures
      var s' := Apply(tickMicros, s, e);
      && (forall id | id in s'.accepted :: Kept(tickMicros, s', id) || id in s'.dropped)
      && (forall t | Pushed(s'.Pc(t)) :: Kept(tickMicros, s', s'.Pc(t).id) || s'.Pc(t).id in s'.dropped)
  {
    var s' := Apply(tickMicros, s, e);
    hide TimerInv, Apply, Kept, Pushed;
    forall u | Pushed(s'.Pc(u)) ensures Kept(tickMicros, s', s'.Pc(u).id) || s'.Pc(u).id in s'.dropped {
      PushedBefore(tickMicros, s, e, u);
      if Pushed(s.Pc(u)) {
        KeptOrDropped(tickMicros, s, e, s.Pc(u).id);
      } else {
        PushKeeps(tickMicros, s, u);
        assert s' == StepOf(tickMicros, s, u) by { StepApplies(tickMicros, s, u); }
      }
    }
    forall id | id in s'.accepted ensures Kept(tickMicros, s', id) || id in s'.dropped {
      if id !in s.accepted {
        AcceptedBefore(tickMicros, s, e, id);
      }
      KeptOrDropped(tickMicros, s, e, id);
    }
  }

  /** Where a timer can come from: a bucket it was in, the thread that pushed it, the drain that delivered it. */
  lemma BucketsBefore(tickMicros: nat, s: State, e: Event, id: nat, k: nat)
    requires tickMicros > 0 && Enabled(s, e)
    ensures id in Apply(tickMicros, s, e).At(k) ==>
              id in s.At(k) || (e.Step? && s.Pc(e.t).Push? && s.Pc(e.t).id == id)
    ensures Discards(s, e) ==> id in Apply(tickMicros, s, e).At(k) ==> id in s.At(k) && k != s.Pc(e.t).tick
  {
    hide Tick;
  }

  lemma DeliveredBefore(tickMicros: nat, s: State, e: Event, id: nat)
    requires tickMicros > 0 && Enabled(s, e) && id in Apply(tickMicros, s, e).delivered && id !in s.delivered
    ensures !Discards(s, e) && exists k :: id in s.At(k)
  {
    hide Tick;
    assert id in s.At(s.Pc(e.t).next);
  }

  /** What is dropped is gone for good. */
  lemma DroppedGone(tickMicros: nat, s: State, e: Event, id: nat)
    requires tickMicros > 0 && TimerInv(tickMicros, s) && LossInv(tickMicros, s) && Enabled(s, e)
    requires id in Apply(tickMicros, s, e).dropped
    ensures var s' := Apply(tickMicros, s, e);
            id < s.nextId && id !in s'.delivered && forall k :: id !in s'.At(k)
  {
    var s' := Apply(tickMicros, s, e);
    DroppedStep(tickMicros, s, e);
    hide Apply, Tick, Kept, Pushed;
    if id !in s.dropped {
      assert InBucket(tickMicros, s, s.Pc(e.t).tick, id);
    }
    forall k ensures id !in s'.At(k) {
      BucketsBefore(tickMicros, s, e, id, k);
      assert InBucket(tickMicros, s, k, id);
      if id in s.dropped && e.Step? && s.Pc(e.t).Push? {
        assert Unregistered(s.Pc(e.t));
      }
    }
    if id in s'.delivered && id !in s.delivered {
      DeliveredBefore(tickMicros, s, e, id);
    }
  }

  lemma UnregisteredBefore(tickMicros: nat, s: State, e: Event, u: nat)
    requires tickMicros > 0 && Enabled(s, e) && Unregistered(Apply(tickMicros, s, e).Pc(u))
    ensures (Unregistered(s.Pc(u)) && s.Pc(u).id == Apply(tickMicros, s, e).Pc(u).id)
         || (e.NewTimer? && Apply(tickMicros, s, e).Pc(u).id == s.nextId)
  {
    if e.Elapse? || u != e.t {
      OthersStay(tickMicros, s, e, u);
      hide Apply;
    } else {
      hide Tick;
    }
  }

  lemma NeverEmpty(tickMicros: nat, s: State, e: Event)
    requires tickMicros > 0 && Enabled(s, e) && forall k | k in s.buckets :: s.buckets[k] != {}
    ensures forall k | k in Apply(tickMicros, s, e).buckets :: Apply(tickMicros, s, e).buckets[k] != {}
  {
    hide Tick;
    if e.Step? && s.Pc(e.t).Push? {
      assert s.Pc(e.t).id in s.At(s.Pc(e.t).tick) + {s.Pc(e.t).id};
    }
  }

  lemma UnregisteredKept(tickMicros: nat, s: State, e: Event, u: nat)
    requires tickMicros > 0 && TimerInv(tickMicros, s) && LossInv(tickMicros, s) && Enabled(s, e)
    requires Unregistered(Apply(tickMicros, s, e).Pc(u))
    ensures Apply(tickMicros, s, e).Pc(u).id !in Apply(tickMicros, s, e).dropped
  {
    var s' := Apply(tickMicros, s, e);
    DroppedStep(tickMicros, s, e);
    UnregisteredBefore(tickMicros, s, e, u);
    hide Apply, Tick, Kept, Pushed;
    if Unregistered(s.Pc(u)) && s.Pc(u).id == s'.Pc(u).id {
      assert TimerThread(tickMicros, s, u);
      assert Discards(s, e) ==> s.buckets[s.Pc(e.t).tick] == s.At(s.Pc(e.t).tick);
    }
  }

  lemma LossStep(tickMicros: nat, s: State, e: Event)
    requires tickMicros > 0 && TimerInv(tickMicros, s) && LossInv(tickMicros, s) && Enabled(s, e)
    ensures LossInv(tickMicros, Apply(tickMicros, s, e))
  {
    var s' := Apply(tickMicros, s, e);
    assert s.nextId <= s'.nextId by { hide Tick; }
    KeptAll(tickMicros, s, e);
    NeverEmpty(tickMicros, s, e);
    hide Apply, Tick, Kept, Pushed, TimerInv, Unregistered;
    forall id | id in s'.dropped ensures id < s'.nextId && id !in s'.delivered && forall k :: id !in s'.At(k) {
      DroppedGone(tickMicros, s, e, id);
    }
    forall u | Unregistered(s'.Pc(u)) ensures s'.Pc(u).id !in s'.dropped {
      UnregisteredKept(tickMicros, s, e, u);
    }
  }

  lemma {:induction false} RunLoses(tickMicros: nat, run: seq<Event>)
    requires tickMicros > 0 && Exec(tickMicros, run).Some?
    ensures LossInv(tickMicros, Exec(tickMicros, run).value)
  {
    if run != [] {
      RunLoses(tickMicros, run[..|run| - 1]);
      RunKeepsInv(tickMicros, run[..|run| - 1]);
      LossStep(tickMicros, Exec(tickMicros, run[..|run| - 1]).value, run[|run| - 1]);
    }
  }

  /** Under every interleaving an accepted timer, and one that was pushed, is in its bucket or delivered if and only
      if no registration removed it. */
  lemma LostExactlyWhenDropped(tickMicros: nat, run: seq<Event>, id: nat)
    requires tickMicros > 0 && Exec(tickMicros, run).Some?
    requires var s := Exec(tickMicros, run).value; id in s.accepted || exists t :: Pushed(s.Pc(t)) && s.Pc(t).id == id
    ensures var s := Exec(tickMicros, run).value; Kept(tickMicros, s, id) <==> id !in s.dropped
  {
    RunLoses(tickMicros, run);
  }

  /** In every run a step loses timers exactly when a registration whose tick has passed finds a bucket there to
      remove, and then it loses exactly that bucket. */
  lemma LosesExactly(tickMicros: nat, run: seq<Event>, e: Event)
    requires tickMicros > 0 && Exec(tickMicros, run).Some? && Enabled(Exec(tickMicros, run).value, e)
    ensures
      var s := Exec(tickMicros, run).value;
      var s' := Apply(tickMicros, s, e);
      && (s'.dropped != s.dropped <==> Discards(s, e))
      && (Discards(s, e) ==> s.Pc(e.t).tick < s.ticks && s'.dropped - s.dropped == s.At(s.Pc(e.t).tick))
  {
    RunLoses(tickMicros, run);
    RunKeepsInv(tickMicros, run);
    var s := Exec(tickMicros, run).value;
    DroppedStep(tickMicros, s, e);
    hide Apply, Tick, Kept, Pushed;
    if Discards(s, e) {
      var k := s.Pc(e.t).tick;
      assert ClockThread(tickMicros, s, e.t);
      var id :| id in s.buckets[k];
      assert id in s.At(k);
      assert forall x | x in s.buckets[k] :: x in s.At(k) && x !in s.dropped;
    }
  }

  // ----- No accepted timer is stuck -----

  /** A thread still owes the buckets of ticks `next..ticks`. */
  ghost predicate Draining(s: State, t: nat, k: nat) {
    s.Pc(t).Drain? && s.Pc(t).next <= k < s.Pc(t).ticks
  }

  /** If the timer is in a bucket, its tick is still to come or being drained. */
  ghost predicate OnTime(s: State, id: nat) {
    forall k | id in s.At(k) :: s.ticks <= k || exists t :: Draining(s, t, k)
  }

  /** A registration that saw its tick passed has lost its timer to a drain or another registration. */
  predicate LateIsGone(s: State, t: nat) {
    s.Pc(t).Confirm? && s.Pc(t).seen > s.Pc(t).tick ==> s.Pc(t).id !in s.At(s.Pc(t).tick)
  }

  ghost predicate StuckInv(s: State) {
    && (forall id | id in s.accepted :: OnTime(s, id))
    && (forall t | s.Pc(t).Count? :: OnTime(s, s.Pc(t).id))
    && (forall t :: LateIsGone(s, t))
  }

  /** What is being drained stays so until its bucket is gone, and new ticks are drained by the thread that claims
      them. */
  lemma DrainingStep(tickMicros: nat, s: State, e: Event, k: nat)
    requires tickMicros > 0 && Enabled(s, e) && k in Apply(tickMicros, s, e).buckets
    requires s.ticks <= k || exists t :: Draining(s, t, k)
    ensures
      var s' := Apply(tickMicros, s, e);
      s'.ticks <= k || exists t :: Draining(s', t, k)
  {
    var s' := Apply(tickMicros, s, e);
    if s.ticks <= k {
      if s'.ticks > k {
        ClaimedIsDrained(tickMicros, s, e, k);
      }
    } else {
      var t :| Draining(s, t, k);
      if e.Elapse? || e.t != t {
        OthersStay(tickMicros, s, e, t);
      } else {
        OwnDrain(tickMicros, s, e, k);
      }
      hide Apply, Tick;
      assert Draining(s', t, k);
    }
  }

  lemma ClaimedIsDrained(tickMicros: nat, s: State, e: Event, k: nat)
    requires tickMicros > 0 && Enabled(s, e) && s.ticks <= k < Apply(tickMicros, s, e).ticks
    ensures e.Step? && Draining(Apply(tickMicros, s, e), e.t, k)
  {
    hide Tick;
  }

  lemma OwnDrain(tickMicros: nat, s: State, e: Event, k: nat)
    requires tickMicros > 0 && Enabled(s, e) && !e.Elapse? && Draining(s, e.t, k)
    requires k in Apply(tickMicros, s, e).buckets
    ensures Draining(Apply(tickMicros, s, e), e.t, k)
  {
    hide Tick;
  }

  /** A timer that is past its push is not put in a bucket again. */
  lemma OnTimeStep(tickMicros: nat, s: State, e: Event, id: nat)
    requires tickMicros > 0 && Enabled(s, e) && OnTime(s, id)
    requires !(e.Step? && s.Pc(e.t).Push? && s.Pc(e.t).id == id)
    ensures OnTime(Apply(tickMicros, s, e), id)
  {
    var s' := Apply(tickMicros, s, e);
    forall k | id in s'.At(k)
      ensures s'.ticks <= k || exists t :: Draining(s', t, k)
    {
      BucketsBefore(tickMicros, s, e, id, k);
      DrainingStep(tickMicros, s, e, k);
    }
  }

  lemma LateStep(tickMicros: nat, s: State, e: Event, t: nat)
    requires tickMicros > 0 && TimerInv(tickMicros, s) && Enabled(s, e) && LateIsGone(s, t)
    ensures LateIsGone(Apply(tickMicros, s, e), t)
  {
    var s' := Apply(tickMicros, s, e);
    if s'.Pc(t).Confirm? {
      BucketsBefore(tickMicros, s, e, s'.Pc(t).id, s'.Pc(t).tick);
      if e.Elapse? || e.t != t {
        OthersStay(tickMicros, s, e, t);
        hide Apply, Tick;
        assert !e.Elapse? && HasId(s.Pc(e.t)) ==> s.Pc(e.t).id != s.Pc(t).id by { assert HasId(s.Pc(t)); }
      } else {
        hide Tick;
      }
    }
  }

  /** Who reaches the acceptance, and how. */
  lemma CountBefore(tickMicros: nat, s: State, e: Event, t: nat)
    requires tickMicros > 0 && Enabled(s, e) && Apply(tickMicros, s, e).Pc(t).Count?
    ensures
      var pc := Apply(tickMicros, s, e).Pc(t);
      s.Pc(t) == pc ||
      (e == Step(t) && s.Pc(t).Confirm? && s.Pc(t).id == pc.id && s.Pc(t).tick == pc.tick && s.ticks == s.Pc(t).seen
       && Apply(tickMicros, s, e).buckets == s.buckets && Apply(tickMicros, s, e).ticks == s.ticks)
  {
    if e.Elapse? || e.t != t { OthersStay(tickMicros, s, e, t); } else { hide Tick; }
  }

  lemma CountOnTime(tickMicros: nat, s: State, e: Event, t: nat)
    requires tickMicros > 0 && TimerInv(tickMicros, s) && StuckInv(s) && Enabled(s, e)
    requires Apply(tickMicros, s, e).Pc(t).Count?
    ensures OnTime(Apply(tickMicros, s, e), Apply(tickMicros, s, e).Pc(t).id)
  {
    CountBefore(tickMicros, s, e, t);
    var s' := Apply(tickMicros, s, e);
    var id := s'.Pc(t).id;
    hide Apply, Tick;
    if s.Pc(t) == s'.Pc(t) {
      assert HasId(s.Pc(t)) && TimerThread(tickMicros, s, t);
      OnTimeStep(tickMicros, s, e, id);
    } else {
      assert LateIsGone(s, t) && TimerThread(tickMicros, s, t);
      forall k | id in s'.At(k)
        ensures s'.ticks <= k
      {
        assert s'.At(k) == s.At(k) && InBucket(tickMicros, s, k, id);
      }
    }
  }

  lemma StuckStep(tickMicros: nat, s: State, e: Event)
    requires tickMicros > 0 && TimerInv(tickMicros, s) && StuckInv(s) && Enabled(s, e)
    ensures StuckInv(Apply(tickMicros, s, e))
  {
    var s' := Apply(tickMicros, s, e);
    hide Apply, Tick, OnTime, LateIsGone;
    forall t ensures LateIsGone(s', t) {
      assert LateIsGone(s, t);
      LateStep(tickMicros, s, e, t);
    }
    forall t | s'.Pc(t).Count? ensures OnTime(s', s'.Pc(t).id) {
      CountOnTime(tickMicros, s, e, t);
    }
    forall id | id in s'.accepted ensures OnTime(s', id) {
      AcceptedOnTime(tickMicros, s, e, id);
    }
  }

  lemma AcceptedOnTime(tickMicros: nat, s: State, e: Event, id: nat)
    requires tickMicros > 0 && TimerInv(tickMicros, s) && StuckInv(s) && Enabled(s, e)
    requires id in Apply(tickMicros, s, e).accepted
    ensures OnTime(Apply(tickMicros, s, e), id)
  {
    assert OnTime(s, id) by {
      if id !in s.accepted { CountAccepts(tickMicros, s, e, id); }
    }
    if e.Step? { assert TimerThread(tickMicros, s, e.t); }
    if id !in s.accepted { CountAccepts(tickMicros, s, e, id); }
    hide Apply, Tick, OnTime;
    OnTimeStep(tickMicros, s, e, id);
  }

  lemma CountAccepts(tickMicros: nat, s: State, e: Event, id: nat)
    requires tickMicros > 0 && Enabled(s, e) && id in Apply(tickMicros, s, e).accepted && id !in s.accepted
    ensures e.Step? && s.Pc(e.t).Count? && s.Pc(e.t).id == id
  {
    hide Tick;
  }

  lemma {:induction false} RunNeverSticks(tickMicros: nat, run: seq<Event>)
    requires tickMicros > 0 && Exec(tickMicros, run).Some?
    ensures StuckInv(Exec(tickMicros, run).value)
  {
    if run != [] {
      var front, e := run[..|run| - 1], run[|run| - 1];
      RunNeverSticks(tickMicros, front);
      RunKeepsInv(tickMicros, front);
      hide StuckInv, TimerInv, ClockInv, Apply;
      StuckStep(tickMicros, Exec(tickMicros, front).value, e);
    }
  }

  /** Under every interleaving no accepted timer is left behind in a bucket: where one waits, the tick is still to
      come, or a running `next_tick` has the bucket before it. */
  lemma AcceptedIsNotStuck(tickMicros: nat, run: seq<Event>, id: nat, k: nat)
    requires tickMicros > 0 && Exec(tickMicros, run).Some?
    requires id in Exec(tickMicros, run).value.accepted && id in Exec(tickMicros, run).value.At(k)
    ensures
      var s := Exec(tickMicros, run).value;
      s.ticks <= k || exists t :: Draining(s, t, k)
  {
    RunNeverSticks(tickMicros, run);
    assert OnTime(Exec(tickMicros, run).value, id);
  }

  // ----- When nothing is lost -----

  /** Event `e` advances the tick count past the tick of a registration under way. */
  ghost predicate Overlaps(tickMicros: nat, s: State, e: Event)
    requires tickMicros > 0
  {
    Enabled(s, e) && Apply(tickMicros, s, e).ticks != s.ticks &&
    exists u :: Registering(s.Pc(u)) && s.Pc(u).tick < Apply(tickMicros, s, e).ticks
  }

  ghost predicate NoOverlap(tickMicros: nat, run: seq<Event>)
    requires tickMicros > 0
  {
    run != [] ==>
      var front, e := run[..|run| - 1], run[|run| - 1];
      NoOverlap(tickMicros, front) &&
      (Exec(tickMicros, front).Some? ==> !Overlaps(tickMicros, Exec(tickMicros, front).value, e))
  }

  ghost predicate CalmThread(s: State, t: nat) {
    var pc := s.Pc(t);
    && (Registering(pc) ==> s.ticks <= pc.tick && !pc.Discard? && !pc.DiscardLate?)
    && (pc.Confirm? ==> pc.seen <= pc.tick)
  }

  ghost predicate CalmInv(s: State) {
    && s.dropped == {}
    && (forall t :: CalmThread(s, t))
    && (forall k | k in s.buckets && k < s.ticks :: exists t :: Draining(s, t, k))
  }

  lemma CalmOwn(tickMicros: nat, s: State, e: Event)
    requires tickMicros > 0 && Enabled(s, e) && !e.Elapse? && CalmThread(s, e.t)
    requires Apply(tickMicros, s, e).ticks != s.ticks ==> !Registering(s.Pc(e.t))
    ensures CalmThread(Apply(tickMicros, s, e), e.t)
  {
    hide Tick;
  }

  /** Only the exchange of `next_tick` advances the tick count. */
  lemma AdvanceOwn(tickMicros: nat, s: State, e: Event)
    requires tickMicros > 0 && Enabled(s, e) && Apply(tickMicros, s, e).ticks != s.ticks
    ensures e.Step? && s.Pc(e.t).Swap?
  {
    hide Tick;
  }

  lemma CalmThreads(tickMicros: nat, s: State, e: Event, u: nat)
    requires tickMicros > 0 && CalmThread(s, u)
    requires Enabled(s, e) && !Overlaps(tickMicros, s, e)
    ensures CalmThread(Apply(tickMicros, s, e), u)
  {
    hide Tick, Apply;
    var s' := Apply(tickMicros, s, e);
    assert s'.ticks != s.ticks && Registering(s.Pc(u)) ==> s'.ticks <= s.Pc(u).tick;
    if !e.Elapse? && u == e.t {
      if s'.ticks != s.ticks { AdvanceOwn(tickMicros, s, e); }
      CalmOwn(tickMicros, s, e);
    } else {
      OthersStay(tickMicros, s, e, u);
    }
  }

  /** An advance makes its thread owe the new ticks; every other step leaves what is owed, but for the bucket that a
      drain removes and, without late registrations, no bucket below the tick count appears. */
  lemma OwedStep(tickMicros: nat, s: State, e: Event, k: nat)
    requires tickMicros > 0 && Enabled(s, e) && k in Apply(tickMicros, s, e).buckets
    requires !e.Elapse? ==> CalmThread(s, e.t)
    ensures var s' := Apply(tickMicros, s, e);
            && (s.ticks <= k < s'.ticks && e.Step? ==> s.Pc(e.t).Swap? ==>
                s.Pc(e.t).current == s.ticks && Draining(s', e.t, k))
            && (k < s.ticks ==> k in s.buckets)
            && (e.Step? && Draining(s, e.t, k) ==> Draining(s', e.t, k))
            && (s'.ticks != s.ticks ==> e.Step? && s.Pc(e.t).Swap?)
  {
    hide Tick;
  }

  lemma OwedBuckets(tickMicros: nat, s: State, e: Event, k: nat)
    requires tickMicros > 0 && CalmInv(s) && Enabled(s, e)
    requires k in Apply(tickMicros, s, e).buckets && k < Apply(tickMicros, s, e).ticks
    ensures exists u :: Draining(Apply(tickMicros, s, e), u, k)
  {
    hide Tick, Apply;
    var s' := Apply(tickMicros, s, e);
    assert !e.Elapse? ==> CalmThread(s, e.t);
    OwedStep(tickMicros, s, e, k);
    if k >= s.ticks {
      assert Draining(s', e.t, k);
    } else {
      var u :| Draining(s, u, k);
      if e.Elapse? || u != e.t {
        OthersStay(tickMicros, s, e, u);
      } else {
        assert e.Step?;
      }
      assert Draining(s', u, k);
    }
  }

  lemma CalmStep(tickMicros: nat, s: State, e: Event)
    requires tickMicros > 0 && CalmInv(s) && Enabled(s, e) && !Overlaps(tickMicros, s, e)
    ensures CalmInv(Apply(tickMicros, s, e))
  {
    hide Tick, Apply;
    var s' := Apply(tickMicros, s, e);
    DroppedStep(tickMicros, s, e);
    if !e.Elapse? { assert CalmThread(s, e.t); }
    forall u ensures CalmThread(s', u) { assert CalmThread(s, u); CalmThreads(tickMicros, s, e, u); }
    forall k | k in s'.buckets && k < s'.ticks ensures exists u :: Draining(s', u, k) {
      OwedBuckets(tickMicros, s, e, k);
    }
  }

  lemma {:induction false} RunStaysCalm(tickMicros: nat, run: seq<Event>)
    requires tickMicros > 0 && Exec(tickMicros, run).Some? && NoOverlap(tickMicros, run)
    ensures CalmInv(Exec(tickMicros, run).value)
  {
    if run != [] {
      var front, e := run[..|run| - 1], run[|run| - 1];
      RunStaysCalm(tickMicros, front);
      CalmStep(tickMicros, Exec(tickMicros, front).value, e);
    }
  }

  /** When no tick count passes the tick of a registration under way, no timer is ever lost: nothing is dropped,
      every accepted timer is in its bucket or delivered, and a bucket below the current tick is still owed by a
      running `next_tick`. */
  lemma NoOverlapLosesNothing(tickMicros: nat, run: seq<Event>)
    requires tickMicros > 0 && Exec(tickMicros, run).Some? && NoOverlap(tickMicros, run)
    ensures
      var s := Exec(tickMicros, run).value;
      && s.dropped == {}
      && (forall id | id in s.accepted :: Kept(tickMicros, s, id))
      && (forall k | k in s.buckets && k < s.ticks :: exists t :: Draining(s, t, k))
  {
    RunStaysCalm(tickMicros, run);
    RunLoses(tickMicros, run);
  }

  lemma Extend(tickMicros: nat, run: seq<Event>, s: State, e: Event) returns (s': State)
    requires tickMicros > 0 && Exec(tickMicros, run) == Some(s) && Enabled(s, e)
    ensures Exec(tickMicros, run + [e]) == Some(Apply(tickMicros, s, e)) && s' == Apply(tickMicros, s, e)
  {
    assert (run + [e])[..|run|] == run;
    s' := Apply(tickMicros, s, e);
  }

  /** A run in which the registration of timer 0, due in tick 0, has pushed it. */
  lemma PushOne() returns (run: seq<Event>, s: State)
    ensures Exec(1, run) == Some(s) && s.threads == map[0 := Recheck(0, 0)]
    ensures s.now == 0 && s.ticks == 0 && s.nextId == 1
    ensures s.buckets == map[0 := {0}] && s.timerCount == 0 && s.delivered == multiset{}
    ensures s.accepted == {}
  {
    run, s := [], START;
    var a := Step(0);
    s := Extend(1, run, s, NewTimer(0, 0)); run := run + [NewTimer(0, 0)];
    hide Exec;
    s := Extend(1, run, s, a); run := run + [a];
    assert s.Pc(0) == Check(0, 0);
    s := Extend(1, run, s, a); run := run + [a];
    s := Extend(1, run, s, a); run := run + [a];
    assert s.buckets[0] == {0};
    assert s.buckets == map[0 := {0}] && s.threads == map[0 := Recheck(0, 0)];
  }

  /** The same timer, accepted and waiting in its bucket. */
  lemma AcceptOne() returns (run: seq<Event>, s: State)
    ensures Exec(1, run) == Some(s) && s.threads == map[0 := Idle] && s.now == 0 && s.ticks == 0 && s.nextId == 1
    ensures s.buckets == map[0 := {0}] && s.timerCount == 1 && s.delivered == multiset{}
    ensures s.accepted == {0}
  {
    hide Exec;
    run, s := PushOne();
    var a := Step(0);
    s := Extend(1, run, s, a); run := run + [a];
    s := Extend(1, run, s, a); run := run + [a];
    assert s.Pc(0) == Confirm(0, 0, 0);
    s := Extend(1, run, s, a); run := run + [a];
    s := Extend(1, run, s, a); run := run + [a];
    assert s.threads == map[0 := Idle];
  }

  /** The same, and a second registration for tick 0 has pushed and not yet looked again. */
  lemma PushAnother() returns (run: seq<Event>, s: State)
    ensures Exec(1, run) == Some(s) && s.threads == map[0 := Recheck(1, 0)] && s.now == 0 && s.ticks == 0
    ensures s.buckets == map[0 := {0, 1}] && s.timerCount == 1 && s.delivered == multiset{}
  {
    hide Exec;
    run, s := AcceptOne();
    var a := Step(0);
    s := Extend(1, run, s, NewTimer(0, 0)); run := run + [NewTimer(0, 0)];
    s := Extend(1, run, s, a); run := run + [a];
    assert s.Pc(0) == Check(1, 0);
    s := Extend(1, run, s, a); run := run + [a];
    s := Extend(1, run, s, a); run := run + [a];
    assert s.buckets[0] == {0, 1};
    assert s.buckets == map[0 := {0, 1}];
    assert s.threads == map[0 := Recheck(1, 0)];
  }

  /** The same, and `next_tick` has claimed tick 0 without having drained it. */
  lemma ClaimTick() returns (run: seq<Event>, s: State)
    ensures Exec(1, run) == Some(s) && s.Pc(0) == Recheck(1, 0) && s.ticks == 1
    ensures s.buckets == map[0 := {0, 1}] && s.timerCount == 1 && s.delivered == multiset{}
  {
    hide Exec;
    run, s := PushAnother();
    var a := Step(1);
    s := Extend(1, run, s, Elapse(1000)); run := run + [Elapse(1000)];
    s := Extend(1, run, s, NextTick(1)); run := run + [NextTick(1)];
    s := Extend(1, run, s, a); run := run + [a];
    s := Extend(1, run, s, a); run := run + [a];
    assert s.Pc(1) == Swap(0, 1);
    s := Extend(1, run, s, a); run := run + [a];
  }

  /** Accepted timers that still wait. */
  function Living(s: State): set<nat> {
    set id | id in s.accepted && id !in s.delivered && id !in s.dropped
  }

  /** The counter that `timers` reads is the number of living timers if and only if no accepted timer has been
      delivered or lost yet, in every run. */
  lemma CountsLivingExactly(tickMicros: nat, run: seq<Event>)
    requires tickMicros > 0 && Exec(tickMicros, run).Some?
    ensures
      var s := Exec(tickMicros, run).value;
      s.timerCount == |Living(s)| <==> forall id <- s.accepted :: id !in s.delivered && id !in s.dropped
  {
    RunKeepsInv(tickMicros, run);
    var s := Exec(tickMicros, run).value;
    hide Exec, TimerThread, InBucket, ClockInv;
    SmallerSet(Living(s), s.accepted);
    if forall id <- s.accepted :: id !in s.delivered && id !in s.dropped {
      assert Living(s) == s.accepted;
    }
  }

  lemma SmallerSet(a: set<nat>, b: set<nat>)
    requires a <= b
    ensures |a| <= |b| && (|a| == |b| ==> a == b)
  {
    assert b == a + (b - a);
    if |a| == |b| { assert b - a == {}; }
  }

  /** After a delivery it is not: one timer was accepted and delivered, none lives, and the counter is 1. */
  lemma DeliveredStillCounted()
    ensures exists run | Exec(1, run).Some? ::
              var s := Exec(1, run).value;
              s.timerCount == 1 && 0 in s.delivered && Living(s) == {}
  {
    hide Exec;
    var run, s := AcceptOne();
    var a := Step(1);
    s := Extend(1, run, s, Elapse(1000)); run := run + [Elapse(1000)];
    s := Extend(1, run, s, NextTick(1)); run := run + [NextTick(1)];
    s := Extend(1, run, s, a); run := run + [a];
    s := Extend(1, run, s, a); run := run + [a];
    assert s.Pc(1) == Swap(0, 1);
    s := Extend(1, run, s, a); run := run + [a];
    assert s.Pc(1) == Drain(0, 1) && s.At(0) == {0};
    s := Extend(1, run, s, a); run := run + [a];
    assert 0 in s.delivered;
  }

  /** With such an advance an accepted timer can be lost: the other registration removes the bucket they
      share before `next_tick` gets to it. */
  lemma OverlapCanLoseAcceptedTimer()
    ensures exists run | Exec(1, run).Some? ::
              var s := Exec(1, run).value;
              s.timerCount == 1 && 0 in s.dropped && s.delivered == multiset{} && s.buckets == map[]
  {
    var run, s := ClaimTick();
    var s1 := Extend(1, run, s, Step(0));
    assert s1.Pc(0) == Discard(1, 0);
    var s2 := Extend(1, run + [Step(0)], s1, Step(0));
    assert 0 in s2.dropped && s2.buckets == map[];
  }
}
