/** The sleep timer of crates/io/src/mio/timer.rs on top of the time wheel.  Times are nanoseconds since
    the wheel was created. */
module SleepTimer {
  import opened Options
  import opened TimeWheel
  import Races = TimeWheelRaces

  /** `is_expired` of a started timer: `Instant::elapsed` is never negative. */
  predicate Expired(start: nat, duration: nat, tick: nat, now: nat) {
    var elapsed := if now >= start then now - start else 0;
    elapsed >= duration || duration - elapsed < tick
  }

  class MioTimer {
    const duration: nat
    var start: Option<nat>
    var tickDuration: Option<nat>
    var wheelTick: Option<nat>

    constructor (duration: nat)
      ensures this.duration == duration && start == None && tickDuration == None && wheelTick == None
    {
      this.duration := duration;
      start, tickDuration, wheelTick := None, None, None;
    }

    /** The clock is read here and again, later, by the wheel.  A refused timer is already expired. */
    method Start(token: nat, tick: nat, wheel: HashedTimeWheel<nat>, now: nat, later: nat) returns (registered: bool)
      requires wheel.Valid() && now <= later && wheel.ticks <= Tick(wheel.tickMicros, later)
      modifies this, wheel
      ensures wheel.Valid() && wheel.ticks == old(wheel.ticks)
      ensures start == Some(now) && tickDuration == Some(tick)
      ensures
        var due := Tick(wheel.tickMicros, later + duration);
        && registered == (wheel.ticks <= due)
        && wheelTick == (if registered then Some(due) else None)
        && wheel.pending == old(wheel.pending) + (if registered then [(due, token)] else [])
      ensures !registered ==> Expired(now, duration, tick, later)
    {
      start, tickDuration := Some(now), Some(tick);
      wheelTick := wheel.NewTimer(token, duration, later);
      registered := wheelTick.Some?;
      if !registered {
        RefusedIsExpired(wheel.tickMicros, tick, now, later, duration, wheel.ticks, later);
      }
    }

    method IsExpired(now: nat) returns (r: bool)
      requires start.Some? ==> tickDuration.Some?
      ensures r <==> start.Some? && Expired(start.value, duration, tickDuration.value, now)
    {
      if start.None? {
        return false;
      }
      var elapsed := if now >= start.value then now - start.value else 0;
      if elapsed >= duration {
        return true;
      }
      return duration - elapsed < tickDuration.value;
    }
  }

  /** A sleep ends less than a tick early and never late: the check is true exactly when less than one
      tick of the duration is left. */
  lemma EndsWithinATick(start: nat, duration: nat, tick: nat, now: nat)
    requires now >= start && tick > 0
    ensures Expired(start, duration, tick, now) <==> now + tick > start + duration
  {
  }

  /** A timer the wheel delivers is expired, at delivery and ever after. */
  lemma DeliveredIsExpired(tickMicros: nat, tick: nat, start: nat, registered: nat, duration: nat, at: nat, now: nat)
    requires tickMicros > 0 && start <= registered && at <= now
    requires Tick(tickMicros, at) > Tick(tickMicros, registered + duration)
    ensures Expired(start, duration, tick, now)
  {
    TickMonotone(tickMicros, registered + duration, at);
  }

  /** A timer the wheel refuses is expired. */
  lemma RefusedIsExpired(tickMicros: nat, tick: nat, start: nat, registered: nat, duration: nat, ticks: nat, now: nat)
    requires tickMicros > 0 && start <= registered
    requires Tick(tickMicros, registered + duration) < ticks <= Tick(tickMicros, now)
    ensures Expired(start, duration, tick, now)
  {
    DeliveredIsExpired(tickMicros, tick, start, registered, duration, now, now);
  }

  /** In every interleaving of registrations and ticks, a delivered timer's sleep is over. */
  lemma DeliveredInAnyRunIsExpired(tickMicros: nat, run: seq<Races.Event>, id: nat, tick: nat,
    start: nat, duration: nat)
    requires tickMicros > 0 && Races.Exec(tickMicros, run).Some?
    requires
      var s := Races.Exec(tickMicros, run).value;
      id in s.delivered && (id in s.deadlines ==> start + duration <= s.deadlines[id])
    ensures Expired(start, duration, tick, Races.Exec(tickMicros, run).value.now)
  {
    Races.SafeUnderRaces(tickMicros, run);
  }

  /** And a registration that returns None, at whichever of its exits and whatever runs beside it, is of a sleep
      that is over. */
  lemma RefusedInAnyRunIsExpired(tickMicros: nat, run: seq<Races.Event>, t: nat, tick: nat, start: nat, duration: nat)
    requires tickMicros > 0 && Races.Exec(tickMicros, run).Some?
    requires Races.Enabled(Races.Exec(tickMicros, run).value, Races.Step(t))
    requires
      var s := Races.Exec(tickMicros, run).value;
      && (s.Pc(t).Check? || Races.Registering(s.Pc(t))) && Races.StepOf(tickMicros, s, t).Pc(t).Idle?
      && (s.Pc(t).id in s.deadlines ==> start + duration <= s.deadlines[s.Pc(t).id])
    ensures Expired(start, duration, tick, Races.Exec(tickMicros, run).value.now)
  {
    Races.RefusedInAnyRun(tickMicros, run, t);
  }

  /** The first moment at which the wheel can deliver a timer. */
  function FirstDelivery(tickMicros: nat, registered: nat, duration: nat): nat
    requires tickMicros > 0
  {
    TickStart(tickMicros, Tick(tickMicros, registered + duration) + 1)
  }

  /** No delivery can precede the store of a waker if and only if the store is no later than the first moment of the
      tick after the timer's own. */
  lemma StoredInTimeExactly(tickMicros: nat, registered: nat, duration: nat, stored: nat)
    requires tickMicros > 0
    ensures (forall delivered: nat | Tick(tickMicros, delivered) > Tick(tickMicros, registered + duration)
             :: stored <= delivered)
       <==> stored <= FirstDelivery(tickMicros, registered, duration)
  {
    var due := Tick(tickMicros, registered + duration);
    var first := FirstDelivery(tickMicros, registered, duration);
    TickStarts(tickMicros, due + 1);
    forall delivered: nat | Tick(tickMicros, delivered) > due
      ensures first <= delivered
    {
      StartsTick(tickMicros, due + 1, delivered);
    }
    if stored > first {
      assert Tick(tickMicros, first) > due && !(stored <= first);
    }
  }

  /** A moment in a tick or after it is not before the start of that tick. */
  lemma StartsTick(tickMicros: nat, tick: nat, time: nat)
    requires tickMicros > 0 && Tick(tickMicros, time) >= tick
    ensures TickStart(tickMicros, tick) <= time
  {
    var micros := time / 1000;
    assert micros == tickMicros * (micros / tickMicros) + micros % tickMicros;
    MulMonotone(tickMicros, tick, micros / tickMicros);
  }

  /** No missed wake: a waker stored at most one tick after a check that came out false is stored before
      the wheel delivers the timer. */
  lemma StoredBeforeDelivery(
    tickMicros: nat, tick: nat, start: nat, registered: nat, duration: nat, check: nat, stored: nat, delivered: nat)
    requires tickMicros > 0 && start <= registered && start <= check
    requires !Expired(start, duration, tick, check)
    requires stored <= check + tick
    requires Tick(tickMicros, delivered) > Tick(tickMicros, registered + duration)
    ensures stored < delivered
  {
    TickMonotone(tickMicros, registered + duration, delivered);
  }

  /** A waker stored past the first possible delivery can miss it, whenever the false check was made, and then nothing
      wakes the sleeper. */
  lemma LateStoreCanMissDelivery(tickMicros: nat, registered: nat, duration: nat, stored: nat) returns (delivered: nat)
    requires tickMicros > 0 && stored > FirstDelivery(tickMicros, registered, duration)
    ensures Tick(tickMicros, delivered) > Tick(tickMicros, registered + duration) && delivered < stored
  {
    delivered := FirstDelivery(tickMicros, registered, duration);
    TickStarts(tickMicros, Tick(tickMicros, registered + duration) + 1);
  }
}
