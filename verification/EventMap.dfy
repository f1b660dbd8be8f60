/** The event map of crates/future/src/event_map.rs: tasks register for an event while they hold the
    state lock, notifiers remove the registration, set its reason and wake it.  Any number of waits and
    notifiers, any number of waits per event; one step per map operation or atomic access. */
module EventMap {
  import opened Options

  datatype Reason = Unset | On | Cancel | Destroy

  /** What a `Wait` future does next. */
  datatype WaitPc =
    | Absent
    | Insert(event: nat)                  // wakers.insert, holding the state lock
    | Unlock(event: nat)                  // Locker::unlock
    | Check(event: nat)                   // reason.load
    | Parked(event: nat)                  // returned Pending
    | Done(reason: Reason)                // returned Ready
    | Dropped                             // dropped while pending
    | Unpolled                            // dropped before its first poll

  /** What a thread in `notify_one` does next. */
  datatype NotifyPc =
    | Idle
    | Remove(event: nat, reason: Reason)  // wakers.remove
    | Store(wait: nat, reason: Reason)    // reason.store
    | Wake(wait: nat)                     // waker.wake

  datatype Holder = Free | Wait(wait: nat) | Other

  /** `woken` holds the waits whose waker fired; `displaced` those whose registration left the map
      unwoken, overwritten by a later wait on the same event or dropped by `wait_cancel`. */
  datatype State = State(
    lock: Holder, wakers: map<nat, nat>, reasons: map<nat, Reason>, waits: map<nat, WaitPc>,
    notifiers: map<nat, NotifyPc>, woken: set<nat>, displaced: set<nat>)
  {
    function WaitOf(w: nat): WaitPc {
      if w in waits then waits[w] else Absent
    }

    function NotifierOf(n: nat): NotifyPc {
      if n in notifiers then notifiers[n] else Idle
    }

    function ReasonOf(w: nat): Reason {
      if w in reasons then reasons[w] else Unset
    }

    function SetWait(w: nat, pc: WaitPc): State {
      this.(waits := waits[w := pc])
    }

    function SetNotifier(n: nat, pc: NotifyPc): State {
      this.(notifiers := notifiers[n := pc])
    }
  }

  datatype Event =
    | Begin(w: nat, event: nat)           // wait(), by a task that just took the state lock
    | WaitStep(w: nat)
    | Repoll(w: nat)
    | Drop(w: nat)
    | DropUnpolled(w: nat)                // the guard it holds releases the state lock
    | Notify(n: nat, event: nat, reason: Reason)
    | NotifyStep(n: nat)
    | WaitCancel(event: nat)
    | LockOther                           // another critical section on the state begins
    | UnlockOther

  predicate Enabled(s: State, e: Event) {
    match e
    case Begin(w, _) => s.WaitOf(w).Absent? && s.lock.Free?
    case WaitStep(w) => s.WaitOf(w).Insert? || s.WaitOf(w).Unlock? || s.WaitOf(w).Check?
    case Repoll(w) => s.WaitOf(w).Parked?
    case Drop(w) => s.WaitOf(w).Parked?
    case DropUnpolled(w) => s.WaitOf(w).Insert?
    case Notify(n, _, r) => s.NotifierOf(n).Idle? && !r.Unset?
    case NotifyStep(n) => !s.NotifierOf(n).Idle?
    case WaitCancel(_) => true
    case LockOther => s.lock.Free?
    case UnlockOther => s.lock.Other?
  }

  /** The waits whose registration under `ev` is lost when the entry is replaced or removed. */
  function Losing(s: State, ev: nat): set<nat> {
    if ev in s.wakers then {s.wakers[ev]} else {}
  }

  function Apply(s: State, e: Event): State
    requires Enabled(s, e)
  {
    match e
    case Begin(w, ev) => s.(lock := Wait(w)).SetWait(w, Insert(ev))
    case WaitStep(w) => (
      match s.WaitOf(w)
      case Insert(ev) =>
        s.(wakers := s.wakers[ev := w], displaced := s.displaced + Losing(s, ev)).SetWait(w, Unlock(ev))
      case Unlock(ev) => s.(lock := Free).SetWait(w, Check(ev))
      case Check(ev) => s.SetWait(w, if s.ReasonOf(w).Unset? then Parked(ev) else Done(s.ReasonOf(w)))
    )
    case Repoll(w) => s.SetWait(w, Check(s.WaitOf(w).event))
    case Drop(w) => s.SetWait(w, Dropped)
    case DropUnpolled(w) => s.(lock := Free).SetWait(w, Unpolled)
    case Notify(n, ev, r) => s.SetNotifier(n, Remove(ev, r))
    case NotifyStep(n) => (
      match s.NotifierOf(n)
      case Remove(ev, r) =>
        if ev in s.wakers then s.(wakers := s.wakers - {ev}).SetNotifier(n, Store(s.wakers[ev], r))
        else s.SetNotifier(n, Idle)
      case Store(w, r) => s.(reasons := s.reasons[w := r]).SetNotifier(n, Wake(w))
      case Wake(w) => s.(woken := s.woken + {w}).SetNotifier(n, Idle)
    )
    case WaitCancel(ev) => s.(wakers := s.wakers - {ev}, displaced := s.displaced + Losing(s, ev))
    case LockOther => s.(lock := Other)
    case UnlockOther => s.(lock := Free)
  }

  function Exec(run: seq<Event>): Option<State> {
    if run == [] then Some(State(Free, map[], map[], map[], map[], {}, {}))
    else
      var before := Exec(run[..|run| - 1]);
      var e := run[|run| - 1];
      if before.Some? && Enabled(before.value, e) then Some(Apply(before.value, e)) else None
  }

  // ----- The invariant -----

  predicate InMap(s: State, w: nat) {
    exists ev | ev in s.wakers :: s.wakers[ev] == w
  }

  predicate Storing(s: State, n: nat, w: nat) {
    s.NotifierOf(n).Store? && s.NotifierOf(n).wait == w
  }

  predicate Waking(s: State, n: nat, w: nat) {
    s.NotifierOf(n) == Wake(w)
  }

  predicate Held(s: State, n: nat, w: nat) {
    Storing(s, n, w) || Waking(s, n, w)
  }

  /** The wait's registration has been inserted. */
  predicate Registered(s: State, w: nat) {
    !s.WaitOf(w).Absent? && !s.WaitOf(w).Insert? && !s.WaitOf(w).Unpolled?
  }

  /** Where the registration of `w` is: nowhere before it is inserted; then in the map, with one
      notifier, used up or displaced. */
  ghost predicate WaitInv(s: State, w: nat) {
    && (s.lock == Wait(w) <==> s.WaitOf(w).Insert? || s.WaitOf(w).Unlock?)
    && (!Registered(s, w) ==> !InMap(s, w) && w !in s.displaced && s.ReasonOf(w).Unset? && w !in s.woken)
    && (InMap(s, w) ==> w !in s.displaced && s.ReasonOf(w).Unset? && w !in s.woken)
    && (w in s.displaced ==> s.ReasonOf(w).Unset? && w !in s.woken)
    && (Registered(s, w) && s.ReasonOf(w).Unset? ==>
          InMap(s, w) || w in s.displaced || exists n :: Storing(s, n, w))
    && (!s.ReasonOf(w).Unset? ==> w in s.woken || exists n :: Waking(s, n, w))
    && (w in s.woken ==> !s.ReasonOf(w).Unset?)
    && (s.WaitOf(w).Done? ==> !s.ReasonOf(w).Unset? && s.WaitOf(w).reason == s.ReasonOf(w))
    && ((s.WaitOf(w).Unlock? || s.WaitOf(w).Check? || s.WaitOf(w).Parked?) && InMap(s, w) ==>
          s.WaitOf(w).event in s.wakers && s.wakers[s.WaitOf(w).event] == w)
  }

  ghost predicate HeldInv(s: State, n: nat, w: nat) {
    Held(s, n, w) ==>
      && Registered(s, w) && !InMap(s, w) && w !in s.displaced && w !in s.woken
      && (Storing(s, n, w) ==> s.ReasonOf(w).Unset?)
      && (Waking(s, n, w) ==> !s.ReasonOf(w).Unset?)
      && (s.NotifierOf(n).Store? ==> !s.NotifierOf(n).reason.Unset?)
  }

  ghost predicate Inv(s: State) {
    && (forall w :: WaitInv(s, w))
    && (forall n, w :: HeldInv(s, n, w))
    && (forall n, m, w | Held(s, n, w) && Held(s, m, w) :: n == m)
    && (forall a, b | a in s.wakers && b in s.wakers && s.wakers[a] == s.wakers[b] :: a == b)
    && (forall n | s.NotifierOf(n).Remove? :: !s.NotifierOf(n).reason.Unset?)
  }

  // ----- Preservation -----

  predicate ByWait(e: Event) {
    e.Begin? || e.WaitStep? || e.Repoll? || e.Drop? || e.DropUnpolled?
  }

  predicate ByNotifier(e: Event) {
    e.Notify? || e.NotifyStep?
  }

  /** Which waits stay in the map. */
  lemma MapStep(s: State, e: Event, w: nat)
    requires Inv(s) && Enabled(s, e)
    ensures InMap(Apply(s, e), w) ==> InMap(s, w) || (e == WaitStep(w) && s.WaitOf(w).Insert?)
    ensures e == WaitStep(w) && s.WaitOf(w).Insert? ==> InMap(Apply(s, e), w)
    ensures InMap(s, w) && !InMap(Apply(s, e), w) ==>
              w in Apply(s, e).displaced || (e.NotifyStep? && Storing(Apply(s, e), e.n, w))
    ensures w in Apply(s, e).displaced ==> w in s.displaced || InMap(s, w)
    ensures InMap(Apply(s, e), w) && InMap(s, w) ==> w in Apply(s, e).displaced ==> w in s.displaced
  {
    var s' := Apply(s, e);
    assert WaitInv(s, w);
    if InMap(s, w) {
      var ev :| ev in s.wakers && s.wakers[ev] == w;
      if ev in s'.wakers && s'.wakers[ev] == w { assert InMap(s', w); }
    }
    if e == WaitStep(w) && s.WaitOf(w).Insert? {
      assert s'.wakers[s.WaitOf(w).event] == w;
    }
    if InMap(s', w) {
      var ev :| ev in s'.wakers && s'.wakers[ev] == w;
      if ev in s.wakers && s.wakers[ev] == w { assert InMap(s, w); }
    }
  }

  lemma WaitInvNotify(s: State, e: Event, w: nat)
    requires Inv(s) && Enabled(s, e) && e.Notify?
    ensures WaitInv(Apply(s, e), w)
  {
    var s' := Apply(s, e);
    assert WaitInv(s, w) && HeldInv(s, e.n, w);
    MapStep(s, e, w);
    forall m | m != e.n ensures Storing(s', m, w) <==> Storing(s, m, w) {}
    forall m | m != e.n ensures Waking(s', m, w) <==> Waking(s, m, w) {}
  }

  lemma WaitInvRemove(s: State, e: Event, w: nat)
    requires Inv(s) && Enabled(s, e) && e.NotifyStep? && s.NotifierOf(e.n).Remove?
    ensures WaitInv(Apply(s, e), w)
  {
    var s' := Apply(s, e);
    assert WaitInv(s, w) && HeldInv(s, e.n, w);
    MapStep(s, e, w);
    forall m | m != e.n ensures Storing(s', m, w) <==> Storing(s, m, w) {}
    forall m | m != e.n ensures Waking(s', m, w) <==> Waking(s, m, w) {}
  }

  lemma WaitInvStore(s: State, e: Event, w: nat)
    requires Inv(s) && Enabled(s, e) && e.NotifyStep? && s.NotifierOf(e.n).Store?
    ensures WaitInv(Apply(s, e), w)
  {
    var s' := Apply(s, e);
    assert WaitInv(s, w) && HeldInv(s, e.n, w);
    MapStep(s, e, w);
    forall m | m != e.n ensures Storing(s', m, w) <==> Storing(s, m, w) {}
    forall m | m != e.n ensures Waking(s', m, w) <==> Waking(s, m, w) {}
    assert Storing(s, e.n, w) ==> Waking(s', e.n, w);
  }

  lemma WaitInvWake(s: State, e: Event, w: nat)
    requires Inv(s) && Enabled(s, e) && e.NotifyStep? && s.NotifierOf(e.n).Wake?
    ensures WaitInv(Apply(s, e), w)
  {
    var s' := Apply(s, e);
    assert WaitInv(s, w) && HeldInv(s, e.n, w);
    MapStep(s, e, w);
    forall m | m != e.n ensures Storing(s', m, w) <==> Storing(s, m, w) {}
    forall m | m != e.n ensures Waking(s', m, w) <==> Waking(s, m, w) {}
  }

  lemma WaitInvStepNotifier(s: State, e: Event, w: nat)
    requires Inv(s) && Enabled(s, e) && ByNotifier(e)
    ensures WaitInv(Apply(s, e), w)
  {
    if e.Notify? {
      WaitInvNotify(s, e, w);
    } else if s.NotifierOf(e.n).Remove? {
      WaitInvRemove(s, e, w);
    } else if s.NotifierOf(e.n).Store? {
      WaitInvStore(s, e, w);
    } else {
      WaitInvWake(s, e, w);
    }
    hide WaitInv, Apply, Inv;
  }

  lemma WaitInvInsert(s: State, e: Event, w: nat)
    requires Inv(s) && Enabled(s, e) && e.WaitStep? && s.WaitOf(e.w).Insert?
    ensures WaitInv(Apply(s, e), w)
  {
    var s' := Apply(s, e);
    assert WaitInv(s, w);
    MapStep(s, e, w);
    assert WaitInv(s, e.w);
    forall m ensures Storing(s', m, w) <==> Storing(s, m, w) {}
    forall m ensures Waking(s', m, w) <==> Waking(s, m, w) {}
  }

  lemma WaitInvPoll(s: State, e: Event, w: nat)
    requires Inv(s) && Enabled(s, e) && e.WaitStep? && !s.WaitOf(e.w).Insert?
    ensures WaitInv(Apply(s, e), w)
  {
    var s' := Apply(s, e);
    assert WaitInv(s, w);
    MapStep(s, e, w);
    assert WaitInv(s, e.w);
    forall m ensures Storing(s', m, w) <==> Storing(s, m, w) {}
    forall m ensures Waking(s', m, w) <==> Waking(s, m, w) {}
  }

  lemma WaitInvCall(s: State, e: Event, w: nat)
    requires Inv(s) && Enabled(s, e) && ByWait(e) && !e.WaitStep?
    ensures WaitInv(Apply(s, e), w)
  {
    var s' := Apply(s, e);
    assert WaitInv(s, w);
    MapStep(s, e, w);
    assert WaitInv(s, e.w);
    forall m ensures Storing(s', m, w) <==> Storing(s, m, w) {}
    forall m ensures Waking(s', m, w) <==> Waking(s, m, w) {}
  }

  lemma WaitInvOther(s: State, e: Event, w: nat)
    requires Inv(s) && Enabled(s, e) && !ByWait(e) && !ByNotifier(e)
    ensures WaitInv(Apply(s, e), w)
  {
    var s' := Apply(s, e);
    assert WaitInv(s, w);
    MapStep(s, e, w);
    forall m ensures Storing(s', m, w) <==> Storing(s, m, w) {}
    forall m ensures Waking(s', m, w) <==> Waking(s, m, w) {}
  }

  lemma WaitInvStepWait(s: State, e: Event, w: nat)
    requires Inv(s) && Enabled(s, e) && !ByNotifier(e)
    ensures WaitInv(Apply(s, e), w)
  {
    if !ByWait(e) {
      WaitInvOther(s, e, w);
    } else if !e.WaitStep? {
      WaitInvCall(s, e, w);
    } else if s.WaitOf(e.w).Insert? {
      WaitInvInsert(s, e, w);
    } else {
      WaitInvPoll(s, e, w);
    }
    hide WaitInv, Apply, Inv;
  }

  lemma HeldInvNotifier(s: State, e: Event, n: nat, w: nat)
    requires Inv(s) && Enabled(s, e) && ByNotifier(e)
    ensures HeldInv(Apply(s, e), n, w)
  {
    var s' := Apply(s, e);
    assert WaitInv(s, w) && HeldInv(s, n, w) && HeldInv(s, e.n, w);
    MapStep(s, e, w);
    assert Held(s, n, w) && Held(s, e.n, w) ==> n == e.n;
    if n == e.n && e.NotifyStep? && s.NotifierOf(n).Remove? && Held(s', n, w) {
      var ev := s.NotifierOf(n).event;
      assert ev in s.wakers && s.wakers[ev] == w;
      assert InMap(s, w);
    }
  }

  lemma HeldInvWait(s: State, e: Event, n: nat, w: nat)
    requires Inv(s) && Enabled(s, e) && !ByNotifier(e)
    ensures HeldInv(Apply(s, e), n, w)
  {
    assert WaitInv(s, w) && HeldInv(s, n, w);
    MapStep(s, e, w);
    assert Apply(s, e).NotifierOf(n) == s.NotifierOf(n);
  }

  lemma HeldInvStep(s: State, e: Event, n: nat, w: nat)
    requires Inv(s) && Enabled(s, e)
    ensures HeldInv(Apply(s, e), n, w)
  {
    if ByNotifier(e) { HeldInvNotifier(s, e, n, w); } else { HeldInvWait(s, e, n, w); }
    hide HeldInv, Apply, Inv;
  }

  /** A notifier that holds a wait held it before, or has just removed it from the map. */
  lemma HeldBefore(s: State, e: Event, n: nat, w: nat)
    requires Enabled(s, e) && Held(Apply(s, e), n, w)
    ensures Held(s, n, w) || (InMap(s, w) && e.NotifyStep? && e.n == n)
  {
  }

  lemma OneNotifier(s: State, e: Event, n: nat, m: nat, w: nat)
    requires Inv(s) && Enabled(s, e) && Held(Apply(s, e), n, w) && Held(Apply(s, e), m, w)
    ensures n == m
  {
    HeldBefore(s, e, n, w);
    HeldBefore(s, e, m, w);
    hide Apply, InMap, Held;
    assert HeldInv(s, n, w) && HeldInv(s, m, w);
  }

  lemma OneEvent(s: State, e: Event, a: nat, b: nat)
    requires Inv(s) && Enabled(s, e)
    requires a in Apply(s, e).wakers && b in Apply(s, e).wakers && Apply(s, e).wakers[a] == Apply(s, e).wakers[b]
    ensures a == b
  {
    var w := Apply(s, e).wakers[a];
    if e == WaitStep(w) && s.WaitOf(w).Insert? {
      assert WaitInv(s, w) && !InMap(s, w);
    }
  }

  lemma UniqueStep(s: State, e: Event)
    requires Inv(s) && Enabled(s, e)
    ensures
      var s' := Apply(s, e);
      && (forall n, m, w | Held(s', n, w) && Held(s', m, w) :: n == m)
      && (forall a, b | a in s'.wakers && b in s'.wakers && s'.wakers[a] == s'.wakers[b] :: a == b)
  {
    var s' := Apply(s, e);
    hide Apply, Held, Inv;
    forall n, m, w | Held(s', n, w) && Held(s', m, w) ensures n == m {
      OneNotifier(s, e, n, m, w);
    }
    forall a, b | a in s'.wakers && b in s'.wakers && s'.wakers[a] == s'.wakers[b] ensures a == b {
      OneEvent(s, e, a, b);
    }
  }

  lemma StepKeepsInv(s: State, e: Event)
    requires Inv(s) && Enabled(s, e)
    ensures Inv(Apply(s, e))
  {
    var s' := Apply(s, e);
    forall w ensures WaitInv(s', w) {
      if ByNotifier(e) { WaitInvStepNotifier(s, e, w); } else { WaitInvStepWait(s, e, w); }
    }
    forall n, w ensures HeldInv(s', n, w) { HeldInvStep(s, e, n, w); }
    UniqueStep(s, e);
    forall n | s'.NotifierOf(n).Remove? ensures !s'.NotifierOf(n).reason.Unset? {
      assert s'.NotifierOf(n) == s.NotifierOf(n) || e.Notify?;
    }
  }

  lemma {:induction false} RunKeepsInv(run: seq<Event>)
    requires Exec(run).Some?
    ensures Inv(Exec(run).value)
  {
    if run != [] {
      RunKeepsInv(run[..|run| - 1]);
      StepKeepsInv(Exec(run[..|run| - 1]).value, run[|run| - 1]);
    }
  }

  // ----- What holds in every run -----

  /** Some thread or the map itself is about to deliver the wakeup of `w`, or has delivered it. */
  ghost predicate Attended(s: State, w: nat) {
    (exists ev | ev in s.wakers :: s.wakers[ev] == w) || (exists n :: Held(s, n, w)) || w in s.woken
  }

  /** Race-free hand-off: a registered wait whose reason is unset has its waker in the map under its own
      event, or with exactly one notifier about to set the reason; a set reason is followed by its wake.
      A parked wait is left unattended exactly when its registration was displaced. */
  lemma HandOff(run: seq<Event>, w: nat)
    requires Exec(run).Some? && Exec(run).value.WaitOf(w).Parked?
    ensures
      var s := Exec(run).value;
      && (Attended(s, w) <==> w !in s.displaced)
      && (w !in s.displaced && s.ReasonOf(w).Unset? ==>
            (s.WaitOf(w).event in s.wakers && s.wakers[s.WaitOf(w).event] == w)
            || exists n :: Storing(s, n, w))
      && (!s.ReasonOf(w).Unset? ==> w in s.woken || exists n :: Waking(s, n, w))
      && (forall n, m | Held(s, n, w) && Held(s, m, w) :: n == m)
  {
    RunKeepsInv(run);
    var s := Exec(run).value;
    assert WaitInv(s, w);
    if n :| Held(s, n, w) { assert HeldInv(s, n, w); }
    if n :| Storing(s, n, w) { assert Held(s, n, w); }
    if n :| Waking(s, n, w) { assert Held(s, n, w); }
    assert InMap(s, w) <==> exists ev | ev in s.wakers :: s.wakers[ev] == w;
  }

  /** Registration precedes release of the state lock: once the lock is free or taken by someone else, a
      wait that began is registered, so no notification made under the lock can miss it, unless it was dropped
      without ever being polled. */
  lemma RegisteredBeforeUnlock(run: seq<Event>, w: nat)
    requires Exec(run).Some?
    requires !Exec(run).value.WaitOf(w).Absent? && Exec(run).value.lock != Wait(w)
    ensures
      var s := Exec(run).value;
      s.WaitOf(w).Unpolled? || (Registered(s, w) && (w !in s.displaced && s.ReasonOf(w).Unset? ==> Attended(s, w)))
  {
    RunKeepsInv(run);
    var s := Exec(run).value;
    assert WaitInv(s, w);
    if n :| Storing(s, n, w) { assert Held(s, n, w); }
  }

  /** The wait registered for `ev` can still be polled. */
  predicate Pending(s: State, ev: nat) {
    ev in s.wakers && !s.WaitOf(s.wakers[ev]).Dropped?
  }

  /** Event `e` throws away the registration of a wait that was not dropped: by a second wait on the event, or by a
      cancel.  A registration that a dropped wait left behind may be replaced at any time. */
  predicate Strands(s: State, e: Event) {
    match e
    case WaitStep(w) => s.WaitOf(w).Insert? && Pending(s, s.WaitOf(w).event)
    case WaitCancel(ev) => Pending(s, ev)
    case _ => false
  }

  predicate OneWaiterPerEvent(run: seq<Event>) {
    run != [] ==>
      var front, e := run[..|run| - 1], run[|run| - 1];
      OneWaiterPerEvent(front) && (Exec(front).Some? ==> !Strands(Exec(front).value, e))
  }

  lemma StrandsNobody(s: State, e: Event)
    requires Enabled(s, e) && !Strands(s, e) && forall x <- s.displaced :: s.WaitOf(x).Dropped?
    ensures forall x <- Apply(s, e).displaced :: Apply(s, e).WaitOf(x).Dropped?
  {
    var s' := Apply(s, e);
    forall x | x in s'.displaced
      ensures s'.WaitOf(x).Dropped?
    {
      assert s.WaitOf(x).Dropped?;
    }
  }

  /** A step leaves some wait behind that can still be polled exactly when it does so. */
  lemma StrandsExactly(s: State, e: Event)
    requires Inv(s) && Enabled(s, e)
    ensures var s' := Apply(s, e);
            Strands(s, e) <==> exists x :: x in s'.displaced && x !in s.displaced && !s'.WaitOf(x).Dropped?
  {
    var s' := Apply(s, e);
    if Strands(s, e) {
      var ev := if e.WaitCancel? then e.event else s.WaitOf(e.w).event;
      var x := s.wakers[ev];
      assert InMap(s, x) && WaitInv(s, x);
      assert e.WaitStep? ==> WaitInv(s, e.w);
      assert x in s'.displaced && x !in s.displaced && !s'.WaitOf(x).Dropped?;
    }
  }

  /** With one waiter at a time per event, only waits that were dropped are ever displaced, so every parked wait is
      attended: timing out a wait and waiting again on the same event is safe. */
  lemma {:induction false} OneWaiterIsNeverStranded(run: seq<Event>, w: nat)
    requires Exec(run).Some? && OneWaiterPerEvent(run)
    ensures forall x <- Exec(run).value.displaced :: Exec(run).value.WaitOf(x).Dropped?
    ensures Exec(run).value.WaitOf(w).Parked? ==> Attended(Exec(run).value, w)
  {
    if run != [] {
      OneWaiterIsNeverStranded(run[..|run| - 1], w);
      StrandsNobody(Exec(run[..|run| - 1]).value, run[|run| - 1]);
    }
    if Exec(run).value.WaitOf(w).Parked? { HandOff(run, w); }
  }

  /** A displaced wait stays displaced, unwoken and without a reason, whatever happens next. */
  lemma DisplacedForever(run: seq<Event>, e: Event, w: nat)
    requires Exec(run).Some? && Enabled(Exec(run).value, e) && w in Exec(run).value.displaced
    ensures
      var s' := Apply(Exec(run).value, e);
      w in s'.displaced && w !in s'.woken && s'.ReasonOf(w).Unset? && !s'.WaitOf(w).Done?
  {
    RunKeepsInv(run);
    StepKeepsInv(Exec(run).value, e);
    assert WaitInv(Exec(run).value, w) && WaitInv(Apply(Exec(run).value, e), w);
  }

  // ----- Where a reason comes from -----

  ghost predicate Called(run: seq<Event>, n: nat, ev: nat, r: Reason) {
    Notify(n, ev, r) in run
  }

  ghost predicate Began(run: seq<Event>, w: nat, ev: nat) {
    Begin(w, ev) in run
  }

  /** Notifier `n`, called with reason `r` on event `ev`, removed the registration of `w` at step `j`. */
  ghost predicate RemovedAt(run: seq<Event>, j: nat, n: nat, w: nat, ev: nat, r: Reason) {
    && j < |run| && run[j] == NotifyStep(n) && Exec(run[..j]).Some?
    && var s := Exec(run[..j]).value;
       s.NotifierOf(n) == Remove(ev, r) && ev in s.wakers && s.wakers[ev] == w
  }

  ghost predicate NotifiedWith(run: seq<Event>, w: nat, r: Reason) {
    exists j: nat, n: nat, ev: nat ::
      RemovedAt(run, j, n, w, ev, r) && Called(run[..j], n, ev, r) && Began(run[..j], w, ev)
  }

  lemma NotifiedLater(run: seq<Event>, e: Event, w: nat, r: Reason)
    requires NotifiedWith(run, w, r)
    ensures NotifiedWith(run + [e], w, r)
  {
    var j: nat, n: nat, ev: nat :|
      RemovedAt(run, j, n, w, ev, r) && Called(run[..j], n, ev, r) && Began(run[..j], w, ev);
    assert (run + [e])[..j] == run[..j];
    hide Exec;
    assert RemovedAt(run + [e], j, n, w, ev, r);
  }

  lemma NotifiedNow(run: seq<Event>, n: nat, w: nat, ev: nat, r: Reason)
    requires Exec(run).Some? && Exec(run).value.NotifierOf(n) == Remove(ev, r)
    requires ev in Exec(run).value.wakers && Exec(run).value.wakers[ev] == w
    requires Called(run, n, ev, r) && Began(run, w, ev)
    ensures NotifiedWith(run + [NotifyStep(n)], w, r)
  {
    hide Exec;
    assert (run + [NotifyStep(n)])[..|run|] == run;
    assert RemovedAt(run + [NotifyStep(n)], |run|, n, w, ev, r);
  }

  /** What each thread and cell holds goes back to a call. */
  ghost predicate SourceInv(run: seq<Event>, s: State) {
    && (forall n | s.NotifierOf(n).Remove? :: Called(run, n, s.NotifierOf(n).event, s.NotifierOf(n).reason))
    && (forall w | s.WaitOf(w).Insert? :: Began(run, w, s.WaitOf(w).event))
    && (forall ev | ev in s.wakers :: Began(run, s.wakers[ev], ev))
    && (forall n | s.NotifierOf(n).Store? :: NotifiedWith(run, s.NotifierOf(n).wait, s.NotifierOf(n).reason))
    && (forall w | !s.ReasonOf(w).Unset? :: NotifiedWith(run, w, s.ReasonOf(w)))
  }

  /** Where a step takes these from. */
  lemma SourceFacts(s: State, e: Event)
    requires Enabled(s, e)
    ensures
      var s' := Apply(s, e);
      && (forall n | s'.NotifierOf(n).Remove? ::
            s'.NotifierOf(n) == s.NotifierOf(n) || e == Notify(n, s'.NotifierOf(n).event, s'.NotifierOf(n).reason))
      && (forall w | s'.WaitOf(w).Insert? :: s'.WaitOf(w) == s.WaitOf(w) || e == Begin(w, s'.WaitOf(w).event))
      && (forall ev | ev in s'.wakers ::
            (ev in s.wakers && s.wakers[ev] == s'.wakers[ev]) ||
            s.WaitOf(s'.wakers[ev]) == Insert(ev))
  {
  }

  lemma SourceFactsNotifier(s: State, e: Event)
    requires Enabled(s, e)
    ensures
      var s' := Apply(s, e);
      && (forall n | s'.NotifierOf(n).Store? ::
            s'.NotifierOf(n) == s.NotifierOf(n) ||
            (e == NotifyStep(n) && s.NotifierOf(n).Remove? && s.NotifierOf(n).reason == s'.NotifierOf(n).reason &&
             s.NotifierOf(n).event in s.wakers && s.wakers[s.NotifierOf(n).event] == s'.NotifierOf(n).wait))
      && (forall w | !s'.ReasonOf(w).Unset? ::
            s'.ReasonOf(w) == s.ReasonOf(w) ||
            (e.NotifyStep? && s.NotifierOf(e.n) == Store(w, s'.ReasonOf(w))))
  {
  }

  lemma {:induction false} RunKeepsSources(run: seq<Event>)
    requires Exec(run).Some?
    ensures SourceInv(run, Exec(run).value)
  {
    if run != [] {
      var front, e := run[..|run| - 1], run[|run| - 1];
      assert run == front + [e];
      RunKeepsSources(front);
      SourceStep(front, Exec(front).value, e);
    }
  }

  lemma SourceStep(run: seq<Event>, s: State, e: Event)
    requires Exec(run) == Some(s) && SourceInv(run, s) && Enabled(s, e)
    ensures SourceInv(run + [e], Apply(s, e))
  {
    SourceFacts(s, e);
    SourceFactsNotifier(s, e);
    var s' := Apply(s, e);
    hide Exec, Apply, Enabled, NotifiedWith;
    forall n | s'.NotifierOf(n).Store?
      ensures NotifiedWith(run + [e], s'.NotifierOf(n).wait, s'.NotifierOf(n).reason)
    {
      if s'.NotifierOf(n) == s.NotifierOf(n) {
        NotifiedLater(run, e, s'.NotifierOf(n).wait, s'.NotifierOf(n).reason);
      } else {
        NotifiedNow(run, n, s'.NotifierOf(n).wait, s.NotifierOf(n).event, s'.NotifierOf(n).reason);
      }
    }
    forall w | !s'.ReasonOf(w).Unset?
      ensures NotifiedWith(run + [e], w, s'.ReasonOf(w))
    {
      NotifiedLater(run, e, w, s'.ReasonOf(w));
    }
  }

  /** A wait ends with the reason of the call that reached it: in every run, a notifier that was called with that very
      reason on the wait's own event removed its registration. */
  lemma EndsWithItsReason(run: seq<Event>, w: nat)
    requires Exec(run).Some? && Exec(run).value.WaitOf(w).Done?
    ensures
      var r := Exec(run).value.WaitOf(w).reason;
      exists j: nat, n: nat, ev: nat ::
      RemovedAt(run, j, n, w, ev, r) && Called(run[..j], n, ev, r) && Began(run[..j], w, ev)
  {
    RunKeepsInv(run);
    RunKeepsSources(run);
    assert WaitInv(Exec(run).value, w);
  }

  lemma Extend(run: seq<Event>, s: State, e: Event) returns (s': State)
    requires Exec(run) == Some(s) && Enabled(s, e)
    ensures Exec(run + [e]) == Some(Apply(s, e)) && s' == Apply(s, e)
  {
    assert (run + [e])[..|run|] == run;
    s' := Apply(s, e);
  }

  /** Two waits on one event: the second registration strands the first. */
  lemma SecondWaiterStrandsFirst()
    ensures exists run | Exec(run).Some? ::
              Exec(run).value.WaitOf(0).Parked? && !Attended(Exec(run).value, 0)
  {
    var s0 := Exec([]).value;
    hide Exec;
    var s1 := Extend([], s0, Begin(0, 7));
    var s2 := Extend([Begin(0, 7)], s1, WaitStep(0));
    var r2 := [Begin(0, 7)] + [WaitStep(0)];
    var s3 := Extend(r2, s2, WaitStep(0));
    var s4 := Extend(r2 + [WaitStep(0)], s3, WaitStep(0));
    var r4 := r2 + [WaitStep(0)] + [WaitStep(0)];
    assert s4.WaitOf(0).Parked?;
    var s5 := Extend(r4, s4, Begin(1, 7));
    var s6 := Extend(r4 + [Begin(1, 7)], s5, WaitStep(1));
    var r6 := r4 + [Begin(1, 7)] + [WaitStep(1)];
    assert Exec(r6) == Some(s6) && 0 in s6.displaced;
    HandOff(r6, 0);
  }

  /** A wait whose reason is set ends with it when it is polled next. */
  lemma NextPollEnds(s: State, w: nat)
    requires s.WaitOf(w).Parked? && !s.ReasonOf(w).Unset?
    ensures Enabled(s, Repoll(w)) && Enabled(Apply(s, Repoll(w)), WaitStep(w))
    ensures Apply(Apply(s, Repoll(w)), WaitStep(w)).WaitOf(w) == Done(s.ReasonOf(w))
  {
  }

  /** Wait 0 is parked on event 7. */
  lemma OneParked() returns (run: seq<Event>, s: State)
    ensures Exec(run) == Some(s)
    ensures s == State(Free, map[7 := 0], map[], map[0 := Parked(7)], map[], {}, {})
  {
    run, s := [], Exec([]).value;
    s := Extend(run, s, Begin(0, 7)); run := run + [Begin(0, 7)];
    hide Exec;
    s := Extend(run, s, WaitStep(0)); run := run + [WaitStep(0)];
    s := Extend(run, s, WaitStep(0)); run := run + [WaitStep(0)];
    s := Extend(run, s, WaitStep(0)); run := run + [WaitStep(0)];
    assert s.wakers == map[7 := 0] && s.waits == map[0 := Parked(7)] && s.displaced == {};
  }

  /** A wait that is notified with reason `On` is woken and ends with `On`. */
  lemma NotifiedWaitEnds()
    ensures exists run | Exec(run).Some? ::
              Exec(run).value.WaitOf(0) == Done(On) && 0 in Exec(run).value.woken && Exec(run).value.lock == Free
  {
    hide Exec;
    var run, s := OneParked();
    s := Extend(run, s, Notify(3, 7, On)); run := run + [Notify(3, 7, On)];
    s := Extend(run, s, NotifyStep(3)); run := run + [NotifyStep(3)];
    s := Extend(run, s, NotifyStep(3)); run := run + [NotifyStep(3)];
    s := Extend(run, s, NotifyStep(3)); run := run + [NotifyStep(3)];
    assert s.ReasonOf(0) == On && s.WaitOf(0) == Parked(7) && s.woken == {0};
    NextPollEnds(s, 0);
    s := Extend(run, s, Repoll(0)); run := run + [Repoll(0)];
    s := Extend(run, s, WaitStep(0)); run := run + [WaitStep(0)];
  }
}
