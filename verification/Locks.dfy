/** The spin mutex of crates/sync/src/spin.rs: a lock flag, and a word that names the guard that owns
    the lock.  Any number of threads; one step per atomic access. */
module SpinLock {
  import opened Options

  datatype Pc =
    | Idle
    | TakeFlag(guard: nat, spin: bool)    // flag.compare_exchange of lock (spin) or try_lock
    | WatchFlag(guard: nat)               // flag.load of lockable
    | SetGuard(guard: nat)                // guard.compare_exchange(0, ptr)
    | Held(guard: nat)
    | ClearGuard(guard: nat)              // guard.compare_exchange(ptr, 0)
    | ClearFlag                           // flag.store(false)
    | Panicked                            // an `expect` on the guard word failed

  datatype State = State(flag: bool, guard: nat, pcs: map<nat, Pc>) {
    function Pc(t: nat): Pc {
      if t in pcs then pcs[t] else Idle
    }

    function Set(t: nat, pc: Pc): State {
      this.(pcs := pcs[t := pc])
    }
  }

  /** `guard` is the address of the guard under construction, never 0. */
  datatype Event =
    | Call(t: nat, guard: nat, spin: bool)
    | Drop(t: nat)
    | Step(t: nat)
    | Spurious(t: nat)

  predicate Enabled(s: State, e: Event) {
    match e
    case Call(t, g, _) => s.Pc(t).Idle? && g != 0
    case Drop(t) => s.Pc(t).Held?
    case Step(t) => !s.Pc(t).Idle? && !s.Pc(t).Held? && !s.Pc(t).Panicked?
    case Spurious(t) => s.Pc(t).TakeFlag? && s.Pc(t).spin
  }

  function Apply(s: State, e: Event): State
    requires Enabled(s, e)
  {
    match e
    case Call(t, g, spin) => s.Set(t, TakeFlag(g, spin))
    case Drop(t) => s.Set(t, ClearGuard(s.Pc(t).guard))
    case Spurious(t) => s.Set(t, WatchFlag(s.Pc(t).guard))
    case Step(t) =>
      match s.Pc(t)
      case TakeFlag(g, spin) =>
        if !s.flag then s.(flag := true).Set(t, SetGuard(g))
        else s.Set(t, if spin then WatchFlag(g) else Idle)
      case WatchFlag(g) => if s.flag then s else s.Set(t, TakeFlag(g, true))
      case SetGuard(g) => if s.guard == 0 then s.(guard := g).Set(t, Held(g)) else s.Set(t, Panicked)
      case ClearGuard(g) => if s.guard == g then s.(guard := 0).Set(t, ClearFlag) else s.Set(t, Panicked)
      case ClearFlag => s.(flag := false).Set(t, Idle)
  }

  function Exec(run: seq<Event>): Option<State> {
    if run == [] then Some(State(false, 0, map[]))
    else
      var before := Exec(run[..|run| - 1]);
      var e := run[|run| - 1];
      if before.Some? && Enabled(before.value, e) then Some(Apply(before.value, e)) else None
  }

  predicate Owns(s: State, t: nat) {
    s.Pc(t).SetGuard? || s.Pc(t).Held? || s.Pc(t).ClearGuard? || s.Pc(t).ClearFlag?
  }

  ghost predicate ThreadInv(s: State, t: nat) {
    match s.Pc(t)
    case SetGuard(_) => s.flag && s.guard == 0
    case Held(g) => s.flag && s.guard == g
    case ClearGuard(g) => s.flag && s.guard == g
    case ClearFlag => s.flag && s.guard == 0
    case Panicked => false
    case _ => true
  }

  ghost predicate Inv(s: State) {
    && (forall t :: ThreadInv(s, t))
    && (s.flag ==> exists t :: Owns(s, t))
    && (!s.flag ==> s.guard == 0)
    && (forall t, u | Owns(s, t) && Owns(s, u) :: t == u)
  }

  lemma StepKeepsInv(s: State, e: Event)
    requires Inv(s) && Enabled(s, e)
    ensures Inv(Apply(s, e))
  {
    var s' := Apply(s, e);
    assert ThreadInv(s, e.t);
    forall u | u != e.t ensures s'.Pc(u) == s.Pc(u) && (Owns(s', u) <==> Owns(s, u)) {}
    forall u ensures ThreadInv(s', u) && (Owns(s', e.t) && Owns(s', u) ==> u == e.t) {
      assert ThreadInv(s, u);
      assert Owns(s, e.t) && Owns(s, u) ==> u == e.t;
    }
    if Owns(s', e.t) {
      assert s'.flag;
    } else if s'.flag {
      var u :| Owns(s, u);
      assert u != e.t;
    }
  }

  /** At most one thread owns the lock, the guard word names its guard, a set flag has an owner, and
      neither `expect` ever fails. */
  lemma {:induction false} MutualExclusion(run: seq<Event>)
    requires Exec(run).Some?
    ensures Inv(Exec(run).value)
    ensures
      var s := Exec(run).value;
      && (forall t :: !s.Pc(t).Panicked?)
      && (forall t, u | Owns(s, t) && Owns(s, u) :: t == u)
      && (forall t | s.Pc(t).Held? :: s.guard == s.Pc(t).guard)
      && (s.flag <==> exists t :: Owns(s, t))
  {
    if run != [] {
      MutualExclusion(run[..|run| - 1]);
      StepKeepsInv(Exec(run[..|run| - 1]).value, run[|run| - 1]);
    }
    var s := Exec(run).value;
    forall t
      ensures !s.Pc(t).Panicked? && (s.Pc(t).Held? ==> s.guard == s.Pc(t).guard) && (Owns(s, t) ==> s.flag)
    {
      assert ThreadInv(s, t);
    }
  }

  lemma Extend(run: seq<Event>, s: State, e: Event) returns (s': State)
    requires Exec(run) == Some(s) && Enabled(s, e)
    ensures Exec(run + [e]) == Some(Apply(s, e)) && s' == Apply(s, e)
  {
    assert (run + [e])[..|run|] == run;
    s' := Apply(s, e);
  }

  /** Thread 0 holds the lock and thread 1 spins. */
  lemma OneSpins() returns (run: seq<Event>, s: State)
    ensures Exec(run) == Some(s) && s == State(true, 5, map[0 := Held(5), 1 := WatchFlag(6)])
  {
    run, s := [], State(false, 0, map[]);
    s := Extend(run, s, Call(0, 5, true)); run := run + [Call(0, 5, true)];
    hide Exec;
    s := Extend(run, s, Step(0)); run := run + [Step(0)];
    s := Extend(run, s, Step(0)); run := run + [Step(0)];
    s := Extend(run, s, Call(1, 6, true)); run := run + [Call(1, 6, true)];
    s := Extend(run, s, Step(1)); run := run + [Step(1)];
    assert s.flag && s.guard == 5;
  }

  /** One thread locks and unlocks while another waits for it and then gets the lock. */
  lemma HandsOver()
    ensures exists run | Exec(run).Some? :: Exec(run).value.Pc(0).Idle? && Exec(run).value.Pc(1).Held?
  {
    hide Exec;
    var run, s := OneSpins();
    s := Extend(run, s, Drop(0)); run := run + [Drop(0)];
    s := Extend(run, s, Step(0)); run := run + [Step(0)];
    s := Extend(run, s, Step(0)); run := run + [Step(0)];
    assert s.Pc(0).Idle? && !s.flag && s.guard == 0;
    s := Extend(run, s, Step(1)); run := run + [Step(1)];
    s := Extend(run, s, Step(1)); run := run + [Step(1)];
    s := Extend(run, s, Step(1)); run := run + [Step(1)];
  }
}

/** The asynchronous mutex of crates/sync/src/maker.rs: a lock that tasks try to take, and a table of
    wakers behind a second lock.  Both locks are the spin mutex of module SpinLock, taken when its flag
    is set and released when it is cleared.  Any number of tasks; one step per atomic access. */
module AsyncMutex {
  import opened Options

  datatype Pc =
    | Idle
    | Try                                 // inner_locker.try_lock
    | LockTable                           // wakers.lock
    | Register                            // wait_lockable
    | Retry(key: nat)                     // inner_locker.try_lock, again
    | Cancel(key: nat)                    // cancel, after the second try succeeded
    | LeaveTable                          // the table guard is dropped, with the lock taken
    | LeaveTablePending(key: nat)         // the table guard is dropped, without the lock
    | Waiting(key: nat)                   // returned Pending
    | Locked
    | Unlock                              // drop of the inner guard
    | LockTableNotify                     // wakers.lock
    | Notify                              // notify_all, one waker at a time
    | LeaveTableNotified                  // the table guard is dropped

  /** `woken` holds the keys whose waker has fired. */
  datatype State = State(
    locked: bool, tableLocked: bool, keyNext: nat, wakers: map<nat, nat>, tasks: map<nat, Pc>, woken: set<nat>)
  {
    function Pc(t: nat): Pc {
      if t in tasks then tasks[t] else Idle
    }

    function Set(t: nat, pc: Pc): State {
      this.(tasks := tasks[t := pc])
    }
  }

  datatype Event =
    | Call(t: nat)                        // lock().poll, for the first time
    | Repoll(t: nat)                      // poll again, woken or not
    | Forget(t: nat)                      // the pending future is dropped
    | Release(t: nat)                     // the guard is dropped
    | Fire(t: nat, key: nat)              // notify_all wakes the waker under `key`
    | Step(t: nat)

  predicate Enabled(s: State, e: Event) {
    match e
    case Call(t) => s.Pc(t).Idle?
    case Repoll(t) => s.Pc(t).Waiting?
    case Forget(t) => s.Pc(t).Waiting?
    case Release(t) => s.Pc(t).Locked?
    case Fire(t, k) => s.Pc(t).Notify? && k in s.wakers
    case Step(t) =>
      !s.Pc(t).Idle? && !s.Pc(t).Waiting? && !s.Pc(t).Locked? && (s.Pc(t).Notify? ==> s.wakers == map[])
  }

  function StepOf(s: State, t: nat): State
    requires Enabled(s, Step(t))
  {
    match s.Pc(t)
    case Try => if s.locked then s.Set(t, LockTable) else s.(locked := true).Set(t, Locked)
    case LockTable => if s.tableLocked then s else s.(tableLocked := true).Set(t, Register)
    case Register =>
      s.(keyNext := s.keyNext + 1, wakers := s.wakers[s.keyNext := t]).Set(t, Retry(s.keyNext))
    case Retry(k) =>
      if s.locked then s.Set(t, LeaveTablePending(k)) else s.(locked := true).Set(t, Cancel(k))
    case Cancel(k) => s.(wakers := s.wakers - {k}).Set(t, LeaveTable)
    case LeaveTable => s.(tableLocked := false).Set(t, Locked)
    case LeaveTablePending(k) => s.(tableLocked := false).Set(t, Waiting(k))
    case Unlock => s.(locked := false).Set(t, LockTableNotify)
    case LockTableNotify => if s.tableLocked then s else s.(tableLocked := true).Set(t, Notify)
    case Notify => s.Set(t, LeaveTableNotified)
    case LeaveTableNotified => s.(tableLocked := false).Set(t, Idle)
  }

  function Apply(s: State, e: Event): State
    requires Enabled(s, e)
  {
    match e
    case Call(t) => s.Set(t, Try)
    case Repoll(t) => s.Set(t, Try)
    case Forget(t) => s.Set(t, Idle)
    case Release(t) => s.Set(t, Unlock)
    case Fire(_, k) => s.(wakers := s.wakers - {k}, woken := s.woken + {k})
    case Step(t) => StepOf(s, t)
  }

  function Exec(run: seq<Event>): Option<State> {
    if run == [] then Some(State(false, false, 0, map[], map[], {}))
    else
      var before := Exec(run[..|run| - 1]);
      var e := run[|run| - 1];
      if before.Some? && Enabled(before.value, e) then Some(Apply(before.value, e)) else None
  }

  predicate HasLock(s: State, t: nat) {
    s.Pc(t).Cancel? || s.Pc(t).LeaveTable? || s.Pc(t).Locked? || s.Pc(t).Unlock?
  }

  predicate HasTable(s: State, t: nat) {
    var pc := s.Pc(t);
    pc.Register? || pc.Retry? || pc.Cancel? || pc.LeaveTable? || pc.LeaveTablePending? || pc.Notify? ||
    pc.LeaveTableNotified?
  }

  /** Task `t` has released the lock and not yet finished `notify_all`. */
  predicate Releasing(s: State, t: nat) {
    s.Pc(t).LockTableNotify? || s.Pc(t).Notify?
  }

  /** Whoever holds the lock, or has just released it, will empty the table. */
  ghost predicate Covered(s: State) {
    s.locked || exists t :: Releasing(s, t)
  }

  ghost predicate TaskInv(s: State, t: nat) {
    && (HasLock(s, t) ==> s.locked)
    && (HasTable(s, t) ==> s.tableLocked)
    && match s.Pc(t)
       case Retry(k) => k in s.wakers && s.wakers[k] == t
       case Cancel(k) => k in s.wakers && s.wakers[k] == t
       case LeaveTablePending(k) => k in s.wakers && s.wakers[k] == t
       case Waiting(k) => k < s.keyNext && (k !in s.woken ==> k in s.wakers && s.wakers[k] == t)
       case _ => true
  }

  ghost predicate Inv(s: State) {
    && (forall t :: TaskInv(s, t))
    && (forall t, u | HasLock(s, t) && HasLock(s, u) :: t == u)
    && (forall t, u | HasTable(s, t) && HasTable(s, u) :: t == u)
    && (s.locked ==> exists t :: HasLock(s, t))
    && (forall k | k in s.wakers :: k < s.keyNext && k !in s.woken)
    && (forall k | k in s.woken :: k < s.keyNext)
    && (forall k | k in s.wakers :: Covered(s) || s.Pc(s.wakers[k]) == Retry(k))
  }

  /** While the lock is held, being released or being handed out, it stays covered; cover ends only
      with an empty table. */
  lemma CoverStep(s: State, e: Event)
    requires Inv(s) && Enabled(s, e) && Covered(s)
    ensures Covered(Apply(s, e)) || Apply(s, e).wakers == map[]
  {
    var s' := Apply(s, e);
    forall u | u != e.t && Releasing(s, u) ensures Releasing(s', u) {}
    assert Releasing(s', e.t) || !Releasing(s, e.t) || s'.wakers == map[];
    assert s.locked && !s'.locked ==> Releasing(s', e.t);
  }

  /** Neither lock is ever held twice. */
  lemma OwnerStep(s: State, e: Event)
    requires Inv(s) && Enabled(s, e)
    ensures
      var s' := Apply(s, e);
      && (forall t, u | HasLock(s', t) && HasLock(s', u) :: t == u)
      && (forall t, u | HasTable(s', t) && HasTable(s', u) :: t == u)
      && (s'.locked ==> exists t :: HasLock(s', t))
  {
    var s' := Apply(s, e);
    assert TaskInv(s, e.t);
    forall u | u != e.t
      ensures s'.Pc(u) == s.Pc(u)
      ensures HasLock(s', u) <==> HasLock(s, u)
      ensures HasTable(s', u) <==> HasTable(s, u)
      ensures !(HasLock(s', e.t) && HasLock(s', u))
      ensures !(HasTable(s', e.t) && HasTable(s', u))
    {
      assert TaskInv(s, u);
      assert HasLock(s, e.t) && HasLock(s, u) ==> u == e.t;
      assert HasTable(s, e.t) && HasTable(s, u) ==> u == e.t;
    }
    if s'.locked && !HasLock(s', e.t) {
      var u :| HasLock(s, u);
      assert u != e.t;
    }
  }

  lemma TaskStepOwn(s: State, e: Event)
    requires TaskInv(s, e.t) && Enabled(s, e) && forall k | k in s.wakers :: k < s.keyNext && k !in s.woken
    ensures TaskInv(Apply(s, e), e.t)
  {
  }

  lemma TaskStepOther(s: State, e: Event, u: nat)
    requires TaskInv(s, e.t) && TaskInv(s, u) && Enabled(s, e) && u != e.t
    requires HasLock(s, e.t) ==> !HasLock(s, u)
    requires HasTable(s, e.t) ==> !HasTable(s, u)
    requires forall k | k in s.wakers :: k < s.keyNext && k !in s.woken
    ensures TaskInv(Apply(s, e), u)
  {
    assert Apply(s, e).Pc(u) == s.Pc(u);
  }

  lemma TaskStep(s: State, e: Event, u: nat)
    requires Inv(s) && Enabled(s, e)
    ensures TaskInv(Apply(s, e), u)
  {
    assert TaskInv(s, e.t) && TaskInv(s, u);
    hide TaskInv, Apply, Enabled, HasLock, HasTable;
    if u == e.t { TaskStepOwn(s, e); } else { TaskStepOther(s, e, u); }
  }

  lemma StepKeepsInv(s: State, e: Event)
    requires Inv(s) && Enabled(s, e)
    ensures Inv(Apply(s, e))
  {
    var s' := Apply(s, e);
    forall u ensures TaskInv(s', u) { TaskStep(s, e, u); }
    OwnerStep(s, e);
    if Covered(s) {
      CoverStep(s, e);
    } else {
      forall k | k in s'.wakers ensures Covered(s') || s'.Pc(s'.wakers[k]) == Retry(k) {
        if k in s.wakers && s.wakers[k] == e.t {
          assert TaskInv(s, e.t);
        }
      }
    }
  }

  lemma {:induction false} RunKeepsInv(run: seq<Event>)
    requires Exec(run).Some?
    ensures Inv(Exec(run).value)
  {
    if run != [] {
      RunKeepsInv(run[..|run| - 1]);
      StepKeepsInv(Exec(run[..|run| - 1]).value, run[|run| - 1]);
    }
  }

  /** At most one guard exists, in every run. */
  lemma OneGuard(run: seq<Event>, t: nat, u: nat)
    requires Exec(run).Some?
    requires HasLock(Exec(run).value, t) && HasLock(Exec(run).value, u)
    ensures t == u && Exec(run).value.locked
  {
    RunKeepsInv(run);
    assert TaskInv(Exec(run).value, t);
  }

  /** No lost wakeup: a waiting task whose waker has not fired has it in the table, and either some task
      owns the lock or some task is between releasing it and the end of `notify_all`. */
  lemma NoLostWakeup(run: seq<Event>, t: nat)
    requires Exec(run).Some? && Exec(run).value.Pc(t).Waiting?
    requires Exec(run).value.Pc(t).key !in Exec(run).value.woken
    ensures
      var s := Exec(run).value;
      && s.Pc(t).key in s.wakers && s.wakers[s.Pc(t).key] == t
      && ((exists u :: HasLock(s, u)) || exists u :: Releasing(s, u))
  {
    RunKeepsInv(run);
    assert TaskInv(Exec(run).value, t);
  }

  /** When every task is idle or waiting, the lock is free and every waiting task has been woken. */
  lemma NobodySleepsOnAFreeLock(run: seq<Event>)
    requires Exec(run).Some?
    requires forall t :: Exec(run).value.Pc(t).Idle? || Exec(run).value.Pc(t).Waiting?
    ensures
      var s := Exec(run).value;
      !s.locked && s.wakers == map[] && forall t | s.Pc(t).Waiting? :: s.Pc(t).key in s.woken
  {
    RunKeepsInv(run);
    var s := Exec(run).value;
    assert forall t :: !HasLock(s, t) && !Releasing(s, t);
    forall t | s.Pc(t).Waiting? ensures s.Pc(t).key in s.woken {
      assert TaskInv(s, t);
    }
  }

  // ----- What is in the table -----

  /** Task `t` holds the registration under `k`: it is registering, or waits with it. */
  predicate Holds(s: State, t: nat, k: nat) {
    s.Pc(t) == Retry(k) || s.Pc(t) == Cancel(k) || s.Pc(t) == LeaveTablePending(k) || s.Pc(t) == Waiting(k)
  }

  /** Event `e` polls again, or drops, a future that still has its registration in the table. */
  predicate LeavesEntry(s: State, e: Event) {
    (e.Repoll? || e.Forget?) && s.Pc(e.t).Waiting? && s.Pc(e.t).key !in s.woken
  }

  ghost predicate OnlyWoken(run: seq<Event>) {
    run != [] ==>
      var front, e := run[..|run| - 1], run[|run| - 1];
      OnlyWoken(front) && (Exec(front).Some? ==> !LeavesEntry(Exec(front).value, e))
  }

  ghost predicate TableInv(s: State) {
    forall k | k in s.wakers :: Holds(s, s.wakers[k], k)
  }

  lemma TableEntries(s: State, e: Event, k: nat)
    requires Enabled(s, e) && k in Apply(s, e).wakers
    ensures
      var s' := Apply(s, e);
      (k in s.wakers && s'.wakers[k] == s.wakers[k]) || Holds(s', s'.wakers[k], k)
  {
  }

  lemma TableOthers(s: State, e: Event, u: nat)
    requires Enabled(s, e) && u != e.t
    ensures Apply(s, e).Pc(u) == s.Pc(u)
  {
  }

  lemma TableOwn(s: State, e: Event, k: nat)
    requires Enabled(s, e) && k in Apply(s, e).wakers && Holds(s, e.t, k) && !LeavesEntry(s, e) && k !in s.woken
    ensures Holds(Apply(s, e), e.t, k)
  {
  }

  lemma TableStep(s: State, e: Event)
    requires Inv(s) && TableInv(s) && Enabled(s, e) && !LeavesEntry(s, e)
    ensures TableInv(Apply(s, e))
  {
    hide Apply, LeavesEntry, TaskInv, Covered, HasLock, HasTable, Enabled;
    var s' := Apply(s, e);
    forall k | k in s'.wakers
      ensures Holds(s', s'.wakers[k], k)
    {
      TableEntries(s, e, k);
      if k in s.wakers && s'.wakers[k] == s.wakers[k] {
        var t := s.wakers[k];
        assert Holds(s, t, k);
        if t == e.t { TableOwn(s, e, k); } else { TableOthers(s, e, t); }
      }
    }
  }

  lemma {:induction false} RunKeepsTable(run: seq<Event>)
    requires Exec(run).Some? && OnlyWoken(run)
    ensures TableInv(Exec(run).value)
  {
    if run != [] {
      RunKeepsTable(run[..|run| - 1]);
      RunKeepsInv(run[..|run| - 1]);
      TableStep(Exec(run[..|run| - 1]).value, run[|run| - 1]);
    }
  }

  /** When futures are polled again or dropped only after their waker fired, the table holds exactly the registrations
      of tasks that register or wait unwoken: a task that got the lock has left none. */
  lemma TableIsExact(run: seq<Event>, k: nat)
    requires Exec(run).Some? && OnlyWoken(run)
    ensures
      var s := Exec(run).value;
      k in s.wakers <==> k !in s.woken && exists t :: Holds(s, t, k)
  {
    RunKeepsInv(run);
    RunKeepsTable(run);
    var s := Exec(run).value;
    if t :| Holds(s, t, k) {
      assert TaskInv(s, t);
    }
  }

  lemma Extend(run: seq<Event>, s: State, e: Event) returns (s': State)
    requires Exec(run) == Some(s) && Enabled(s, e)
    ensures Exec(run + [e]) == Some(Apply(s, e)) && s' == Apply(s, e)
  {
    assert (run + [e])[..|run|] == run;
    s' := Apply(s, e);
  }

  /** Task 0 holds the lock and task 1 is about to register. */
  lemma OneTries() returns (run: seq<Event>, s: State)
    ensures Exec(run) == Some(s)
    ensures s == State(true, true, 0, map[], map[0 := Locked, 1 := Register], {})
  {
    run, s := [], State(false, false, 0, map[], map[], {});
    s := Extend(run, s, Call(0)); run := run + [Call(0)];
    hide Exec;
    s := Extend(run, s, Step(0)); run := run + [Step(0)];
    s := Extend(run, s, Call(1)); run := run + [Call(1)];
    s := Extend(run, s, Step(1)); run := run + [Step(1)];
    assert s == State(true, false, 0, map[], map[0 := Locked, 1 := LockTable], {});
    s := Extend(run, s, Step(1)); run := run + [Step(1)];
  }

  /** Task 0 holds the lock and task 1 waits for it. */
  lemma OneWaits() returns (run: seq<Event>, s: State)
    ensures Exec(run) == Some(s)
    ensures s == State(true, false, 1, map[0 := 1], map[0 := Locked, 1 := Waiting(0)], {})
  {
    hide Exec;
    run, s := OneTries();
    s := Extend(run, s, Step(1)); run := run + [Step(1)];
    s := Extend(run, s, Step(1)); run := run + [Step(1)];
    assert s.Pc(1) == LeaveTablePending(0);
    s := Extend(run, s, Step(1)); run := run + [Step(1)];
    assert s.tasks == map[0 := Locked, 1 := Waiting(0)];
  }

  /** A task that waits is woken by the release and then gets the lock. */
  lemma WaiterGetsTheLock()
    ensures exists run | Exec(run).Some? ::
              var s := Exec(run).value;
              s.Pc(0).Idle? && s.Pc(1).Locked? && s.wakers == map[] && s.woken == {0}
  {
    hide Exec;
    var run, s := OneWaits();
    s := Extend(run, s, Release(0)); run := run + [Release(0)];
    s := Extend(run, s, Step(0)); run := run + [Step(0)];
    s := Extend(run, s, Step(0)); run := run + [Step(0)];
    assert s.Pc(0) == Notify && !s.locked;
    s := Extend(run, s, Fire(0, 0)); run := run + [Fire(0, 0)];
    assert s.wakers == map[];
    s := Extend(run, s, Step(0)); run := run + [Step(0)];
    s := Extend(run, s, Step(0)); run := run + [Step(0)];
    assert s.Pc(0).Idle? && s.Pc(1) == Waiting(0);
    s := Extend(run, s, Repoll(1)); run := run + [Repoll(1)];
    s := Extend(run, s, Step(1)); run := run + [Step(1)];
  }
}
