/** The future batcher of crates/future/src/batching.rs: one poller, and any number of threads that
    push futures, wake them and close the batcher.  One step per atomic access; the ready queue is
    the atomic queue that module TicketQueue shows the lock-free one to be. */
module Batcher {
  import opened Options

  /** A boxed waker: its address, and the number of the poll whose task it wakes.  Addresses may be
      reused, as an allocator may. */
  datatype Box = Box(addr: nat, poll: nat)

  /** What `Wait::poll` does next. */
  datatype PollPc =
    | Resting                             // never polled, or returned Ready
    | Enter                               // await_counter.fetch_add
    | CheckClosed                         // closed.load
    | Arm                                 // waker.swap
    | Pop                                 // wakeup_futures.pop
    | CheckPopped(id: nat)                // closed.load
    | Fetch(id: nat)                      // pending_futures.remove
    | Polling(id: nat)                    // the future's own poll
    | PutBack(id: nat)                    // pending_futures.insert
    | LoadOwn(id: nat)                    // waker.load of remove_waker
    | ClearOwn(id: nat, addr: nat)        // waker.compare_exchange of remove_waker
    | LeaveReady(id: nat)                 // await_counter.fetch_sub
    | LeavePending                        // await_counter.fetch_sub
    | CheckLast                           // closed.load
    | Parked                              // returned Pending
    | Panicked                            // an assertion on await_counter failed

  /** What a thread in `push`, a future's waker or `close` does next. */
  datatype ThreadPc =
    | Idle
    | NewId                               // idgen.fetch_add
    | Store(id: nat)                      // pending_futures.insert
    | Enqueue(id: nat)                    // wakeup_futures.push
    | SetClosed                           // closed.compare_exchange
    | LoadWaker                           // waker.load
    | ClearWaker(addr: nat)               // waker.compare_exchange_weak
    | Wake(poll: nat)                     // waker.wake

  /** `waker` to `closed` are the shared fields; `poll` numbers the calls of poll and `notified` holds
      the polls whose task was woken.  The rest records history: `handed` the futures whose waker was
      given out, `due` those enqueued since they were last polled, `done` the completed ones,
      `returned` the results in the order the waits returned them, and `leaked` the polls that ended
      at one of the two early returns. */
  datatype State = State(
    idgen: nat, pending: set<nat>, ready: seq<nat>, waker: Option<Box>, counter: nat, closed: bool,
    poller: PollPc, threads: map<nat, ThreadPc>,
    poll: nat, notified: set<nat>, handed: set<nat>, due: set<nat>, done: set<nat>,
    returned: seq<nat>, leaked: nat)
  {
    function Pc(t: nat): ThreadPc {
      if t in threads then threads[t] else Idle
    }

    function Set(t: nat, pc: ThreadPc): State {
      this.(threads := threads[t := pc])
    }
  }

  datatype Event =
    | Poll                                // the executor calls poll, woken or not
    | PollStep                            // the poller's next access
    | ArmAt(addr: nat)                    // the swap, with the new box's address
    | Complete(ready: bool)               // the future's poll returns
    | CallPush(t: nat)
    | CallWake(t: nat, id: nat)           // wake or wake_by_ref on a waker that was given out
    | CallClose(t: nat)
    | Step(t: nat)                        // a thread's next access
    | Spurious(t: nat)                    // the weak exchange fails for no reason
    | SpuriousOwn                         // and the poller's

  predicate Enabled(s: State, e: Event) {
    match e
    case Poll => s.poller.Resting? || s.poller.Parked?
    case PollStep =>
      !s.poller.Resting? && !s.poller.Parked? && !s.poller.Panicked? && !s.poller.Arm? && !s.poller.Polling?
    case ArmAt(_) => s.poller.Arm?
    case Complete(_) => s.poller.Polling?
    case CallPush(t) => s.Pc(t).Idle?
    case CallWake(t, id) => s.Pc(t).Idle? && id in s.handed
    case CallClose(t) => s.Pc(t).Idle?
    case Step(t) => !s.Pc(t).Idle?
    case Spurious(t) => s.Pc(t).ClearWaker?
    case SpuriousOwn => s.poller.ClearOwn?
  }

  function PollerApply(s: State): State
    requires Enabled(s, PollStep)
  {
    match s.poller
    case Enter => s.(counter := s.counter + 1, poller := if s.counter == 0 then CheckClosed else Panicked)
    case CheckClosed => if s.closed then s.(poller := Resting, leaked := s.leaked + 1) else s.(poller := Arm)
    case Pop =>
      if s.ready == [] then s.(poller := LeavePending)
      else s.(ready := s.ready[1..], poller := CheckPopped(s.ready[0]))
    case CheckPopped(id) =>
      if s.closed then s.(poller := Resting, leaked := s.leaked + 1) else s.(poller := Fetch(id))
    case Fetch(id) =>
      if id !in s.pending then s.(poller := Pop)
      else s.(pending := s.pending - {id}, poller := Polling(id), handed := s.handed + {id}, due := s.due - {id})
    case PutBack(id) => s.(pending := s.pending + {id}, poller := Pop)
    case LoadOwn(id) =>
      s.(poller := if s.waker.None? then LeaveReady(id) else ClearOwn(id, s.waker.value.addr))
    case ClearOwn(id, a) =>
      if s.waker.Some? && s.waker.value.addr == a then s.(waker := None, poller := LeaveReady(id))
      else s.(poller := LoadOwn(id))
    case LeaveReady(id) =>
      if s.counter == 1 then s.(counter := 0, poller := Resting, returned := s.returned + [id])
      else s.(poller := Panicked)
    case LeavePending =>
      if s.counter == 1 then s.(counter := 0, poller := CheckLast) else s.(poller := Panicked)
    case CheckLast => s.(poller := if s.closed then Resting else Parked)
  }

  function ThreadApply(s: State, t: nat): State
    requires Enabled(s, Step(t))
  {
    match s.Pc(t)
    case NewId => s.(idgen := s.idgen + 1).Set(t, Store(s.idgen))
    case Store(id) => s.(pending := s.pending + {id}).Set(t, Enqueue(id))
    case Enqueue(id) => s.(ready := s.ready + [id], due := s.due + {id}).Set(t, LoadWaker)
    case SetClosed => s.(closed := true).Set(t, if s.closed then Idle else LoadWaker)
    case LoadWaker => s.Set(t, if s.waker.None? then Idle else ClearWaker(s.waker.value.addr))
    case ClearWaker(a) =>
      if s.waker.Some? && s.waker.value.addr == a then s.(waker := None).Set(t, Wake(s.waker.value.poll))
      else s.Set(t, LoadWaker)
    case Wake(p) => s.(notified := s.notified + {p}).Set(t, Idle)
  }

  function Apply(s: State, e: Event): State
    requires Enabled(s, e)
  {
    match e
    case Poll => s.(poller := Enter, poll := s.poll + 1)
    case PollStep => PollerApply(s)
    case ArmAt(a) => s.(waker := Some(Box(a, s.poll)), poller := Pop)
    case Complete(ready) =>
      var id := s.poller.id;
      if ready then s.(poller := LoadOwn(id), done := s.done + {id}) else s.(poller := PutBack(id))
    case CallPush(t) => s.Set(t, NewId)
    case CallWake(t, id) => s.Set(t, Enqueue(id))
    case CallClose(t) => s.Set(t, SetClosed)
    case Step(t) => ThreadApply(s, t)
    case Spurious(t) => s.Set(t, LoadWaker)
    case SpuriousOwn => s.(poller := LoadOwn(s.poller.id))
  }

  const START := State(0, {}, [], None, 0, false, Resting, map[], 0, {}, {}, {}, {}, [], 0)

  /** The state after a run, or None when some event of it was not possible. */
  function Exec(run: seq<Event>): Option<State> {
    if run == [] then Some(START)
    else
      var before := Exec(run[..|run| - 1]);
      var e := run[|run| - 1];
      if before.Some? && Enabled(before.value, e) then Some(Apply(before.value, e)) else None
  }

  // ----- The poll counter -----

  predicate InPoll(pc: PollPc) {
    !pc.Resting? && !pc.Enter? && !pc.CheckLast? && !pc.Parked?
  }

  /** Past the entry assertion. */
  predicate Entered(pc: PollPc) {
    !pc.Resting? && !pc.Enter? && !pc.Panicked?
  }

  predicate CountInv(s: State) {
    && s.counter == s.leaked + (if InPoll(s.poller) then 1 else 0)
    && (s.leaked > 0 ==> s.closed)
    && (Entered(s.poller) ==> s.leaked == 0)
    && (s.poller.Panicked? ==> s.leaked > 0)
  }

  lemma CountStep(s: State, e: Event)
    requires CountInv(s) && Enabled(s, e)
    ensures CountInv(Apply(s, e))
  {
  }

  // ----- Wakeups -----

  /** The poll has put its waker in the slot and has not given it up. */
  predicate Listening(pc: PollPc) {
    pc.Pop? || pc.CheckPopped? || pc.Fetch? || pc.Polling? || pc.PutBack? || Drained(pc)
  }

  /** The poll has seen the ready queue empty. */
  predicate Drained(pc: PollPc) {
    pc.LeavePending? || pc.CheckLast? || pc.Parked?
  }

  /** Thread `t` is past its queue push (or its close) and not at the end of its wake. */
  predicate Waking(s: State, t: nat) {
    s.Pc(t).LoadWaker? || s.Pc(t).ClearWaker? || s.Pc(t) == Wake(s.poll)
  }

  /** No waker is of a later poll, and one in the slot of a listening poll is its own. */
  ghost predicate WakeBounds(s: State) {
    && (forall p | p in s.notified :: p <= s.poll)
    && (forall t | s.Pc(t).Wake? :: s.Pc(t).poll <= s.poll)
    && (s.waker.Some? ==> s.waker.value.poll <= s.poll)
    && (Listening(s.poller) && s.waker.Some? ==> s.waker.value.poll == s.poll)
  }

  ghost predicate WakeInv(s: State) {
    && WakeBounds(s)
    && (Listening(s.poller) && s.poll !in s.notified && s.waker.None? ==> exists t :: s.Pc(t) == Wake(s.poll))
    && (Drained(s.poller) && s.poll !in s.notified && s.ready != [] ==> exists t :: Waking(s, t))
    && (s.poller.Parked? && s.poll !in s.notified && s.closed ==> exists t :: Waking(s, t))
  }

  predicate ByPoller(e: Event) {
    e.Poll? || e.PollStep? || e.ArmAt? || e.Complete? || e.SpuriousOwn?
  }

  lemma PollerWakes(s: State, e: Event)
    requires Enabled(s, e) && ByPoller(e)
    ensures var s' := Apply(s, e);
            && s'.threads == s.threads && s'.notified == s.notified && s'.closed == s.closed
            && s.poll <= s'.poll && (Listening(s'.poller) ==> s'.poll == s.poll)
            && (s'.waker == s.waker || s'.waker == None || (s'.waker.value.poll == s.poll == s'.poll))
            && (Listening(s'.poller) ==> (Listening(s.poller) && s'.waker == s.waker) || e.ArmAt?)
            && (e.ArmAt? ==> s'.waker.Some? && s'.waker.value.poll == s'.poll)
            && (Drained(s'.poller) ==> s'.ready == [] || (Drained(s.poller) && s'.ready == s.ready))
            && (s'.poller.Parked? ==> !s.closed)
  {
  }

  lemma WakeStepPoller(s: State, e: Event)
    requires WakeInv(s) && Enabled(s, e) && ByPoller(e)
    ensures WakeInv(Apply(s, e))
  {
    PollerWakes(s, e);
    var s' := Apply(s, e);
    hide Apply, Enabled, Listening, Drained;
    assert Drained(s'.poller) ==> Listening(s'.poller) by { DrainedListens(s'.poller); }
    assert s'.poller.Parked? ==> Drained(s'.poller) by { DrainedListens(s'.poller); }
    assert forall u :: s'.Pc(u) == s.Pc(u);
    forall u | Waking(s, u) && s'.poll == s.poll ensures Waking(s', u) {}
  }

  lemma DrainedListens(pc: PollPc)
    ensures (Drained(pc) ==> Listening(pc)) && (pc.Parked? ==> Drained(pc))
  {
  }

  lemma ThreadBounds(s: State, e: Event)
    requires Enabled(s, e) && !ByPoller(e) && (s.waker.Some? ==> s.waker.value.poll <= s.poll)
    requires s.Pc(e.t).Wake? ==> s.Pc(e.t).poll <= s.poll
    ensures
      var s' := Apply(s, e);
      && s'.poll == s.poll && s'.poller == s.poller && (s'.waker == s.waker || s'.waker == None)
      && (s'.Pc(e.t).Wake? ==> s'.Pc(e.t).poll <= s.poll)
      && (forall p | p in s'.notified :: p in s.notified || p <= s.poll)
      && (forall u | u != e.t :: s'.Pc(u) == s.Pc(u))
  {
  }

  lemma WakeBoundsThread(s: State, e: Event)
    requires WakeBounds(s) && Enabled(s, e) && !ByPoller(e)
    ensures WakeBounds(Apply(s, e))
  {
    ThreadBounds(s, e);
    hide Apply, Listening;
  }

  /** A thread that is inside a wake stays so, or hands on, or notifies the poll. */
  lemma WakingStep(s: State, e: Event, u: nat)
    requires WakeInv(s) && Enabled(s, e) && !ByPoller(e) && Listening(s.poller) && Waking(s, u)
    ensures s.poll in Apply(s, e).notified || exists t :: Waking(Apply(s, e), t)
  {
    var s' := Apply(s, e);
    if u != e.t {
      assert s'.Pc(u) == s.Pc(u) && Waking(s', u);
    } else if s.Pc(u).LoadWaker? && s.waker.None? && s.poll !in s.notified {
      var t :| s.Pc(t) == Wake(s.poll);
      assert s'.Pc(t) == s.Pc(t) && Waking(s', t);
    } else if s.poll !in s'.notified {
      assert Waking(s', u);
    }
  }

  /** The slot of a listening poll is empty only when a thread holds its waker. */
  lemma HolderStep(s: State, e: Event)
    requires WakeInv(s) && Enabled(s, e) && !ByPoller(e) && Listening(s.poller)
    ensures var s' := Apply(s, e);
            s.poll in s'.notified || s'.waker.Some? || exists t :: s'.Pc(t) == Wake(s.poll)
  {
    var s' := Apply(s, e);
    if s.poll !in s'.notified && s'.waker.None? {
      if s.waker.None? {
        var t :| s.Pc(t) == Wake(s.poll);
        assert s'.Pc(t) == s.Pc(t);
      } else {
        assert s'.Pc(e.t) == Wake(s.poll);
      }
    }
  }

  lemma WakeStepThread(s: State, e: Event)
    requires WakeInv(s) && Enabled(s, e) && !ByPoller(e)
    ensures WakeInv(Apply(s, e))
  {
    WakeBoundsThread(s, e);
    var s' := Apply(s, e);
    assert s'.poller == s.poller && s'.poll == s.poll && s.notified <= s'.notified;
    if Listening(s.poller) {
      HolderStep(s, e);
      if u :| Waking(s, u) {
        WakingStep(s, e, u);
      }
      assert (s'.ready != [] && s.ready == []) || (s'.closed && !s.closed) ==> Waking(s', e.t);
    }
  }

  // ----- Where every future is -----

  predicate Holds(pc: PollPc, id: nat) {
    pc == Polling(id) || pc == PutBack(id)
  }

  predicate Finishing(pc: PollPc, id: nat) {
    pc == LoadOwn(id) || (pc.ClearOwn? && pc.id == id) || pc == LeaveReady(id)
  }

  /** The future has been stored, so popping its id can find it. */
  predicate Stored(s: State, id: nat) {
    id in s.pending || Holds(s.poller, id) || id in s.done
  }

  ghost predicate Storing(s: State, t: nat, id: nat) {
    s.Pc(t) == Store(id)
  }

  ghost predicate ThreadPlace(s: State, t: nat) {
    match s.Pc(t)
    case Store(id) => id < s.idgen && !Stored(s, id)
    case Enqueue(id) => Stored(s, id)
    case _ => true
  }

  ghost predicate ThreadPlaces(s: State) {
    && (forall id: nat | Stored(s, id) :: id < s.idgen)
    && (forall id: nat | id < s.idgen :: Stored(s, id) || exists t :: Storing(s, t, id))
    && (forall t :: ThreadPlace(s, t))
    && (forall t, u, id | Storing(s, t, id) && Storing(s, u, id) :: t == u)
  }

  ghost predicate PollerPlaces(s: State) {
    && s.pending !! s.done
    && (forall id: nat | Holds(s.poller, id) :: id !in s.pending && id !in s.done)
    && (forall id | id in s.handed :: Stored(s, id))
    && (forall id | id in s.ready :: Stored(s, id))
    && (s.poller.CheckPopped? || s.poller.Fetch? ==> Stored(s, s.poller.id))
  }

  ghost predicate PlaceInv(s: State) {
    ThreadPlaces(s) && PollerPlaces(s)
  }

  lemma PollerKeepsThreads(s: State, e: Event)
    requires Enabled(s, e) && ByPoller(e)
    ensures Apply(s, e).idgen == s.idgen && Apply(s, e).threads == s.threads
  {
  }

  lemma PollerKeepsOne(s: State, e: Event, id: nat)
    requires Enabled(s, e) && ByPoller(e)
    ensures Stored(Apply(s, e), id) <==> Stored(s, id)
  {
  }

  lemma PollerKeepsStored(s: State, e: Event)
    requires Enabled(s, e) && ByPoller(e)
    ensures var s' := Apply(s, e);
            s'.idgen == s.idgen && s'.threads == s.threads && forall id: nat :: Stored(s', id) <==> Stored(s, id)
  {
    hide Apply, Stored, Enabled;
    PollerKeepsThreads(s, e);
    forall id: nat
      ensures Stored(Apply(s, e), id) <==> Stored(s, id)
    {
      PollerKeepsOne(s, e, id);
    }
  }

  lemma PollerApart(s: State, e: Event)
    requires PollerPlaces(s) && Enabled(s, e) && ByPoller(e)
    ensures var s' := Apply(s, e);
            s'.pending !! s'.done && forall id: nat | Holds(s'.poller, id) :: id !in s'.pending && id !in s'.done
  {
    hide Stored;
  }

  /** Only ids that were known before are popped or handed out. */
  lemma PollerKnows(s: State, e: Event)
    requires Enabled(s, e) && ByPoller(e)
    ensures var s' := Apply(s, e);
            && (forall id | id in s'.ready :: id in s.ready)
            && (forall id | id in s'.handed :: id in s.handed || s.poller == Fetch(id))
            && (s'.poller.CheckPopped? ==> s'.poller.id in s.ready)
            && (s'.poller.Fetch? ==> s.poller == CheckPopped(s'.poller.id))
  {
  }

  lemma PollerPlacesStep(s: State, e: Event)
    requires PollerPlaces(s) && Enabled(s, e) && ByPoller(e)
    ensures PollerPlaces(Apply(s, e))
  {
    PollerApart(s, e);
    PollerKnows(s, e);
    PollerKeepsStored(s, e);
    hide Apply, Stored;
  }

  lemma PlaceStepPoller(s: State, e: Event)
    requires PlaceInv(s) && Enabled(s, e) && ByPoller(e)
    ensures PlaceInv(Apply(s, e))
  {
    PollerPlacesStep(s, e);
    PollerKeepsStored(s, e);
    var s' := Apply(s, e);
    hide Apply, Stored, PollerPlaces;
    assert forall u :: s'.Pc(u) == s.Pc(u);
    forall u ensures ThreadPlace(s', u) { assert ThreadPlace(s, u); }
    forall u, id ensures Storing(s', u, id) <==> Storing(s, u, id) {}
  }

  lemma ThreadStored(s: State, e: Event)
    requires Enabled(s, e) && !ByPoller(e)
    ensures var s' := Apply(s, e);
            && (forall u | u != e.t :: s'.Pc(u) == s.Pc(u))
            && forall id: nat :: Stored(s', id) <==> Stored(s, id) || Storing(s, e.t, id)
  {
  }

  lemma PollerPlacesStepThread(s: State, e: Event)
    requires PlaceInv(s) && Enabled(s, e) && !ByPoller(e)
    ensures PollerPlaces(Apply(s, e))
  {
    ThreadStored(s, e);
    assert ThreadPlace(s, e.t);
  }

  lemma PlaceStepThread(s: State, e: Event)
    requires PlaceInv(s) && Enabled(s, e) && !ByPoller(e)
    ensures PlaceInv(Apply(s, e))
  {
    PollerPlacesStepThread(s, e);
    hide PollerPlaces;
    var s' := Apply(s, e);
    assert ThreadPlace(s, e.t);
    ThreadStored(s, e);
    forall u ensures ThreadPlace(s', u) {
      assert ThreadPlace(s, u);
      assert s.Pc(u).Store? ==> Storing(s, u, s.Pc(u).id);
    }
    forall u, id | Storing(s', u, id) ensures Storing(s, u, id) || (u == e.t && id == s.idgen) {}
    forall id: nat | id < s'.idgen ensures Stored(s', id) || exists u :: Storing(s', u, id) {
      if id == s.idgen {
        assert Storing(s', e.t, id);
      } else if !Stored(s', id) {
        var u :| Storing(s, u, id);
        assert Storing(s', u, id);
      }
    }
    forall t, u, id | Storing(s', t, id) && Storing(s', u, id) ensures t == u {
      assert ThreadPlace(s, t) && ThreadPlace(s, u);
    }
  }

  // ----- Results and pending work -----

  ghost predicate ResultInv(s: State) {
    && (forall id | id in s.returned :: id in s.done && !Finishing(s.poller, id))
    && (forall id | id in s.done :: id in s.returned || Finishing(s.poller, id))
    && (forall id: nat | Finishing(s.poller, id) :: id in s.done)
    && (forall i, j | 0 <= i < j < |s.returned| :: s.returned[i] != s.returned[j])
  }

  lemma OthersKeepResults(s: State, e: Event)
    requires Enabled(s, e) && !(e == PollStep && s.poller.LeaveReady?) && !e.Complete?
    ensures var s' := Apply(s, e);
            s'.returned == s.returned && s'.done == s.done &&
            forall id: nat :: Finishing(s'.poller, id) <==> Finishing(s.poller, id)
  {
  }

  lemma ResultStep(s: State, e: Event)
    requires CountInv(s) && ResultInv(s) && Enabled(s, e)
    requires forall id: nat | Holds(s.poller, id) :: id !in s.done
    ensures ResultInv(Apply(s, e))
  {
    if e == PollStep && s.poller.LeaveReady? {
      ResultLeave(s);
    } else if e.Complete? {
      assert Holds(s.poller, s.poller.id);
    } else {
      OthersKeepResults(s, e);
      hide Apply, Finishing;
    }
  }

  lemma ResultLeave(s: State)
    requires CountInv(s) && ResultInv(s) && s.poller.LeaveReady?
    ensures ResultInv(Apply(s, PollStep))
  {
    var id := s.poller.id;
    assert Finishing(s.poller, id) && id !in s.returned;
    forall x: nat | Finishing(s.poller, x) ensures x == id {}
    forall x | x in s.returned + [id] ensures x in s.returned || x == id {}
  }

  /** Unless a poll was cut short by `close`, every future enqueued since its last poll is still ahead
      of the poller, or completed. */
  predicate DueInv(s: State) {
    s.leaked == 0 ==>
      forall id | id in s.due ::
        id in s.done || id in s.ready || s.poller == CheckPopped(id) || s.poller == Fetch(id)
  }

  lemma DueStep(s: State, e: Event)
    requires PlaceInv(s) && CountInv(s) && DueInv(s) && Enabled(s, e)
    ensures DueInv(Apply(s, e))
  {
  }

  // ----- All runs -----

  ghost predicate Inv(s: State) {
    CountInv(s) && WakeInv(s) && PlaceInv(s) && ResultInv(s) && DueInv(s)
  }

  lemma {:induction false} RunKeepsInv(run: seq<Event>)
    requires Exec(run).Some?
    ensures Inv(Exec(run).value)
  {
    if run != [] {
      var s, e := Exec(run[..|run| - 1]).value, run[|run| - 1];
      RunKeepsInv(run[..|run| - 1]);
      CountStep(s, e);
      if ByPoller(e) { WakeStepPoller(s, e); } else { WakeStepThread(s, e); }
      if ByPoller(e) { PlaceStepPoller(s, e); } else { PlaceStepThread(s, e); }
      ResultStep(s, e);
      DueStep(s, e);
    }
  }

  /** No lost wakeup: a poller that returned Pending and was not woken since sleeps over ready work,
      or over a close, only while some thread is still inside the wake that will reach it. */
  lemma NoLostWakeup(run: seq<Event>)
    requires Exec(run).Some?
    ensures
      var s := Exec(run).value;
      s.poller.Parked? && s.poll !in s.notified && (s.ready != [] || s.closed) ==> exists t :: Waking(s, t)
  {
    RunKeepsInv(run);
  }

  /** When the poller sleeps and every wake has run its course, each future that was pushed or woken
      has been polled after its latest wake, or is complete. */
  lemma SleepsOnlyWhenIdle(run: seq<Event>)
    requires Exec(run).Some?
    requires
      var s := Exec(run).value;
      s.poller.Parked? && s.poll !in s.notified && forall t :: !Waking(s, t)
    ensures
      var s := Exec(run).value;
      s.ready == [] && !s.closed && s.due <= s.done
  {
    RunKeepsInv(run);
  }

  ghost function Places(s: State, id: nat): nat {
    (if id in s.pending then 1 else 0) + (if Holds(s.poller, id) then 1 else 0) +
    (if id in s.done then 1 else 0) + (if exists t :: Storing(s, t, id) then 1 else 0)
  }

  /** Conservation: every future is in exactly one place (being stored, pending, being polled or
      complete), unknown ids are nowhere, and every result is returned once its poll is over, by one wait. */
  lemma EveryFutureInOnePlace(run: seq<Event>, id: nat)
    requires Exec(run).Some?
    ensures
      var s := Exec(run).value;
      && Places(s, id) == (if id < s.idgen then 1 else 0)
      && (forall x | x in s.returned :: x in s.done)
      && (forall x | x in s.done :: x in s.returned || Finishing(s.poller, x))
      && (forall i, j | 0 <= i < j < |s.returned| :: s.returned[i] != s.returned[j])
  {
    RunKeepsInv(run);
    var s := Exec(run).value;
    if t :| Storing(s, t, id) {
      assert ThreadPlace(s, t) && !Stored(s, id);
    } else {
      assert Stored(s, id) <==> id < s.idgen;
      assert Holds(s.poller, id) ==> id !in s.pending && id !in s.done;
    }
  }

  /** A popped id that finds no future is stale: the future already completed.  So no wake is dropped,
      not even one that arrives while its future is out of the pending map. */
  lemma PopMissesOnlyCompleted(run: seq<Event>)
    requires Exec(run).Some?
    ensures
      var s := Exec(run).value;
      && (s.poller.Fetch? && s.poller.id !in s.pending ==> s.poller.id in s.done)
      && (s.leaked == 0 ==>
            forall id | id in s.due && id !in s.done ::
              id in s.ready || s.poller == CheckPopped(id) || s.poller == Fetch(id))
  {
    RunKeepsInv(run);
  }

  /** The assertions on the poll counter fail exactly when an earlier poll ended at one of the two
      early returns, which needs a close; without one the counter tells whether a poll is running. */
  lemma PanicsExactlyAfterEarlyReturn(run: seq<Event>)
    requires Exec(run).Some? && Enabled(Exec(run).value, PollStep)
    ensures
      var s := Exec(run).value;
      && (Apply(s, PollStep).poller.Panicked? <==> s.poller.Enter? && s.leaked > 0)
      && (!s.closed ==> s.leaked == 0 && s.counter == if InPoll(s.poller) then 1 else 0)
  {
    RunKeepsInv(run);
  }

  // ----- Every wake is acted on -----

  /** Event `i` asks for a poll of `id`: a wake by thread `t`, or its push, which has just stored the future. */
  ghost predicate Asks(run: seq<Event>, i: nat, t: nat, id: nat) {
    && i < |run| && Exec(run[..i]).Some?
    && (run[i] == CallWake(t, id) || (run[i] == Step(t) && Exec(run[..i]).value.Pc(t) == Store(id)))
  }

  /** At event `j` the poller takes the future out of the pending map to poll it. */
  ghost predicate PolledAt(run: seq<Event>, j: nat, id: nat) {
    && j < |run| && run[j] == PollStep && Exec(run[..j]).Some?
    && Exec(run[..j]).value.poller == Fetch(id) && id in Exec(run[..j]).value.pending
  }

  /** The id is still with the thread that asked, on its way to the poller, or no longer needed. */
  predicate OnItsWay(s: State, t: nat, id: nat) {
    s.Pc(t) == Enqueue(id) || id in s.ready || s.poller == CheckPopped(id) || s.poller == Fetch(id) || id in s.done
  }

  ghost predicate PolledSince(run: seq<Event>, i: nat, id: nat) {
    exists j | i < j < |run| :: PolledAt(run, j, id)
  }

  lemma PolledLater(run: seq<Event>, e: Event, i: nat, id: nat)
    requires PolledSince(run, i, id)
    ensures PolledSince(run + [e], i, id)
  {
    var j :| i < j < |run| && PolledAt(run, j, id);
    assert (run + [e])[..j] == run[..j];
    hide Exec;
    assert PolledAt(run + [e], j, id);
  }

  lemma PolledNow(run: seq<Event>, i: nat, id: nat)
    requires Exec(run).Some? && i < |run| && Exec(run).value.poller == Fetch(id) && id in Exec(run).value.pending
    ensures PolledSince(run + [PollStep], i, id)
  {
    assert (run + [PollStep])[..|run|] == run;
    hide Exec;
    assert PolledAt(run + [PollStep], |run|, id);
  }

  /** One step takes the id along, unless the poller fetches it or leaves early. */
  lemma WayStep(s: State, e: Event, t: nat, id: nat)
    requires Enabled(s, e) && OnItsWay(s, t, id)
    requires s.poller == Fetch(id) && id !in s.pending ==> id in s.done
    ensures
      var s' := Apply(s, e);
      OnItsWay(s', t, id) || s'.leaked > s.leaked || (e == PollStep && s.poller == Fetch(id) && id in s.pending)
    ensures s.leaked <= Apply(s, e).leaked
  {
  }

  lemma AskStarts(s: State, e: Event, t: nat, id: nat)
    requires Enabled(s, e) && (e == CallWake(t, id) || (e == Step(t) && s.Pc(t) == Store(id)))
    ensures OnItsWay(Apply(s, e), t, id)
  {
  }

  lemma LeakedGrows(s: State, e: Event)
    requires Enabled(s, e)
    ensures s.leaked <= Apply(s, e).leaked
  {
  }

  /** From the events alone: whenever a future is woken or pushed, it is polled afterwards, complete, or still on its
      way to the poller, as long as no poll was cut short by `close`. */
  lemma {:induction false} EveryWakeIsActedOn(run: seq<Event>, i: nat, t: nat, id: nat)
    requires Exec(run).Some? && Asks(run, i, t, id) && Exec(run).value.leaked == 0
    ensures OnItsWay(Exec(run).value, t, id) || PolledSince(run, i, id)
  {
    var front, e := run[..|run| - 1], run[|run| - 1];
    var s := Exec(front).value;
    assert run == front + [e];
    if i == |run| - 1 {
      assert run[..i] == front;
      AskStarts(s, e, t, id);
    } else {
      assert run[..i] == front[..i] && run[i] == front[i];
      LeakedGrows(s, e);
      EveryWakeIsActedOn(front, i, t, id);
      if PolledSince(front, i, id) {
        PolledLater(front, e, i, id);
      } else {
        FetchFindsOrDone(front, id);
        WayStep(s, e, t, id);
        if e == PollStep && s.poller == Fetch(id) && id in s.pending {
          PolledNow(front, i, id);
        }
      }
    }
  }

  lemma FetchFindsOrDone(run: seq<Event>, id: nat)
    requires Exec(run).Some?
    ensures var s := Exec(run).value; s.poller == Fetch(id) && id !in s.pending ==> id in s.done
  {
    PopMissesOnlyCompleted(run);
  }

  // ----- After close -----

  /** The batcher is closed and the poller is not about to fetch a future: it never will be again. */
  predicate Over(s: State) {
    s.closed && !s.poller.Fetch?
  }

  lemma OverStep(s: State, e: Event)
    requires Over(s) && Enabled(s, e)
    ensures Over(Apply(s, e))
  {
  }

  lemma {:induction false} OverStays(run: seq<Event>, i: nat, j: nat)
    requires Exec(run).Some? && i <= j <= |run| && Exec(run[..i]).Some? && Over(Exec(run[..i]).value)
    ensures Exec(run[..j]).Some? && Over(Exec(run[..j]).value)
    decreases j
  {
    PrefixRuns(run, j);
    if i < j {
      OverStays(run, i, j - 1);
      assert run[..j][..j - 1] == run[..j - 1];
      OverStep(Exec(run[..j - 1]).value, run[j - 1]);
    }
  }

  lemma Closes(s: State, e: Event)
    requires Enabled(s, e) && s.closed
    ensures Apply(s, e).closed
  {
  }

  lemma OverAfterPoll(run: seq<Event>, j: nat, x: nat)
    requires j < |run| && PolledAt(run, j, x) && Exec(run[..j]).value.closed && Exec(run[..j + 1]).Some?
    ensures Over(Exec(run[..j + 1]).value)
  {
    assert run[..j + 1][..j] == run[..j] && run[..j + 1][j] == run[j];
  }

  lemma NotOver(run: seq<Event>, k: nat, y: nat)
    requires PolledAt(run, k, y)
    ensures !Over(Exec(run[..k]).value)
  {
  }

  /** After a close at most one more future is polled: the one that was popped before. */
  lemma AtMostOneAfterClose(run: seq<Event>, i: nat, j: nat, x: nat, k: nat, y: nat)
    requires Exec(run).Some? && i <= j < k < |run| && Exec(run[..i]).Some? && Exec(run[..i]).value.closed
    requires PolledAt(run, j, x)
    ensures !PolledAt(run, k, y)
  {
    hide Exec, PolledAt, Over;
    ClosedStays(run, i, j);
    PrefixRuns(run, j + 1);
    OverAfterPoll(run, j, x);
    OverStays(run, j + 1, k);
    if PolledAt(run, k, y) {
      NotOver(run, k, y);
    }
  }

  lemma {:induction false} PrefixRuns(run: seq<Event>, n: nat)
    requires Exec(run).Some? && n <= |run|
    ensures Exec(run[..n]).Some?
  {
    if n < |run| {
      assert run[..|run| - 1][..n] == run[..n];
      PrefixRuns(run[..|run| - 1], n);
    } else {
      assert run[..n] == run;
    }
  }

  lemma {:induction false} ClosedStays(run: seq<Event>, i: nat, j: nat)
    requires Exec(run).Some? && i <= j <= |run| && Exec(run[..i]).Some? && Exec(run[..i]).value.closed
    ensures Exec(run[..j]).Some? && Exec(run[..j]).value.closed
    decreases j
  {
    PrefixRuns(run, j);
    if i < j {
      ClosedStays(run, i, j - 1);
      assert run[..j][..j - 1] == run[..j - 1];
      Closes(Exec(run[..j - 1]).value, run[j - 1]);
    }
  }

  predicate Turned(pc: PollPc) {
    pc.Enter? || pc.CheckClosed? || pc.Resting? || pc.Panicked?
  }

  lemma TurnedStep(s: State, e: Event)
    requires Enabled(s, e) && s.closed && Turned(s.poller) && e != Poll
    ensures Turned(Apply(s, e).poller) && Apply(s, e).returned == s.returned
  {
  }

  /** A poll of a closed batcher polls nothing and returns no result. */
  lemma {:induction false} ClosedPollDoesNothing(run: seq<Event>, i: nat)
    requires Exec(run).Some? && i < |run| && run[i] == Poll && Exec(run[..i]).Some? && Exec(run[..i]).value.closed
    requires forall j | i < j < |run| :: run[j] != Poll
    ensures Turned(Exec(run).value.poller) && Exec(run).value.returned == Exec(run[..i]).value.returned
  {
    var front, e := run[..|run| - 1], run[|run| - 1];
    assert front[..i] == run[..i] || i == |run| - 1;
    if i == |run| - 1 {
      assert run[..i] == front;
    } else {
      assert front[i] == run[i] && forall j | i < j < |front| :: front[j] == run[j];
      ClosedPollDoesNothing(front, i);
      ClosedStays(run, i, |run| - 1);
      TurnedStep(Exec(front).value, e);
    }
  }

  // ----- What a poll leaves behind -----

  predicate QuietInv(s: State) {
    s.poller.LeaveReady? || (s.poller.Resting? && !s.closed) ==> s.waker == None
  }

  lemma QuietStep(s: State, e: Event)
    requires QuietInv(s) && Enabled(s, e)
    ensures QuietInv(Apply(s, e))
  {
  }

  /** A poll that returns a result leaves no waker behind: nothing can wake its task for it any more. */
  lemma {:induction false} ResultLeavesNoWaker(run: seq<Event>)
    requires Exec(run).Some?
    ensures var s := Exec(run).value; s.poller.Resting? && !s.closed ==> s.waker == None
    ensures QuietInv(Exec(run).value)
  {
    if run != [] {
      ResultLeavesNoWaker(run[..|run| - 1]);
      QuietStep(Exec(run[..|run| - 1]).value, run[|run| - 1]);
    }
  }

  lemma Extend(run: seq<Event>, s: State, e: Event) returns (s': State)
    requires Exec(run) == Some(s) && Enabled(s, e)
    ensures Exec(run + [e]) == Some(Apply(s, e)) && s' == Apply(s, e)
  {
    assert (run + [e])[..|run|] == run;
    s' := Apply(s, e);
  }

  /** Polling a closed batcher twice runs into the assertion. */
  lemma SecondPollAfterCloseCanPanic()
    ensures exists run | Exec(run).Some? :: Exec(run).value.poller.Panicked?
  {
    var s1 := Extend([], START, CallClose(0));
    var s2 := Extend([CallClose(0)], s1, Step(0));
    var r2 := [CallClose(0)] + [Step(0)];
    var s3 := Extend(r2, s2, Poll);
    var s4 := Extend(r2 + [Poll], s3, PollStep);
    var s5 := Extend(r2 + [Poll] + [PollStep], s4, PollStep);
    var r5 := r2 + [Poll] + [PollStep] + [PollStep];
    var s6 := Extend(r5, s5, Poll);
    var s7 := Extend(r5 + [Poll], s6, PollStep);
    assert s7.poller.Panicked?;
  }

  /** A future is pushed, and its id is ready. */
  lemma PushOne() returns (run: seq<Event>, s: State)
    ensures Exec(run) == Some(s)
    ensures s == State(1, {0}, [0], None, 0, false, Resting, map[1 := Idle], 0, {}, {}, {0}, {}, [], 0)
  {
    run, s := [], START;
    var a := Step(1);
    s := Extend(run, s, CallPush(1)); run := run + [CallPush(1)];
    hide Exec;
    s := Extend(run, s, a); run := run + [a];
    s := Extend(run, s, a); run := run + [a];
    s := Extend(run, s, a); run := run + [a];
    assert s.Pc(1) == LoadWaker;
    s := Extend(run, s, a); run := run + [a];
    assert s.threads == map[1 := Idle];
  }

  /** It is polled, is not ready, and the poller sleeps. */
  lemma PollPending() returns (run: seq<Event>, s: State)
    ensures Exec(run) == Some(s)
    ensures s == State(1, {0}, [], Some(Box(9, 1)), 0, false, Parked, map[1 := Idle], 1, {}, {0}, {}, {}, [], 0)
  {
    hide Exec;
    run, s := PushOne();
    s := Extend(run, s, Poll); run := run + [Poll];
    s := Extend(run, s, PollStep); run := run + [PollStep];
    s := Extend(run, s, PollStep); run := run + [PollStep];
    s := Extend(run, s, ArmAt(9)); run := run + [ArmAt(9)];
    s := Extend(run, s, PollStep); run := run + [PollStep];
    assert s.poller == CheckPopped(0) && s.ready == [];
    s := Extend(run, s, PollStep); run := run + [PollStep];
    s := Extend(run, s, PollStep); run := run + [PollStep];
    assert s.poller == Polling(0) && s.pending == {} && s.due == {};
    s := Extend(run, s, Complete(false)); run := run + [Complete(false)];
    s := Extend(run, s, PollStep); run := run + [PollStep];
    assert s.pending == {0};
    s := Extend(run, s, PollStep); run := run + [PollStep];
    s := Extend(run, s, PollStep); run := run + [PollStep];
    s := Extend(run, s, PollStep); run := run + [PollStep];
  }

  /** Its waker fires, and the poller's task is woken. */
  lemma WakeSleeper() returns (run: seq<Event>, s: State)
    ensures Exec(run) == Some(s)
    ensures s == State(1, {0}, [0], None, 0, false, Parked, map[1 := Idle], 1, {1}, {0}, {0}, {}, [], 0)
  {
    hide Exec;
    run, s := PollPending();
    var a := Step(1);
    s := Extend(run, s, CallWake(1, 0)); run := run + [CallWake(1, 0)];
    s := Extend(run, s, a); run := run + [a];
    s := Extend(run, s, a); run := run + [a];
    assert s.Pc(1) == ClearWaker(9);
    s := Extend(run, s, a); run := run + [a];
    assert s.Pc(1) == Wake(1);
    s := Extend(run, s, a); run := run + [a];
    assert s.threads == map[1 := Idle];
  }

  /** A future that is pushed, polled without success and woken is polled again, and its result returned. */
  lemma FutureCompletes()
    ensures exists run | Exec(run).Some? ::
              var s := Exec(run).value;
              s.returned == [0] && s.done == {0} && s.poller.Resting? && s.notified == {1} && s.waker == None
  {
    hide Exec;
    var run, s := WakeSleeper();
    s := Extend(run, s, Poll); run := run + [Poll];
    s := Extend(run, s, PollStep); run := run + [PollStep];
    s := Extend(run, s, PollStep); run := run + [PollStep];
    s := Extend(run, s, ArmAt(9)); run := run + [ArmAt(9)];
    s := Extend(run, s, PollStep); run := run + [PollStep];
    s := Extend(run, s, PollStep); run := run + [PollStep];
    s := Extend(run, s, PollStep); run := run + [PollStep];
    assert s.poller == Polling(0);
    s := Extend(run, s, Complete(true)); run := run + [Complete(true)];
    s := Extend(run, s, PollStep); run := run + [PollStep];
    s := Extend(run, s, PollStep); run := run + [PollStep];
    assert s.poller == LeaveReady(0) && s.waker == None;
    s := Extend(run, s, PollStep); run := run + [PollStep];
    assert s.returned == [0];
  }
}
