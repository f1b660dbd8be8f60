/** The ticket queue of crates/lockfree/src/queue.rs: any number of threads run `push` and `pop`,
    one step per atomic access.  The last section shows that the queue is linearizable: every run is
    a run of a queue whose operations are atomic. */
module TicketQueue {
  import opened Options

  /** What a thread does next; each constructor is one atomic access of the source. */
  datatype Pc<T> =
    | Idle
    | TakeTicket(value: T)              // tail.fetch_add
    | Fill(ticket: nat, value: T)       // slots.insert
    | Pushed
    | ReadHead                          // head.load
    | ReadTail(seen: nat)               // tail.load
    | Claim(seen: nat)                  // head.compare_exchange
    | Take(ticket: nat)                 // slots.remove, repeated until it succeeds
    | Popped(result: Option<T>)

  datatype State<T> = State(head: nat, tail: nat, slots: map<nat, T>, pcs: map<nat, Pc<T>>) {
    function Pc(t: nat): Pc<T> {
      if t in pcs then pcs[t] else Idle
    }

    function At(t: nat, pc: Pc<T>): State<T> {
      this.(pcs := pcs[t := pc])
    }
  }

  datatype Action<T> = CallPush(value: T) | CallPop | Advance

  datatype Event<T> = Event(thread: nat, action: Action<T>)

  predicate Enabled<T>(s: State<T>, e: Event<T>) {
    e.action.Advance? <==> !s.Pc(e.thread).Idle?
  }

  function Apply<T>(s: State<T>, e: Event<T>): State<T>
    requires Enabled(s, e)
  {
    var t := e.thread;
    match e.action
    case CallPush(v) => s.At(t, TakeTicket(v))
    case CallPop => s.At(t, ReadHead)
    case Advance =>
      match s.Pc(t)
      case TakeTicket(v) => s.(tail := s.tail + 1).At(t, Fill(s.tail, v))
      case Fill(k, v) => s.(slots := s.slots[k := v]).At(t, Pushed)
      case Pushed => s.At(t, Idle)
      case ReadHead => s.At(t, ReadTail(s.head))
      case ReadTail(h) => s.At(t, if h == s.tail then Popped(None) else Claim(h))
      case Claim(h) =>
        if s.head == h then s.(head := h + 1).At(t, Take(h)) else s.At(t, ReadHead)
      case Take(k) =>
        if k in s.slots then s.(slots := s.slots - {k}).At(t, Popped(Some(s.slots[k]))) else s
      case Popped(_) => s.At(t, Idle)
  }

  function Init<T>(): State<T> {
    State(0, 0, map[], map[])
  }

  /** The state after a run, or None when some event of it was not possible. */
  function Exec<T>(run: seq<Event<T>>): Option<State<T>> {
    if run == [] then Some(Init())
    else
      var before := Exec(run[..|run| - 1]);
      var e := run[|run| - 1];
      if before.Some? && Enabled(before.value, e) then Some(Apply(before.value, e)) else None
  }

  // ----- The invariant -----

  ghost predicate Filling<T>(s: State<T>, t: nat, k: nat) {
    s.Pc(t).Fill? && s.Pc(t).ticket == k
  }

  ghost predicate Taking<T>(s: State<T>, t: nat, k: nat) {
    s.Pc(t).Take? && s.Pc(t).ticket == k
  }

  /** The value of ticket `k` is in its slot, or still in the hands of the thread that took `k`. */
  ghost predicate Live<T>(s: State<T>, k: nat) {
    k in s.slots || exists t :: Filling(s, t, k)
  }

  /** Ticket `k` still has a pop to come or in progress. */
  ghost predicate Open<T>(s: State<T>, k: nat) {
    s.head <= k < s.tail || exists t :: Taking(s, t, k)
  }

  ghost predicate ThreadInv<T>(s: State<T>, t: nat) {
    match s.Pc(t)
    case Fill(k, _) => k < s.tail && k !in s.slots && Open(s, k)
    case ReadTail(h) => h <= s.head
    case Claim(h) => h <= s.head && h < s.tail
    case Take(k) => k < s.head && Live(s, k)
    case _ => true
  }

  ghost predicate Inv<T>(s: State<T>) {
    && s.head <= s.tail
    && (forall t :: ThreadInv(s, t))
    && (forall k | s.head <= k < s.tail :: Live(s, k))
    && (forall k | k in s.slots :: k < s.tail && Open(s, k))
    && (forall t, u, k | Filling(s, t, k) && Filling(s, u, k) :: t == u)
    && (forall t, u, k | Taking(s, t, k) && Taking(s, u, k) :: t == u)
  }

  /** A ticket's value stays reachable until the pop that owns the ticket takes it out of its slot. */
  lemma LiveStep<T>(s: State<T>, e: Event<T>, k: nat)
    requires Inv(s) && Enabled(s, e) && Live(s, k)
    requires !Taking(s, e.thread, k)
    ensures Live(Apply(s, e), k)
  {
    var t, s' := e.thread, Apply(s, e);
    if k in s.slots {
      assert k in s'.slots;
    } else {
      var u :| Filling(s, u, k);
      if u == t { assert k in s'.slots; } else { assert Filling(s', u, k); }
    }
  }

  lemma OpenStep<T>(s: State<T>, e: Event<T>, k: nat)
    requires Inv(s) && Enabled(s, e) && Open(s, k)
    requires !Taking(s, e.thread, k)
    ensures Open(Apply(s, e), k)
  {
    var t, s' := e.thread, Apply(s, e);
    if s.head <= k < s.tail {
      if k < s'.head { assert Taking(s', t, k); }
    } else {
      var u :| Taking(s, u, k);
      assert Taking(s', u, k);
    }
  }

  /** No two threads ever hold the same ticket for the same purpose. */
  lemma UniqueStep<T>(s: State<T>, e: Event<T>, x: nat, y: nat, k: nat)
    requires Inv(s) && Enabled(s, e)
    ensures Filling(Apply(s, e), x, k) && Filling(Apply(s, e), y, k) ==> x == y
    ensures Taking(Apply(s, e), x, k) && Taking(Apply(s, e), y, k) ==> x == y
  {
    var t, s' := e.thread, Apply(s, e);
    assert ThreadInv(s, x) && ThreadInv(s, y);
    assert Filling(s', x, k) ==> Filling(s, x, k) || (x == t && k == s.tail);
    assert Filling(s', y, k) ==> Filling(s, y, k) || (y == t && k == s.tail);
    assert Taking(s', x, k) ==> Taking(s, x, k) || (x == t && k == s.head);
    assert Taking(s', y, k) ==> Taking(s, y, k) || (y == t && k == s.head);
  }

  lemma FillStep<T>(s: State<T>, e: Event<T>, u: nat)
    requires Inv(s) && Enabled(s, e) && Apply(s, e).Pc(u).Fill?
    ensures ThreadInv(Apply(s, e), u)
  {
    var t, s' := e.thread, Apply(s, e);
    var k := s'.Pc(u).ticket;
    assert ThreadInv(s, u) && ThreadInv(s, t);
    if u == t {
      assert k == s.tail && Open(s', k);
    } else {
      assert Filling(s, u, k) && k !in s.slots;
      assert s.Pc(t).Fill? ==> Filling(s, t, s.Pc(t).ticket);
      assert k !in s'.slots;
      if Taking(s, t, k) { assert s' == s; } else { OpenStep(s, e, k); }
    }
  }

  lemma TakeStep<T>(s: State<T>, e: Event<T>, u: nat)
    requires Inv(s) && Enabled(s, e) && Apply(s, e).Pc(u).Take?
    ensures ThreadInv(Apply(s, e), u)
  {
    var t, s' := e.thread, Apply(s, e);
    var k := s'.Pc(u).ticket;
    assert ThreadInv(s, u) && ThreadInv(s, t);
    if u == t && s.Pc(t).Take? {
      assert s' == s;
    } else {
      assert u != t ==> Taking(s, u, k);
      LiveStep(s, e, k);
    }
  }

  lemma ThreadStep<T>(s: State<T>, e: Event<T>, u: nat)
    requires Inv(s) && Enabled(s, e)
    ensures ThreadInv(Apply(s, e), u)
  {
    if Apply(s, e).Pc(u).Fill? {
      FillStep(s, e, u);
    } else if Apply(s, e).Pc(u).Take? {
      TakeStep(s, e, u);
    } else {
      assert ThreadInv(s, u) && ThreadInv(s, e.thread);
    }
  }

  /** Every atomic access, by any thread, keeps the invariant. */
  lemma StepKeepsInv<T>(s: State<T>, e: Event<T>)
    requires Inv(s) && Enabled(s, e)
    ensures Inv(Apply(s, e))
  {
    var t, s' := e.thread, Apply(s, e);
    assert ThreadInv(s, t);
    forall u ensures ThreadInv(s', u) {
      ThreadStep(s, e, u);
    }
    forall x, y, k | Filling(s', x, k) && Filling(s', y, k) ensures x == y {
      UniqueStep(s, e, x, y, k);
    }
    forall x, y, k | Taking(s', x, k) && Taking(s', y, k) ensures x == y {
      UniqueStep(s, e, x, y, k);
    }
    forall k | s'.head <= k < s'.tail ensures Live(s', k) {
      if k < s.tail { LiveStep(s, e, k); } else { assert Filling(s', t, k); }
    }
    forall k | k in s'.slots ensures k < s'.tail && Open(s', k) {
      if !Taking(s, t, k) { OpenStep(s, e, k); }
    }
  }

  lemma {:induction false} RunKeepsInv<T>(run: seq<Event<T>>)
    requires Exec(run).Some?
    ensures Inv(Exec(run).value)
  {
    if run != [] {
      RunKeepsInv(run[..|run| - 1]);
      StepKeepsInv(Exec(run[..|run| - 1]).value, run[|run| - 1]);
    }
  }

  // ----- The atomic queue -----

  /** Where an operation on the atomic queue stands: called, or effected and about to return. */
  datatype Call<T> = NoCall | Enqueue(value: T) | Enqueued | Dequeue | Dequeued(result: Option<T>)

  datatype Fifo<T> = Fifo(contents: seq<T>, calls: map<nat, Call<T>>) {
    function Call(t: nat): Call<T> {
      if t in calls then calls[t] else NoCall
    }
  }

  /** Calls and returns are what a client sees; an effect happens in one instant between them. */
  datatype Move<T> = Tau | InvokePush(value: T) | InvokePop | Effect | ReturnPush | ReturnPop(result: Option<T>)

  predicate FifoEnabled<T(==)>(q: Fifo<T>, t: nat, m: Move<T>) {
    match m
    case Tau => true
    case InvokePush(_) => q.Call(t).NoCall?
    case InvokePop => q.Call(t).NoCall?
    case Effect => q.Call(t).Enqueue? || q.Call(t).Dequeue?
    case ReturnPush => q.Call(t).Enqueued?
    case ReturnPop(r) => q.Call(t) == Dequeued(r)
  }

  function FifoApply<T(==)>(q: Fifo<T>, t: nat, m: Move<T>): Fifo<T>
    requires FifoEnabled(q, t, m)
  {
    match m
    case Tau => q
    case InvokePush(v) => q.(calls := q.calls[t := Enqueue(v)])
    case InvokePop => q.(calls := q.calls[t := Dequeue])
    case Effect =>
      if q.Call(t).Enqueue? then Fifo(q.contents + [q.Call(t).value], q.calls[t := Enqueued])
      else if q.contents == [] then q.(calls := q.calls[t := Dequeued(None)])
      else Fifo(q.contents[1..], q.calls[t := Dequeued(Some(q.contents[0]))])
    case ReturnPush => q.(calls := q.calls[t := NoCall])
    case ReturnPop(_) => q.(calls := q.calls[t := NoCall])
  }

  function FifoExec<T(==)>(moves: seq<(nat, Move<T>)>): Option<Fifo<T>> {
    if moves == [] then Some(Fifo([], map[]))
    else
      var before := FifoExec(moves[..|moves| - 1]);
      var (t, m) := moves[|moves| - 1];
      if before.Some? && FifoEnabled(before.value, t, m) then Some(FifoApply(before.value, t, m)) else None
  }

  // ----- Refinement -----

  /** Pushes take effect at the tail increment, successful pops at the head exchange, empty pops at
      the tail load. */
  function MoveOf<T>(s: State<T>, e: Event<T>): Move<T>
    requires Enabled(s, e)
  {
    match e.action
    case CallPush(v) => InvokePush(v)
    case CallPop => InvokePop
    case Advance =>
      match s.Pc(e.thread)
      case TakeTicket(_) => Effect
      case ReadTail(h) => if h == s.tail then Effect else Tau
      case Claim(h) => if h == s.head then Effect else Tau
      case Pushed => ReturnPush
      case Popped(r) => ReturnPop(r)
      case _ => Tau
  }

  function Moves<T>(run: seq<Event<T>>): seq<(nat, Move<T>)>
    requires Exec(run).Some?
  {
    if run == [] then []
    else
      var front, e := run[..|run| - 1], run[|run| - 1];
      Moves(front) + [(e.thread, MoveOf(Exec(front).value, e))]
  }

  ghost function ValueAt<T>(s: State<T>, k: nat): T
    requires Live(s, k)
  {
    if k in s.slots then s.slots[k]
    else var t :| Filling(s, t, k); s.Pc(t).value
  }

  ghost function CallOf<T>(s: State<T>, t: nat): Call<T>
    requires Inv(s)
  {
    assert ThreadInv(s, t);
    match s.Pc(t)
    case Idle => NoCall
    case TakeTicket(v) => Enqueue(v)
    case Fill(_, _) => Enqueued
    case Pushed => Enqueued
    case Take(k) => Dequeued(Some(ValueAt(s, k)))
    case Popped(r) => Dequeued(r)
    case _ => Dequeue
  }

  /** The atomic queue a concurrent state stands for. */
  ghost function Abs<T>(s: State<T>): Fifo<T>
    requires Inv(s)
  {
    Fifo(seq(s.tail - s.head, i requires 0 <= i < s.tail - s.head => ValueAt(s, s.head + i)),
         map t | t in s.pcs :: CallOf(s, t))
  }

  lemma ValueStable<T>(s: State<T>, e: Event<T>, k: nat)
    requires Inv(s) && Enabled(s, e) && Live(s, k) && Live(Apply(s, e), k)
    requires !Taking(s, e.thread, k) || Apply(s, e) == s
    ensures ValueAt(Apply(s, e), k) == ValueAt(s, k)
  {
    var t, s' := e.thread, Apply(s, e);
    assert ThreadInv(s, t);
    if k !in s.slots {
      var u :| Filling(s, u, k);
      StepKeepsInv(s, e);
      ValueFilled(s, u, k);
      if u != t { ValueFilled(s', u, k); }
    }
  }

  lemma ValueFilled<T>(s: State<T>, t: nat, k: nat)
    requires Inv(s) && Filling(s, t, k)
    ensures Live(s, k) && ValueAt(s, k) == s.Pc(t).value
  {
    assert ThreadInv(s, t);
  }

  /** One access of the concurrent queue is one move, or no move, of the atomic queue. */
  lemma StepRefines<T>(s: State<T>, e: Event<T>)
    requires Inv(s) && Enabled(s, e)
    ensures Inv(Apply(s, e))
    ensures FifoEnabled(Abs(s), e.thread, MoveOf(s, e))
    ensures Abs(Apply(s, e)) == FifoApply(Abs(s), e.thread, MoveOf(s, e))
  {
    var t, s' := e.thread, Apply(s, e);
    StepKeepsInv(s, e);
    assert ThreadInv(s, t);
    var q, q' := Abs(s), FifoApply(Abs(s), t, MoveOf(s, e));
    forall u | u in s'.pcs ensures u in q'.calls && q'.calls[u] == CallOf(s', u) {
      if u == t { OwnCall(s, e); } else { OtherCall(s, e, u); }
    }
    assert Abs(s').calls == q'.calls;
    ContentsStep(s, e);
    assert Abs(s').contents == q'.contents;
  }

  /** The contents of the atomic queue change exactly as the move says. */
  lemma ContentsStep<T>(s: State<T>, e: Event<T>)
    requires Inv(s) && Enabled(s, e) && Inv(Apply(s, e))
    requires FifoEnabled(Abs(s), e.thread, MoveOf(s, e))
    ensures Abs(Apply(s, e)).contents == FifoApply(Abs(s), e.thread, MoveOf(s, e)).contents
  {
    var t, s' := e.thread, Apply(s, e);
    assert ThreadInv(s, t);
    forall k | s'.head <= k < s.tail ensures Live(s', k) && ValueAt(s', k) == ValueAt(s, k) {
      assert Live(s, k) && Live(s', k);
      ValueStable(s, e, k);
    }
    if s'.tail > s.tail {
      assert Filling(s', t, s.tail);
      ValueFilled(s', t, s.tail);
    }
  }

  /** A step of one thread does not show in the call of another. */
  lemma OtherCall<T>(s: State<T>, e: Event<T>, u: nat)
    requires Inv(s) && Enabled(s, e) && Inv(Apply(s, e))
    requires u != e.thread
    ensures CallOf(Apply(s, e), u) == CallOf(s, u)
  {
    var s' := Apply(s, e);
    assert ThreadInv(s, u) && ThreadInv(s', u);
    assert s'.Pc(u) == s.Pc(u);
    if s.Pc(u).Take? {
      assert Taking(s, u, s.Pc(u).ticket);
      ValueStable(s, e, s.Pc(u).ticket);
    }
  }

  /** A step of a thread changes its own call exactly as the move says. */
  lemma OwnCall<T>(s: State<T>, e: Event<T>)
    requires Inv(s) && Enabled(s, e) && Inv(Apply(s, e))
    requires FifoEnabled(Abs(s), e.thread, MoveOf(s, e))
    ensures FifoApply(Abs(s), e.thread, MoveOf(s, e)).Call(e.thread) == CallOf(Apply(s, e), e.thread)
  {
    var t, s' := e.thread, Apply(s, e);
    assert ThreadInv(s, t) && ThreadInv(s', t);
    if s'.Pc(t).Take? {
      ValueStable(s, e, s'.Pc(t).ticket);
    }
  }

  /** Linearizability: every run of the concurrent queue, with the same calls, the same returns and
      the same results, is a run of the atomic queue. */
  lemma {:induction false} Linearizable<T>(run: seq<Event<T>>)
    requires Exec(run).Some?
    ensures Inv(Exec(run).value)
    ensures FifoExec(Moves(run)) == Some(Abs(Exec(run).value))
  {
    RunKeepsInv(run);
    if run == [] {
      assert Abs(Init<T>()) == Fifo([], map[]);
    } else {
      var front, e := run[..|run| - 1], run[|run| - 1];
      Linearizable(front);
      StepRefines(Exec(front).value, e);
      assert Moves(run)[..|Moves(run)| - 1] == Moves(front);
    }
  }

  /** At rest `len` is exact and nothing leaks: the slots hold the contents of the queue, under
      consecutive tickets, and nothing else. */
  lemma AtRest<T>(run: seq<Event<T>>)
    requires Exec(run).Some?
    requires forall t :: Exec(run).value.Pc(t).Idle?
    ensures Inv(Exec(run).value)
    ensures
      var s, q := Exec(run).value, Abs(Exec(run).value);
      && s.tail - s.head == |q.contents|
      && (forall k :: k in s.slots <==> s.head <= k < s.tail)
      && (forall k | k in s.slots :: s.slots[k] == q.contents[k - s.head])
  {
    RunKeepsInv(run);
    var s := Exec(run).value;
    forall k | k in s.slots
      ensures s.head <= k < s.tail && s.slots[k] == Abs(s).contents[k - s.head]
    {
      assert Open(s, k);
      var i := k - s.head;
      assert Abs(s).contents[i] == ValueAt(s, s.head + i);
    }
    forall k | s.head <= k < s.tail ensures k in s.slots {
      assert Live(s, k);
    }
  }

  /** A pop that owns ticket `k` spins only while the push that took `k` is between its two steps. */
  lemma PopWaitsOnlyForItsPush<T>(run: seq<Event<T>>, t: nat)
    requires Exec(run).Some? && Exec(run).value.Pc(t).Take?
    requires Exec(run).value.Pc(t).ticket !in Exec(run).value.slots
    ensures exists u :: Filling(Exec(run).value, u, Exec(run).value.Pc(t).ticket)
  {
    RunKeepsInv(run);
    assert ThreadInv(Exec(run).value, t);
  }
}
