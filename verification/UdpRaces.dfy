/** The UDP group of crates/net/udp/src/group.rs in any number of tasks on any number of threads: one step per access
    of the buffer slot, of the batcher's counter and maps, and per box freed.  Calls may overlap and be given up. */
module UdpRaces {
  import opened Options
  import opened UdpGroup

  /** What a call does next. */
  datatype Pc =
    | NotBegun
    | Swap(box: nat)                                           // batching_read_buf.swap
    | FreeOld(box: nat)                                        // Box::from_raw(old_ptr)
    | Waiting                                                  // between two polls of its wait
    | Enter                                                    // await_counter.fetch_add
    | Pop                                                      // wakeup_futures.pop
    | Fetch(op: nat)                                           // pending_futures.remove
    | Load(op: nat, handle: nat)                               // batching_read_buf.load
    | Take(op: nat, handle: nat, box: nat, seen: nat)          // compare_exchange(buf, null)
    | Use(op: nat, handle: nat, box: nat, seen: nat)           // fd_cntl
    | Restore(op: nat, handle: nat, box: nat, seen: nat)       // compare_exchange(null, buf)
    | PutBack(op: nat, handle: nat)                            // pending_futures.insert
    | Free(done: Completion)                                   // Box::from_raw(buf)
    | LeaveReady(done: Completion)                             // await_counter.fetch_sub
    | Push(done: Completion)                                   // push_batch_read
    | LeavePending                                             // await_counter.fetch_sub
    | Returned(done: Completion)
    | GivenUp
    | Panicked(lost: Option<nat>)                              // with the socket whose operation it held

  /** What the calls share.  Boxes are addresses, and `heap` holds the live ones: an address may be used again.
      From `swaps` on it is history: how many swaps there were, the box of the last one, how many there were when the
      last box that was used up was taken, how many panics left the counter too high, the boxes lost, and whether a
      dead box was ever freed. */
  datatype Shared = Shared(
    slot: Option<nat>, heap: set<nat>, counter: nat, ops: map<nat, nat>, nextOp: nat,
    swaps: nat, last: nat, usedAt: nat, stuck: nat, leaked: set<nat>, freedTwice: bool)
  {
    function Dispose(box: nat): Shared {
      this.(heap := heap - {box}, freedTwice := freedTwice || box !in heap)
    }
  }

  /** `mine` is the box each call made, `swappers` the calls in the order of their swaps. */
  datatype State = State(sh: Shared, calls: map<nat, Pc>, mine: map<nat, nat>, swappers: seq<nat>) {
    function Pc(c: nat): Pc {
      if c in calls then calls[c] else NotBegun
    }
  }

  datatype Action =
    | Begin(box: nat)
    | Poll
    | GiveUp
    | Popped(op: Option<nat>)     // what the ready queue holds is up to the sockets
    | Answer(reply: Reply)
    | Step

  datatype Event = Event(call: nat, action: Action)

  predicate Can(sh: Shared, pc: Pc, a: Action) {
    match a
    case Begin(box) => pc.NotBegun? && box !in sh.heap
    case Poll => pc.Waiting?
    case GiveUp => pc.Waiting?
    case Popped(_) => pc.Pop?
    case Answer(_) => pc.Use?
    case Step =>
      !pc.NotBegun? && !pc.Waiting? && !pc.Pop? && !pc.Use? && !pc.Returned? && !pc.GivenUp? && !pc.Panicked?
  }

  function Move(sh: Shared, pc: Pc, a: Action): (Shared, Pc)
    requires Can(sh, pc, a)
  {
    match a
    case Begin(box) => (sh.(heap := sh.heap + {box}), Swap(box))
    case Poll => (sh, Enter)
    case GiveUp => (sh, GivenUp)
    case Popped(op) => (sh, if op.Some? then Fetch(op.value) else LeavePending)
    case Answer(reply) =>
      if reply == Blocked then (sh, Restore(pc.op, pc.handle, pc.box, pc.seen))
      else (sh.(usedAt := pc.seen), Free(Completion(pc.box, pc.handle, reply)))
    case Step => StepOf(sh, pc)
  }

  function StepOf(sh: Shared, pc: Pc): (Shared, Pc)
    requires Can(sh, pc, Step)
  {
    match pc
    case Swap(box) =>
      (sh.(slot := Some(box), swaps := sh.swaps + 1, last := box),
       if sh.slot.Some? then FreeOld(sh.slot.value) else Waiting)
    case FreeOld(box) => (sh.Dispose(box), Waiting)
    case Enter =>
      if sh.counter == 0 then (sh.(counter := 1), Pop)
      else (sh.(counter := sh.counter + 1, stuck := sh.stuck + 1), Panicked(None))
    case Fetch(op) =>
      if op in sh.ops then (sh.(ops := sh.ops - {op}), Load(op, sh.ops[op])) else (sh, Pop)
    case Load(op, handle) =>
      if sh.slot.Some? then (sh, Take(op, handle, sh.slot.value, sh.swaps))
      else (sh.(stuck := sh.stuck + 1), Panicked(Some(handle)))
    case Take(op, handle, box, _) =>
      if sh.slot == Some(box) then (sh.(slot := None), Use(op, handle, box, sh.swaps))
      else (sh.(stuck := sh.stuck + 1), Panicked(Some(handle)))
    case Restore(op, handle, box, _) =>
      if sh.slot == None then (sh.(slot := Some(box)), PutBack(op, handle))
      else (sh.(stuck := sh.stuck + 1, leaked := sh.leaked + {box}), Panicked(Some(handle)))
    case PutBack(op, handle) => (sh.(ops := sh.ops[op := handle]), Pop)
    case Free(done) => (sh.Dispose(done.box), LeaveReady(done))
    case LeaveReady(done) => (Leave(sh), if sh.counter == 1 then Push(done) else Panicked(Some(done.handle)))
    case LeavePending => (Leave(sh), if sh.counter == 1 then Waiting else Panicked(None))
    case Push(done) => (sh.(ops := sh.ops[sh.nextOp := done.handle], nextOp := sh.nextOp + 1), Returned(done))
  }

  function Leave(sh: Shared): Shared {
    sh.(counter := if sh.counter > 0 then sh.counter - 1 else 0)
  }

  predicate Enabled(s: State, e: Event) {
    Can(s.sh, s.Pc(e.call), e.action)
  }

  function Apply(s: State, e: Event): State
    requires Enabled(s, e)
  {
    var (sh, pc) := Move(s.sh, s.Pc(e.call), e.action);
    State(sh, s.calls[e.call := pc], if e.action.Begin? then s.mine[e.call := e.action.box] else s.mine,
          if s.Pc(e.call).Swap? then s.swappers + [e.call] else s.swappers)
  }

  /** A group at rest: no box yet, one operation per socket. */
  ghost predicate Ready(s: State, sockets: set<nat>) {
    && OneOpEach(s.sh.ops, sockets) && (forall op <- s.sh.ops :: op < s.sh.nextOp)
    && s == State(Shared(None, {}, 0, s.sh.ops, s.sh.nextOp, 0, 0, 0, 0, {}, false), map[], map[], [])
  }

  function Exec(start: State, run: seq<Event>): Option<State> {
    if run == [] then Some(start)
    else
      var before := Exec(start, run[..|run| - 1]);
      var e := run[|run| - 1];
      if before.Some? && Enabled(before.value, e) then Some(Apply(before.value, e)) else None
  }

  /** The step, seen from the call that takes it and from the others. */
  lemma Locally(s: State, e: Event)
    requires Enabled(s, e)
    ensures
      var s', m := Apply(s, e), Move(s.sh, s.Pc(e.call), e.action);
      s'.sh == m.0 && s'.Pc(e.call) == m.1 && forall d | d != e.call :: s'.Pc(d) == s.Pc(d)
  {
  }

  // ----- One poll at a time -----

  /** Past the entry assertion and not at the end of the poll. */
  predicate Inside(pc: Pc) {
    pc.Pop? || pc.Fetch? || pc.Load? || pc.Take? || pc.Use? || pc.Restore? || pc.PutBack? || pc.Free? ||
    pc.LeaveReady? || pc.LeavePending?
  }

  ghost predicate Busy(s: State) {
    exists c :: Inside(s.Pc(c))
  }

  ghost predicate PollInv(s: State) {
    && (forall c, d | Inside(s.Pc(c)) && Inside(s.Pc(d)) :: c == d)
    && s.sh.counter == s.sh.stuck + (if Busy(s) then 1 else 0)
  }

  lemma CounterMove(sh: Shared, pc: Pc, a: Action)
    requires Can(sh, pc, a) && (Inside(pc) ==> sh.counter > 0)
    ensures
      var (sh', pc') := Move(sh, pc, a);
      && sh'.counter - sh'.stuck == sh.counter - sh.stuck + (if Inside(pc') then 1 else 0)
          - (if Inside(pc) then 1 else 0)
      && (Inside(pc') && !Inside(pc) ==> sh.counter == 0)
  {
  }

  lemma PollStep(s: State, e: Event)
    requires PollInv(s) && Enabled(s, e)
    ensures PollInv(Apply(s, e))
  {
    hide Move, Can, Inside;
    var s' := Apply(s, e);
    Locally(s, e);
    assert Inside(s.Pc(e.call)) ==> Busy(s);
    CounterMove(s.sh, s.Pc(e.call), e.action);
    if d :| d != e.call && Inside(s.Pc(d)) {
      assert Busy(s) && Inside(s'.Pc(d)) && Busy(s');
    } else {
      assert Busy(s) <==> Inside(s.Pc(e.call));
      assert Busy(s') <==> Inside(s'.Pc(e.call));
    }
  }

  // ----- The slot -----

  predicate Window(pc: Pc) {
    pc.Use? || pc.Restore?
  }

  /** What the slot holds, from the point of view of a call that has looked at it. */
  predicate SlotOk(sh: Shared, pc: Pc) {
    && (pc.Take? ==>
          sh.usedAt < pc.seen <= sh.swaps &&
          sh.slot == Some(if sh.swaps == pc.seen then pc.box else sh.last))
    && (Window(pc) ==>
          sh.usedAt < pc.seen <= sh.swaps &&
          sh.slot == if sh.swaps == pc.seen then None else Some(sh.last))
  }

  predicate Settled(sh: Shared) {
    sh.slot == None <==> sh.swaps == sh.usedAt
  }

  /** Outside those windows the slot is empty exactly when no call has swapped since the last box was used up. */
  ghost predicate SlotInv(s: State) {
    && s.sh.usedAt <= s.sh.swaps
    && (forall c :: SlotOk(s.sh, s.Pc(c)))
    && ((forall c :: !Window(s.Pc(c))) ==> Settled(s.sh))
  }

  lemma SlotMove(sh: Shared, pc: Pc, a: Action)
    requires Can(sh, pc, a) && SlotOk(sh, pc) && sh.usedAt <= sh.swaps
    requires Inside(pc) && !Window(pc) ==> Settled(sh)
    ensures
      var (sh', pc') := Move(sh, pc, a);
      && SlotOk(sh', pc') && sh'.usedAt <= sh'.swaps
      && (!Window(pc') && (Window(pc) || Settled(sh)) ==> Settled(sh'))
  {
  }

  /** A call outside a poll can only swap, and that shows to the one inside as a later swap. */
  lemma SlotMoveOther(sh: Shared, pc: Pc, a: Action, other: Pc)
    requires Can(sh, pc, a) && SlotOk(sh, other) && (Inside(other) ==> !Inside(pc))
    ensures SlotOk(Move(sh, pc, a).0, other)
  {
    if other.Take? || Window(other) {
      assert Inside(other);
    }
  }

  lemma SlotStep(s: State, e: Event)
    requires PollInv(s) && SlotInv(s) && Enabled(s, e)
    ensures SlotInv(Apply(s, e))
  {
    var s', pc := Apply(s, e), s.Pc(e.call);
    Locally(s, e);
    assert forall d | Window(s.Pc(d)) :: Inside(s.Pc(d));
    hide Move, Can, Inside, SlotOk, Settled, Window;
    assert SlotOk(s.sh, pc);
    if Inside(pc) && !Window(pc) {
      assert forall d :: !Window(s.Pc(d));
    }
    SlotMove(s.sh, pc, e.action);
    forall d ensures SlotOk(s'.sh, s'.Pc(d)) {
      if d != e.call { assert SlotOk(s.sh, s.Pc(d)); SlotMoveOther(s.sh, pc, e.action, s.Pc(d)); }
    }
    if forall d :: !Window(s'.Pc(d)) {
      assert forall d | d != e.call :: !Window(s.Pc(d));
      assert Window(pc) || forall d :: !Window(s.Pc(d));
      assert !Window(s'.Pc(e.call));
    }
  }

  // ----- The boxes -----

  function HeldBox(pc: Pc): Option<nat> {
    match pc
    case Swap(box) => Some(box)
    case FreeOld(box) => Some(box)
    case Use(_, _, box, _) => Some(box)
    case Restore(_, _, box, _) => Some(box)
    case Free(done) => Some(done.box)
    case _ => None
  }

  /** A box that a call holds is live, and neither in the slot nor lost; so is one in the slot. */
  predicate BoxOk(sh: Shared, held: Option<nat>) {
    && (held.Some? ==> held.value in sh.heap && sh.slot != held && held.value !in sh.leaked)
    && (sh.slot.Some? ==> sh.slot.value in sh.heap && sh.slot.value !in sh.leaked)
  }

  /** A live box is in the slot, lost, or held by a call. */
  ghost predicate Found(s: State, b: nat) {
    s.sh.slot == Some(b) || b in s.sh.leaked || exists c :: HeldBox(s.Pc(c)) == Some(b)
  }

  ghost predicate BoxInv(s: State) {
    && !s.sh.freedTwice
    && (forall c :: BoxOk(s.sh, HeldBox(s.Pc(c))))
    && (forall c, d | HeldBox(s.Pc(c)).Some? && HeldBox(s.Pc(c)) == HeldBox(s.Pc(d)) :: c == d)
    && s.sh.leaked <= s.sh.heap
    && (forall b <- s.sh.heap :: Found(s, b))
  }

  /** How a box can move: made, swapped with the slot, taken, restored, freed or lost. */
  predicate BoxMoves(sh: Shared, sh': Shared, held: Option<nat>, held': Option<nat>) {
    || (sh'.heap == sh.heap && sh'.slot == sh.slot && sh'.leaked == sh.leaked && held' == held)
    || (held == None && held'.Some? && held'.value !in sh.heap && sh'.heap == sh.heap + {held'.value}
        && sh'.slot == sh.slot && sh'.leaked == sh.leaked)
    || (sh'.heap == sh.heap && sh'.slot == held && held' == sh.slot && sh'.leaked == sh.leaked)
    || (held.Some? && held' == None && sh'.heap == sh.heap - {held.value} &&
        sh'.slot == sh.slot && sh'.leaked == sh.leaked)
    || (held.Some? && held' == None && sh'.heap == sh.heap &&
        sh'.slot == sh.slot && sh'.leaked == sh.leaked + {held.value})
  }

  lemma BoxMove(sh: Shared, pc: Pc, a: Action)
    requires Can(sh, pc, a) && BoxOk(sh, HeldBox(pc)) && !sh.freedTwice
    ensures
      var (sh', pc') := Move(sh, pc, a);
      !sh'.freedTwice && BoxMoves(sh, sh', HeldBox(pc), HeldBox(pc'))
  {
  }

  lemma BoxOkAfter(sh: Shared, sh': Shared, held: Option<nat>, held': Option<nat>, other: Option<nat>)
    requires BoxMoves(sh, sh', held, held') && BoxOk(sh, held) && BoxOk(sh, other) && sh.leaked <= sh.heap
    requires other.Some? ==> other != held
    ensures BoxOk(sh', held') && BoxOk(sh', other) && sh'.leaked <= sh'.heap
    ensures held'.Some? && held' == other ==> other == None
  {
  }

  lemma FoundAfter(s: State, e: Event, b: nat)
    requires BoxInv(s) && Enabled(s, e) && b in Apply(s, e).sh.heap
    requires BoxMoves(s.sh, Apply(s, e).sh, HeldBox(s.Pc(e.call)), HeldBox(Apply(s, e).Pc(e.call)))
    ensures Found(Apply(s, e), b)
  {
    Locally(s, e);
    hide Apply, Move, Can, HeldBox, BoxOk;
    var s' := Apply(s, e);
    if b in s.sh.heap {
      assert Found(s, b);
      if c :| HeldBox(s.Pc(c)) == Some(b) && c != e.call {
        assert HeldBox(s'.Pc(c)) == Some(b);
      }
    }
  }

  lemma BoxStep(s: State, e: Event)
    requires BoxInv(s) && Enabled(s, e)
    ensures BoxInv(Apply(s, e))
  {
    var s' := Apply(s, e);
    Locally(s, e);
    hide Apply, Move, Can, HeldBox, BoxMoves, BoxOk, Found;
    var held, held' := HeldBox(s.Pc(e.call)), HeldBox(s'.Pc(e.call));
    assert BoxOk(s.sh, held);
    BoxMove(s.sh, s.Pc(e.call), e.action);
    BoxOkAfter(s.sh, s'.sh, held, held', None) by { hide BoxMoves; NoBoxOk(s.sh, held); }
    forall d ensures BoxOk(s'.sh, HeldBox(s'.Pc(d))) && (d != e.call && held'.Some? ==> HeldBox(s'.Pc(d)) != held') {
      if d != e.call {
        assert BoxOk(s.sh, HeldBox(s.Pc(d)));
        BoxOkAfter(s.sh, s'.sh, held, held', HeldBox(s.Pc(d)));
      }
    }
    forall b | b in s'.sh.heap ensures Found(s', b) {
      FoundAfter(s, e, b);
    }
  }

  lemma NoBoxOk(sh: Shared, held: Option<nat>)
    requires BoxOk(sh, held)
    ensures BoxOk(sh, None)
  {
  }

  // ----- The operations -----

  /** The socket whose operation a call has taken from the batcher and not given back. */
  function HeldHandle(pc: Pc): Option<nat> {
    match pc
    case Load(_, handle) => Some(handle)
    case Take(_, handle, _, _) => Some(handle)
    case Use(_, handle, _, _) => Some(handle)
    case Restore(_, handle, _, _) => Some(handle)
    case PutBack(_, handle) => Some(handle)
    case Free(done) => Some(done.handle)
    case LeaveReady(done) => Some(done.handle)
    case Push(done) => Some(done.handle)
    case Panicked(lost) => lost
    case _ => None
  }

  function HeldOp(pc: Pc): Option<nat> {
    match pc
    case Load(op, _) => Some(op)
    case Take(op, _, _, _) => Some(op)
    case Use(op, _, _, _) => Some(op)
    case Restore(op, _, _, _) => Some(op)
    case PutBack(op, _) => Some(op)
    case _ => None
  }

  ghost predicate Held(s: State, h: nat) {
    exists c :: HeldHandle(s.Pc(c)) == Some(h)
  }

  predicate OpOk(sh: Shared, op: Option<nat>) {
    op.Some? ==> op.value !in sh.ops && op.value < sh.nextOp
  }

  ghost predicate HandlesDistinct(s: State) {
    forall c, d | HeldHandle(s.Pc(c)).Some? && HeldHandle(s.Pc(c)) == HeldHandle(s.Pc(d)) :: c == d
  }

  ghost predicate Injective(ops: map<nat, nat>) {
    forall a, b | a in ops && b in ops && ops[a] == ops[b] :: a == b
  }

  /** Each socket has one operation: with the batcher, or with one call. */
  ghost predicate OpInv(s: State, sockets: set<nat>) {
    && (forall op <- s.sh.ops :: op < s.sh.nextOp)
    && Injective(s.sh.ops) && HandlesDistinct(s)
    && (forall c :: OpOk(s.sh, HeldOp(s.Pc(c))))
    && (forall h: nat :: h in sockets <==> h in s.sh.ops.Values || Held(s, h))
    && (forall h: nat :: !(h in s.sh.ops.Values && Held(s, h)))
  }

  /** A step leaves the operations alone, takes one from the batcher, or gives one back. */
  predicate Keeps(sh: Shared, sh': Shared, h: Option<nat>, h': Option<nat>) {
    sh'.ops == sh.ops && sh'.nextOp == sh.nextOp && h' == h
  }

  predicate Takes(sh: Shared, sh': Shared, h: Option<nat>, h': Option<nat>, op: nat) {
    op in sh.ops && sh'.ops == sh.ops - {op} && sh'.nextOp == sh.nextOp && h == None && h' == Some(sh.ops[op])
  }

  predicate Gives(sh: Shared, sh': Shared, h: Option<nat>, h': Option<nat>, op: nat) {
    op !in sh.ops && sh.nextOp <= sh'.nextOp && op < sh'.nextOp && h' == None && h.Some? &&
    sh'.ops == sh.ops[op := h.value]
  }

  /** The operation the step is about. */
  function Subject(sh: Shared, pc: Pc): nat {
    match pc
    case Fetch(op) => op
    case PutBack(op, _) => op
    case _ => sh.nextOp
  }

  lemma OpMove(sh: Shared, pc: Pc, a: Action)
    requires Can(sh, pc, a) && OpOk(sh, HeldOp(pc)) && forall op <- sh.ops :: op < sh.nextOp
    ensures
      var (sh', pc') := Move(sh, pc, a);
      var h, h', op := HeldHandle(pc), HeldHandle(pc'), Subject(sh, pc);
      && (Keeps(sh, sh', h, h') || Takes(sh, sh', h, h', op) || Gives(sh, sh', h, h', op))
      && OpOk(sh', HeldOp(pc'))
      && (HeldOp(pc).Some? || HeldOp(pc').Some? ==> Inside(pc))
      && (Gives(sh, sh', h, h', op) ==> Inside(pc) || op == sh.nextOp)
  {
  }

  lemma HeldOpInside(pc: Pc)
    ensures HeldOp(pc).Some? ==> Inside(pc)
  {
  }

  lemma TakeValues(ops: map<nat, nat>, op: nat, h: nat)
    requires op in ops && Injective(ops)
    ensures h in (ops - {op}).Values <==> h in ops.Values && h != ops[op]
  {
    if h in ops.Values && h != ops[op] {
      var a :| a in ops && ops[a] == h;
      assert (ops - {op})[a] == h;
    }
  }

  lemma AddValues(ops: map<nat, nat>, op: nat, handle: nat, h: nat)
    requires op !in ops
    ensures h in ops[op := handle].Values <==> h in ops.Values || h == handle
  {
    var ops' := ops[op := handle];
    assert ops'[op] == handle;
    if h in ops.Values {
      var a :| a in ops && ops[a] == h;
      assert ops'[a] == h;
    }
  }

  lemma AddInjective(ops: map<nat, nat>, op: nat, handle: nat)
    requires op !in ops && handle !in ops.Values && Injective(ops)
    ensures Injective(ops[op := handle])
  {
    forall a | a in ops ensures ops[a] != handle {
      assert ops[a] in ops.Values;
    }
  }

  /** Who holds what after a step of `c`. */
  lemma HeldAfter(s: State, s': State, c: nat, h: nat)
    requires HandlesDistinct(s) && forall d | d != c :: s'.Pc(d) == s.Pc(d)
    ensures Held(s', h) <==> HeldHandle(s'.Pc(c)) == Some(h) || (Held(s, h) && HeldHandle(s.Pc(c)) != Some(h))
  {
    hide HeldHandle;
    if Held(s, h) && HeldHandle(s.Pc(c)) != Some(h) {
      var d :| HeldHandle(s.Pc(d)) == Some(h);
      assert HeldHandle(s'.Pc(d)) == Some(h);
    }
    if Held(s', h) && HeldHandle(s'.Pc(c)) != Some(h) {
      var d :| HeldHandle(s'.Pc(d)) == Some(h);
      assert HeldHandle(s.Pc(d)) == Some(h);
    }
  }

  lemma StayDistinct(s: State, s': State, c: nat)
    requires HandlesDistinct(s) && forall d | d != c :: s'.Pc(d) == s.Pc(d)
    requires
      var h, h' := HeldHandle(s.Pc(c)), HeldHandle(s'.Pc(c));
      h' == h || h' == None || !Held(s, h'.value)
    ensures HandlesDistinct(s')
  {
    hide HeldHandle;
    forall x, y | HeldHandle(s'.Pc(x)).Some? && HeldHandle(s'.Pc(x)) == HeldHandle(s'.Pc(y)) ensures x == y {
      assert HeldHandle(s.Pc(x)).Some? ==> Held(s, HeldHandle(s.Pc(x)).value);
      assert HeldHandle(s.Pc(y)).Some? ==> Held(s, HeldHandle(s.Pc(y)).value);
    }
  }

  /** The sockets, counted after the step. */
  lemma SocketsAfter(s: State, s': State, c: nat, op: nat, sockets: set<nat>, x: nat)
    requires OpInv(s, sockets) && forall d | d != c :: s'.Pc(d) == s.Pc(d)
    requires
      var h, h' := HeldHandle(s.Pc(c)), HeldHandle(s'.Pc(c));
      Keeps(s.sh, s'.sh, h, h') || Takes(s.sh, s'.sh, h, h', op) || Gives(s.sh, s'.sh, h, h', op)
    ensures x in sockets <==> x in s'.sh.ops.Values || Held(s', x)
    ensures !(x in s'.sh.ops.Values && Held(s', x))
  {
    HeldAfter(s, s', c, x);
    hide HeldHandle, OpOk, HandlesDistinct;
    var h, h' := HeldHandle(s.Pc(c)), HeldHandle(s'.Pc(c));
    assert h.Some? ==> Held(s, h.value);
    if Takes(s.sh, s'.sh, h, h', op) {
      TakeValues(s.sh.ops, op, x);
      assert h'.value in s.sh.ops.Values;
    } else if Gives(s.sh, s'.sh, h, h', op) {
      AddValues(s.sh.ops, op, h.value, x);
    }
  }

  lemma OpStep(s: State, e: Event, sockets: set<nat>)
    requires PollInv(s) && OpInv(s, sockets) && Enabled(s, e)
    ensures OpInv(Apply(s, e), sockets)
  {
    var s', pc := Apply(s, e), s.Pc(e.call);
    Locally(s, e);
    hide Apply, Move, Can, HeldHandle, HeldOp, Inside, Subject;
    assert OpOk(s.sh, HeldOp(pc));
    OpMove(s.sh, pc, e.action);
    var h, h', op := HeldHandle(pc), HeldHandle(s'.Pc(e.call)), Subject(s.sh, pc);
    assert h.Some? ==> Held(s, h.value);
    assert Takes(s.sh, s'.sh, h, h', op) ==> h'.value in s.sh.ops.Values;
    forall d ensures OpOk(s'.sh, HeldOp(s'.Pc(d))) {
      assert OpOk(s.sh, HeldOp(s.Pc(d)));
      HeldOpInside(s.Pc(d));
    }
    StayDistinct(s, s', e.call);
    if Gives(s.sh, s'.sh, h, h', op) {
      AddInjective(s.sh.ops, op, h.value);
    }
    forall x: nat
      ensures x in sockets <==> x in s'.sh.ops.Values || Held(s', x)
      ensures !(x in s'.sh.ops.Values && Held(s', x))
    {
      SocketsAfter(s, s', e.call, op, sockets, x);
    }
  }

  // ----- What holds in every run -----

  ghost predicate Inv(s: State, sockets: set<nat>) {
    PollInv(s) && SlotInv(s) && BoxInv(s) && OpInv(s, sockets)
  }

  lemma {:induction false} RunKeepsInv(start: State, sockets: set<nat>, run: seq<Event>)
    requires Ready(start, sockets) && Exec(start, run).Some?
    ensures Inv(Exec(start, run).value, sockets)
  {
    if run == [] {
      assert forall c :: start.Pc(c) == NotBegun;
    } else {
      var s, e := Exec(start, run[..|run| - 1]).value, run[|run| - 1];
      RunKeepsInv(start, sockets, run[..|run| - 1]);
      hide Apply, Enabled, PollInv, SlotInv, BoxInv, OpInv;
      PollStep(s, e);
      SlotStep(s, e);
      BoxStep(s, e);
      OpStep(s, e, sockets);
    }
  }

  /** In every run, however calls overlap, are given up or panic: no dead box is freed, so each box is freed at most
      once, and a live box is in the slot, with exactly one call, or lost. */
  lemma BoxesConserved(start: State, sockets: set<nat>, run: seq<Event>)
    requires Ready(start, sockets) && Exec(start, run).Some?
    ensures
      var s := Exec(start, run).value;
      && !s.sh.freedTwice
      && (forall b :: b in s.sh.heap <==> Found(s, b))
      && (forall c, d | HeldBox(s.Pc(c)).Some? && HeldBox(s.Pc(c)) == HeldBox(s.Pc(d)) :: c == d)
      && (forall c :: BoxOk(s.sh, HeldBox(s.Pc(c))))
  {
    RunKeepsInv(start, sockets, run);
    var s := Exec(start, run).value;
    hide HeldBox, PollInv, SlotInv, OpInv;
    assert BoxOk(s.sh, HeldBox(s.Pc(0)));
    forall b | Found(s, b) ensures b in s.sh.heap {
      if c :| HeldBox(s.Pc(c)) == Some(b) { assert BoxOk(s.sh, HeldBox(s.Pc(c))); }
    }
  }

  /** In every run each socket has exactly one operation: with the batcher, with one call, or lost with one that
      panicked.  So when no call holds one, the batcher has one per socket. */
  lemma OpsConserved(start: State, sockets: set<nat>, run: seq<Event>)
    requires Ready(start, sockets) && Exec(start, run).Some?
    ensures
      var s := Exec(start, run).value;
      && (forall h: nat :: h in sockets <==> h in s.sh.ops.Values || Held(s, h))
      && (forall h: nat :: !(h in s.sh.ops.Values && Held(s, h)))
      && Injective(s.sh.ops) && HandlesDistinct(s)
      && ((forall c :: HeldHandle(s.Pc(c)) == None) ==> OneOpEach(s.sh.ops, sockets))
  {
    RunKeepsInv(start, sockets, run);
    hide HeldHandle, PollInv, SlotInv, BoxInv, HandlesDistinct;
  }

  /** When a step of a call panics. */
  ghost predicate PanicsWhen(s: State, pc: Pc) {
    match pc
    case Enter => Busy(s) || s.sh.stuck > 0                             // another poll runs, or one never left
    case Load(_, _) => s.sh.swaps == s.sh.usedAt                        // no call began since a box was used up
    case Take(_, _, box, seen) => s.sh.swaps > seen && s.sh.last != box // another box was swapped in since the load
    case Restore(_, _, _, seen) => s.sh.swaps > seen                    // any box was swapped in since it was taken
    case LeaveReady(_) => s.sh.stuck > 0                                // another call was turned away meanwhile
    case LeavePending => s.sh.stuck > 0
    case _ => false
  }

  lemma PanicMove(s: State, pc: Pc)
    requires Can(s.sh, pc, Step) && SlotOk(s.sh, pc) && BoxOk(s.sh, HeldBox(pc))
    requires s.sh.counter == s.sh.stuck + (if Busy(s) then 1 else 0)
    requires Inside(pc) ==> Busy(s) && (Window(pc) || Settled(s.sh))
    ensures
      var (sh', pc') := Move(s.sh, pc, Step);
      && (pc'.Panicked? <==> PanicsWhen(s, pc))
      && (sh'.leaked != s.sh.leaked <==> pc.Restore? && PanicsWhen(s, pc))
  {
    hide Busy;
  }

  /** Every panic of every run: a step fails an assertion exactly in the cases above, and it loses a box exactly when
      the slot was refilled between the two exchanges. */
  lemma PanicsExactly(start: State, sockets: set<nat>, run: seq<Event>, c: nat)
    requires Ready(start, sockets) && Exec(start, run).Some? && Enabled(Exec(start, run).value, Event(c, Step))
    ensures
      var s := Exec(start, run).value;
      var s' := Apply(s, Event(c, Step));
      && (s'.Pc(c).Panicked? <==> PanicsWhen(s, s.Pc(c)))
      && (s'.sh.leaked != s.sh.leaked <==> s.Pc(c).Restore? && PanicsWhen(s, s.Pc(c)))
  {
    RunKeepsInv(start, sockets, run);
    var s := Exec(start, run).value;
    Locally(s, Event(c, Step));
    assert forall d | Window(s.Pc(d)) :: Inside(s.Pc(d));
    hide Exec, Apply, Move, Can, Inside, SlotOk, BoxOk, PanicsWhen, HeldBox, Settled, Window, OpInv;
    assert SlotOk(s.sh, s.Pc(c)) && BoxOk(s.sh, HeldBox(s.Pc(c)));
    if Inside(s.Pc(c)) {
      assert Busy(s);
      assert Window(s.Pc(c)) || forall d :: !Window(s.Pc(d));
    }
    PanicMove(s, s.Pc(c));
  }

  // ----- Whose buffer is used -----

  /** The box of the call that made the swap before which there were `n - 1` others. */
  ghost predicate BoxOf(s: State, n: nat, box: nat) {
    0 < n <= |s.swappers| && s.swappers[n - 1] in s.mine && s.mine[s.swappers[n - 1]] == box
  }

  /** A call that looked at the slot saw the box of the last call to swap before. */
  ghost predicate BoxSeen(s: State, c: nat) {
    match s.Pc(c)
    case Swap(box) => c in s.mine && s.mine[c] == box
    case Take(_, _, box, seen) => BoxOf(s, seen, box)
    case Use(_, _, box, seen) => BoxOf(s, seen, box)
    case Restore(_, _, box, seen) => BoxOf(s, seen, box)
    case _ => true
  }

  ghost predicate OwnerInv(s: State) {
    && |s.swappers| == s.sh.swaps
    && (s.sh.slot.Some? ==> BoxOf(s, s.sh.swaps, s.sh.slot.value))
    && (forall c <- s.mine :: !s.Pc(c).NotBegun?)
    && (forall c :: BoxSeen(s, c))
  }

  /** Earlier swaps and boxes stay on record. */
  lemma BoxOfStays(s: State, e: Event, n: nat, box: nat)
    requires Enabled(s, e) && BoxOf(s, n, box) && forall c <- s.mine :: !s.Pc(c).NotBegun?
    ensures BoxOf(Apply(s, e), n, box)
  {
    hide Move;
    var s' := Apply(s, e);
    assert s'.swappers[n - 1] == s.swappers[n - 1];
  }

  lemma BoxSeenOther(s: State, e: Event, d: nat)
    requires Enabled(s, e) && OwnerInv(s) && d != e.call
    ensures BoxSeen(Apply(s, e), d)
  {
    assert BoxSeen(s, d);
    Locally(s, e);
    var pc := s.Pc(d);
    if pc.Take? || Window(pc) {
      BoxOfStays(s, e, pc.seen, pc.box);
    }
    hide Move, BoxOf;
    assert d in s.mine ==> d in Apply(s, e).mine && Apply(s, e).mine[d] == s.mine[d];
  }

  /** What the step does to the slot and to what its call has seen. */
  lemma SeenMove(sh: Shared, pc: Pc, a: Action)
    requires Can(sh, pc, a) && SlotOk(sh, pc)
    ensures
      var (sh', pc') := Move(sh, pc, a);
      && sh'.swaps == sh.swaps + (if pc.Swap? then 1 else 0)
      && (pc.Swap? ==> sh'.slot == Some(pc.box))
      && (!pc.Swap? && sh'.slot.Some? ==>
            sh'.slot == sh.slot || (pc.Restore? && sh'.slot == Some(pc.box) && pc.seen == sh.swaps))
      && (pc'.Swap? ==> a.Begin? && pc'.box == a.box)
      && (pc'.Take? ==> sh.slot == Some(pc'.box) && pc'.seen == sh.swaps)
      && (pc'.Use? ==> sh.slot == Some(pc'.box) && pc'.seen == sh.swaps)
      && (pc'.Restore? ==> pc.Use? && pc'.box == pc.box && pc'.seen == pc.seen)
      && !pc'.NotBegun?
  {
  }

  lemma OwnerStep(s: State, e: Event)
    requires SlotInv(s) && OwnerInv(s) && Enabled(s, e)
    ensures OwnerInv(Apply(s, e))
  {
    var s', pc := Apply(s, e), s.Pc(e.call);
    Locally(s, e);
    assert SlotOk(s.sh, pc) && BoxSeen(s, e.call);
    SeenMove(s.sh, pc, e.action);
    SwapRecorded(s, e);
    if s.sh.slot.Some? {
      BoxOfStays(s, e, s.sh.swaps, s.sh.slot.value);
    }
    if Window(pc) {
      BoxOfStays(s, e, pc.seen, pc.box);
    }
    assert s'.Pc(e.call).Swap? ==> e.call in s'.mine && s'.mine[e.call] == s'.Pc(e.call).box;
    assert forall c <- s'.mine :: c in s.mine || c == e.call;
    hide Apply, Move, Can, BoxOf, SlotOk;
    forall d ensures BoxSeen(s', d) {
      if d != e.call { BoxSeenOther(s, e, d); }
    }
  }

  lemma SwapRecorded(s: State, e: Event)
    requires Enabled(s, e) && OwnerInv(s) && BoxSeen(s, e.call)
    ensures |Apply(s, e).swappers| == s.sh.swaps + (if s.Pc(e.call).Swap? then 1 else 0)
    ensures s.Pc(e.call).Swap? ==> BoxOf(Apply(s, e), s.sh.swaps + 1, s.Pc(e.call).box)
  {
    hide Move;
  }

  lemma {:induction false} RunKeepsOwners(start: State, sockets: set<nat>, run: seq<Event>)
    requires Ready(start, sockets) && Exec(start, run).Some?
    ensures OwnerInv(Exec(start, run).value)
  {
    if run == [] {
      assert forall c :: start.Pc(c) == NotBegun;
    } else {
      var front, e := run[..|run| - 1], run[|run| - 1];
      RunKeepsOwners(start, sockets, front);
      RunKeepsInv(start, sockets, front);
      hide Apply, Enabled, PollInv, SlotInv, BoxInv, OpInv, OwnerInv;
      OwnerStep(Exec(start, front).value, e);
    }
  }

  /** In every run the box that an operation uses is that of the call that made the last swap before it was taken,
      whether or not that call is still there. */
  lemma UsesLastSwapped(start: State, sockets: set<nat>, run: seq<Event>, c: nat)
    requires Ready(start, sockets) && Exec(start, run).Some? && Exec(start, run).value.Pc(c).Use?
    ensures
      var s := Exec(start, run).value;
      BoxOf(s, s.Pc(c).seen, s.Pc(c).box)
  {
    RunKeepsOwners(start, sockets, run);
    assert BoxSeen(Exec(start, run).value, c);
  }

  // ----- Calls that do not overlap -----

  predicate Live(pc: Pc) {
    !pc.NotBegun? && !pc.Returned? && !pc.GivenUp? && !pc.Panicked?
  }

  /** A call begins only when no other one is under way. */
  ghost predicate OneAtATime(start: State, run: seq<Event>) {
    run != [] ==>
      var front, e := run[..|run| - 1], run[|run| - 1];
      && OneAtATime(start, front)
      && (e.action.Begin? && Exec(start, front).Some? ==> forall c :: !Live(Exec(start, front).value.Pc(c)))
  }

  /** The only call works with its own box, and nothing was swapped behind its back. */
  predicate Solo(sh: Shared, pc: Pc, mine: nat) {
    && sh.stuck == 0 && sh.leaked == {} && !pc.Panicked?
    && match pc
       case Swap(box) => box == mine
       case FreeOld(_) => sh.slot == Some(mine)
       case Waiting => sh.slot == Some(mine)
       case Enter => sh.slot == Some(mine)
       case Pop => sh.slot == Some(mine)
       case Fetch(_) => sh.slot == Some(mine)
       case Load(_, _) => sh.slot == Some(mine)
       case Take(_, _, box, seen) => sh.slot == Some(mine) && box == mine && seen == sh.swaps
       case Use(_, _, box, seen) => sh.slot == None && box == mine && seen == sh.swaps
       case Restore(_, _, box, seen) => sh.slot == None && box == mine && seen == sh.swaps
       case PutBack(_, _) => sh.slot == Some(mine)
       case LeavePending => sh.slot == Some(mine)
       case Free(done) => done.box == mine
       case LeaveReady(done) => done.box == mine
       case Push(done) => done.box == mine
       case Returned(done) => done.box == mine
       case _ => true
  }

  ghost predicate SoloCall(s: State, c: nat) {
    s.Pc(c).NotBegun? || (c in s.mine && Solo(s.sh, s.Pc(c), s.mine[c]))
  }

  ghost predicate SoloInv(s: State) {
    && s.sh.stuck == 0 && s.sh.leaked == {}
    && (forall c :: SoloCall(s, c))
    && (forall c, d | Live(s.Pc(c)) && Live(s.Pc(d)) :: c == d)
  }

  lemma SoloMove(sh: Shared, pc: Pc, a: Action, mine: nat)
    requires Can(sh, pc, a) && if a.Begin? then a.box == mine && sh.stuck == 0 && sh.leaked == {}
               else Solo(sh, pc, mine)
    requires sh.counter == if Inside(pc) then 1 else 0
    ensures var (sh', pc') := Move(sh, pc, a); Solo(sh', pc', mine)
  {
  }

  /** A call that is over does not care what the next one does. */
  lemma SoloOver(sh: Shared, sh': Shared, pc: Pc, mine: nat)
    requires Solo(sh, pc, mine) && !Live(pc) && sh'.stuck == 0 && sh'.leaked == {}
    ensures Solo(sh', pc, mine)
  {
  }

  lemma LiveMove(sh: Shared, pc: Pc, a: Action)
    requires Can(sh, pc, a)
    ensures Live(pc) || a.Begin?
    ensures a.Begin? ==> !Inside(pc)
  {
  }

  lemma SoloStep(s: State, e: Event)
    requires PollInv(s) && SoloInv(s) && Enabled(s, e)
    requires e.action.Begin? ==> forall c :: !Live(s.Pc(c))
    ensures SoloInv(Apply(s, e))
  {
    var s', pc := Apply(s, e), s.Pc(e.call);
    Locally(s, e);
    LiveMove(s.sh, pc, e.action);
    assert forall d | Inside(s.Pc(d)) :: Live(s.Pc(d));
    assert forall d | d != e.call && d in s.mine :: d in s'.mine && s'.mine[d] == s.mine[d];
    assert e.action.Begin? || pc.NotBegun? ==> pc.NotBegun? && e.action.Begin?;
    assert SoloCall(s, e.call);
    var mine := if e.action.Begin? then e.action.box else s.mine[e.call];
    assert e.call in s'.mine && s'.mine[e.call] == mine;
    hide Apply, Move, Can, Inside, Live, Solo;
    assert Busy(s) <==> Inside(pc);
    SoloMove(s.sh, pc, e.action, mine);
    assert s'.sh.stuck == 0 && s'.sh.leaked == {} by { SoloMeans(s'.sh, s'.Pc(e.call), mine); }
    forall d ensures SoloCall(s', d) {
      assert SoloCall(s, d);
      if d != e.call && !s.Pc(d).NotBegun? {
        SoloOver(s.sh, s'.sh, s.Pc(d), s.mine[d]);
      }
    }
  }

  lemma SoloMeans(sh: Shared, pc: Pc, mine: nat)
    requires Solo(sh, pc, mine)
    ensures sh.stuck == 0 && sh.leaked == {} && !pc.Panicked? && (pc.Returned? ==> pc.done.box == mine)
  {
  }

  lemma {:induction false} RunStaysSolo(start: State, sockets: set<nat>, run: seq<Event>)
    requires Ready(start, sockets) && Exec(start, run).Some? && OneAtATime(start, run)
    ensures SoloInv(Exec(start, run).value)
  {
    if run == [] {
      assert forall c :: start.Pc(c) == NotBegun;
    } else {
      var front, e := run[..|run| - 1], run[|run| - 1];
      RunStaysSolo(start, sockets, front);
      RunKeepsInv(start, sockets, front);
      hide Apply, Enabled, PollInv, SlotInv, BoxInv, OpInv, SoloInv;
      SoloStep(Exec(start, front).value, e);
    }
  }

  /** With calls that do not overlap, abandoned ones included, no assertion ever fails, no box is lost, and a call
      uses, and returns through, its own buffer only. */
  lemma NeverPanics(start: State, sockets: set<nat>, run: seq<Event>)
    requires Ready(start, sockets) && Exec(start, run).Some? && OneAtATime(start, run)
    ensures
      var s := Exec(start, run).value;
      && (forall c :: !s.Pc(c).Panicked?) && s.sh.leaked == {}
      && (forall c | s.Pc(c).Use? :: c in s.mine && s.Pc(c).box == s.mine[c])
      && (forall c | s.Pc(c).Returned? :: c in s.mine && s.Pc(c).done.box == s.mine[c])
  {
    RunStaysSolo(start, sockets, run);
    var s := Exec(start, run).value;
    forall c
      ensures !s.Pc(c).Panicked? && (s.Pc(c).Use? ==> c in s.mine && s.Pc(c).box == s.mine[c])
      ensures s.Pc(c).Returned? ==> c in s.mine && s.Pc(c).done.box == s.mine[c]
    {
      assert SoloCall(s, c);
    }
  }

  // ----- Several steps of one call -----

  function MoveAll(sh: Shared, pc: Pc, actions: seq<Action>): Option<(Shared, Pc)>
    decreases |actions|
  {
    if actions == [] then Some((sh, pc))
    else if Can(sh, pc, actions[0]) then
      var (sh', pc') := Move(sh, pc, actions[0]);
      MoveAll(sh', pc', actions[1..])
    else None
  }

  lemma {:induction false} MoveOn(sh: Shared, pc: Pc, a: Action, rest: seq<Action>)
    requires Can(sh, pc, a)
    ensures MoveAll(sh, pc, [a] + rest) == MoveAll(Move(sh, pc, a).0, Move(sh, pc, a).1, rest)
  {
    assert ([a] + rest)[1..] == rest;
  }

  lemma OneMove(sh: Shared, pc: Pc)
    requires Can(sh, pc, Step)
    ensures MoveAll(sh, pc, [Step]) == Some(Move(sh, pc, Step))
  {
    MoveOn(sh, pc, Step, []);
    assert [Step] + [] == [Step];
  }

  /** The steps of one call, run while the others stand still. */
  lemma {:induction false} RunAll(start: State, run0: seq<Event>, s0: State, c: nat, actions: seq<Action>)
    returns (run: seq<Event>, s: State)
    requires Exec(start, run0) == Some(s0) && MoveAll(s0.sh, s0.Pc(c), actions).Some?
    requires forall a <- actions :: !a.Begin?
    ensures Exec(start, run) == Some(s) && s.mine == s0.mine
    ensures MoveAll(s0.sh, s0.Pc(c), actions) == Some((s.sh, s.Pc(c)))
    ensures forall d | d != c :: s.Pc(d) == s0.Pc(d)
    decreases |actions|
  {
    hide Move, Can;
    if actions == [] {
      run, s := run0, s0;
    } else {
      var e := Event(c, actions[0]);
      run, s := Extend(start, run0, s0, e);
      Locally(s0, e);
      hide Exec;
      run, s := RunAll(start, run, s, c, actions[1..]);
    }
  }

  lemma Extend(start: State, run: seq<Event>, s: State, e: Event) returns (run': seq<Event>, s': State)
    requires Exec(start, run) == Some(s) && Enabled(s, e)
    ensures run' == run + [e] && s' == Apply(s, e) && Exec(start, run') == Some(s')
  {
    run', s' := run + [e], Apply(s, e);
    assert run'[..|run'| - 1] == run;
  }

  /** A call begins: its box is in the slot. */
  lemma BeginCall(start: State, run0: seq<Event>, s0: State, c: nat, box: nat) returns (run: seq<Event>, s: State)
    requires Exec(start, run0) == Some(s0) && s0.Pc(c) == NotBegun && box !in s0.sh.heap
    ensures Exec(start, run) == Some(s) && s.Pc(c) == Waiting
    ensures s.sh.slot == Some(box) && s.sh.swaps == s0.sh.swaps + 1 && s.sh.last == box
    ensures s.sh.heap == s0.sh.heap + {box} - (if s0.sh.slot.Some? then {s0.sh.slot.value} else {})
    ensures s.sh.counter == s0.sh.counter && s.sh.ops == s0.sh.ops && s.sh.nextOp == s0.sh.nextOp
    ensures s.sh.leaked == s0.sh.leaked && s.mine == s0.mine[c := box]
    ensures forall d | d != c :: s.Pc(d) == s0.Pc(d)
  {
    run, s := Extend(start, run0, s0, Event(c, Begin(box)));
    hide Exec;
    Locally(s0, Event(c, Begin(box)));
    var sh := s.sh;
    assert StepOf(sh, Swap(box)).0.slot == Some(box);
    if s0.sh.slot == None {
      MoveOn(sh, Swap(box), Step, []);
      assert [Step] + [] == [Step];
      run, s := RunAll(start, run, s, c, [Step]);
    } else {
      var last := s0.sh.slot.value;
      var sh1 := StepOf(sh, Swap(box)).0;
      MoveOn(sh, Swap(box), Step, [Step]);
      MoveOn(sh1, FreeOld(last), Step, []);
      assert [Step] + [] == [Step] && [Step] + [Step] == [Step, Step];
      run, s := RunAll(start, run, s, c, [Step, Step]);
    }
  }

  const TO_USE := [Step, Step, Step]

  /** From the top of the loop of `Wait::poll` to the socket. */
  lemma ToUse(sh: Shared, op: nat)
    requires sh.slot.Some? && op in sh.ops
    ensures MoveAll(sh, Pop, [Popped(Some(op))] + TO_USE)
         == Some((sh.(slot := None, ops := sh.ops - {op}), Use(op, sh.ops[op], sh.slot.value, sh.swaps)))
  {
    var h, box := sh.ops[op], sh.slot.value;
    var sh1 := sh.(ops := sh.ops - {op});
    MoveOn(sh, Pop, Popped(Some(op)), TO_USE);
    MoveOn(sh, Fetch(op), Step, [Step, Step]);
    assert [Step] + [Step, Step] == TO_USE;
    MoveOn(sh1, Load(op, h), Step, [Step]);
    assert [Step] + [Step] == [Step, Step];
    MoveOn(sh1, Take(op, h, box, sh.swaps), Step, []);
    assert [Step] + [] == [Step];
  }

  lemma AfterBlocked(sh: Shared, op: nat, h: nat, box: nat, seen: nat)
    requires sh.slot == None
    ensures MoveAll(sh, Use(op, h, box, seen), [Answer(Blocked), Step, Step])
         == Some((sh.(slot := Some(box), ops := sh.ops[op := h]), Pop))
  {
    MoveOn(sh, Use(op, h, box, seen), Answer(Blocked), [Step, Step]);
    assert [Answer(Blocked)] + [Step, Step] == [Answer(Blocked), Step, Step];
    MoveOn(sh, Restore(op, h, box, seen), Step, [Step]);
    assert [Step] + [Step] == [Step, Step];
    MoveOn(sh.(slot := Some(box)), PutBack(op, h), Step, []);
    assert [Step] + [] == [Step];
  }

  lemma AfterReady(sh: Shared, op: nat, h: nat, box: nat, seen: nat, reply: Reply)
    requires reply != Blocked && sh.counter == 1
    ensures
      var r := MoveAll(sh, Use(op, h, box, seen), [Answer(reply), Step, Step, Step]);
      && r.Some? && r.value.1 == Returned(Completion(box, h, reply))
      && r.value.0 == Leave(sh.(usedAt := seen).Dispose(box)).(ops := sh.ops[sh.nextOp := h], nextOp := sh.nextOp + 1)
  {
    var done := Completion(box, h, reply);
    var sh1 := sh.(usedAt := seen);
    MoveOn(sh, Use(op, h, box, seen), Answer(reply), [Step, Step, Step]);
    assert [Answer(reply)] + [Step, Step, Step] == [Answer(reply), Step, Step, Step];
    MoveOn(sh1, Free(done), Step, [Step, Step]);
    assert [Step] + [Step, Step] == [Step, Step, Step];
    MoveOn(sh1.Dispose(box), LeaveReady(done), Step, [Step]);
    assert [Step] + [Step] == [Step, Step];
    MoveOn(Leave(sh1.Dispose(box)), Push(done), Step, []);
    assert [Step] + [] == [Step];
  }

  // ----- A call of the object is a run -----

  /** The object and the state of a run: same slot, operations and live boxes. */
  ghost predicate Agrees(sh: Shared, side: Side) {
    && sh.slot == side.slot && sh.ops == side.ops && sh.nextOp == side.nextOp
    && (forall b: nat :: b in sh.heap <==> b < side.boxes && b !in side.freed)
    && (forall b <- side.freed :: b < side.boxes)
    && (sh.slot.Some? ==> sh.slot.value in sh.heap)
  }

  lemma BlockedOp(start: State, run0: seq<Event>, s0: State, c: nat, op: nat) returns (run: seq<Event>, s: State)
    requires Exec(start, run0) == Some(s0) && s0.Pc(c) == Pop && s0.sh.slot.Some? && op in s0.sh.ops
    ensures Exec(start, run) == Some(s) && s.Pc(c) == Pop && s.sh == s0.sh
  {
    hide Exec, MoveAll;
    ToUse(s0.sh, op);
    run, s := RunAll(start, run0, s0, c, [Popped(Some(op))] + TO_USE);
    AfterBlocked(s.sh, op, s0.sh.ops[op], s0.sh.slot.value, s0.sh.swaps);
    run, s := RunAll(start, run, s, c, [Answer(Blocked), Step, Step]);
    assert (s0.sh.ops - {op})[op := s0.sh.ops[op]] == s0.sh.ops;
  }

  lemma ReadyOp(start: State, run0: seq<Event>, s0: State, c: nat, op: nat, reply: Reply)
    returns (run: seq<Event>, s: State)
    requires Exec(start, run0) == Some(s0) && s0.Pc(c) == Pop && s0.sh.slot.Some? && op in s0.sh.ops && reply != Blocked
    requires s0.sh.counter == 1
    ensures Exec(start, run) == Some(s) && s.Pc(c) == Returned(Completion(s0.sh.slot.value, s0.sh.ops[op], reply))
    ensures s.sh.slot == None && s.sh.heap == s0.sh.heap - {s0.sh.slot.value} && s.sh.counter == 0
    ensures s.sh.ops == (s0.sh.ops - {op})[s0.sh.nextOp := s0.sh.ops[op]] && s.sh.nextOp == s0.sh.nextOp + 1
    ensures forall d | d != c :: s.Pc(d) == s0.Pc(d)
  {
    hide Exec, MoveAll;
    ToUse(s0.sh, op);
    run, s := RunAll(start, run0, s0, c, [Popped(Some(op))] + TO_USE);
    AfterReady(s.sh, op, s0.sh.ops[op], s0.sh.slot.value, s0.sh.swaps, reply);
    run, s := RunAll(start, run, s, c, [Answer(reply), Step, Step, Step]);
  }

  lemma StaleOp(start: State, run0: seq<Event>, s0: State, c: nat, op: nat) returns (run: seq<Event>, s: State)
    requires Exec(start, run0) == Some(s0) && s0.Pc(c) == Pop && op !in s0.sh.ops
    ensures Exec(start, run) == Some(s) && s.Pc(c) == Pop && s.sh == s0.sh
  {
    MoveOn(s0.sh, Pop, Popped(Some(op)), [Step]);
    MoveOn(s0.sh, Fetch(op), Step, []);
    assert [Step] + [] == [Step] && [Popped(Some(op))] + [Step] == [Popped(Some(op)), Step];
    run, s := RunAll(start, run0, s0, c, [Popped(Some(op)), Step]);
  }

  lemma NoMoreOps(start: State, run0: seq<Event>, s0: State, c: nat) returns (run: seq<Event>, s: State)
    requires Exec(start, run0) == Some(s0) && s0.Pc(c) == Pop && s0.sh.counter == 1
    ensures Exec(start, run) == Some(s) && s.Pc(c) == Waiting && s.sh == s0.sh.(counter := 0)
  {
    MoveOn(s0.sh, Pop, Popped(None), [Step]);
    MoveOn(s0.sh, LeavePending, Step, []);
    assert [Step] + [] == [Step] && [Popped(None)] + [Step] == [Popped(None), Step];
    run, s := RunAll(start, run0, s0, c, [Popped(None), Step]);
  }

  lemma {:induction false} PollIsRun(start: State, run0: seq<Event>, s0: State, c: nat, side: Side, woken: seq<Woken>)
    returns (run: seq<Event>, s: State)
    requires Exec(start, run0) == Some(s0) && s0.Pc(c) == Pop && s0.sh.slot.Some?
    requires s0.sh.counter == 1 && Agrees(s0.sh, side)
    ensures Exec(start, run) == Some(s) && s.sh.counter == 0
    ensures var r := PollOps(side, woken);
            if r.Pending? then s.Pc(c) == Waiting && Agrees(s.sh, side)
            else r.Ready? && s.Pc(c) == Returned(r.completion) &&
                 Agrees(s.sh, UdpGroup.Push(r.side, r.completion.handle))
    decreases |woken|
  {
    hide Exec;
    if woken == [] {
      run, s := NoMoreOps(start, run0, s0, c);
    } else if woken[0].op !in side.ops {
      run, s := StaleOp(start, run0, s0, c, woken[0].op);
      run, s := PollIsRun(start, run, s, c, side, woken[1..]);
    } else if woken[0].reply == Blocked {
      run, s := BlockedOp(start, run0, s0, c, woken[0].op);
      run, s := PollIsRun(start, run, s, c, side, woken[1..]);
    } else {
      run, s := ReadyOp(start, run0, s0, c, woken[0].op, woken[0].reply);
    }
  }

  lemma EnterPoll(start: State, run0: seq<Event>, s0: State, c: nat) returns (run: seq<Event>, s: State)
    requires Exec(start, run0) == Some(s0) && s0.Pc(c) == Waiting && s0.sh.counter == 0
    ensures Exec(start, run) == Some(s) && s.Pc(c) == Pop && s.sh == s0.sh.(counter := 1) && s.mine == s0.mine
    ensures forall d | d != c :: s.Pc(d) == s0.Pc(d)
  {
    MoveOn(s0.sh, Waiting, Poll, [Step]);
    MoveOn(s0.sh, Enter, Step, []);
    assert [Step] + [] == [Step] && [Poll] + [Step] == [Poll, Step];
    run, s := RunAll(start, run0, s0, c, [Poll, Step]);
  }

  lemma {:induction false} RestIsRun(start: State, run0: seq<Event>, s0: State, c: nat,
    side: Side, polls: seq<seq<Woken>>)
    returns (run: seq<Event>, s: State)
    requires Exec(start, run0) == Some(s0) && s0.Pc(c) == Waiting && s0.sh.slot.Some?
    requires s0.sh.counter == 0 && Agrees(s0.sh, side)
    ensures Exec(start, run) == Some(s) && s.sh.counter == 0 && Agrees(s.sh, Rest(side, polls).0)
    ensures s.Pc(c) == match Rest(side, polls).1
                       case Some(done) => Returned(done)
                       case None => GivenUp
    decreases |polls|
  {
    hide Exec;
    if polls == [] {
      run, s := Extend(start, run0, s0, Event(c, GiveUp));
    } else {
      run, s := EnterPoll(start, run0, s0, c);
      run, s := PollIsRun(start, run, s, c, side, polls[0]);
      if s.Pc(c) == Waiting {
        run, s := RestIsRun(start, run, s, c, side, polls[1..]);
      }
    }
  }

  /** One call of `GroupSide.RecvFrom`, made while no other call polls, is a run of the steps above. */
  lemma CallIsRun(start: State, run0: seq<Event>, s0: State, c: nat, side: Side, polls: seq<seq<Woken>>)
    returns (run: seq<Event>, s: State)
    requires Exec(start, run0) == Some(s0) && s0.Pc(c) == NotBegun && s0.sh.counter == 0 && Agrees(s0.sh, side)
    ensures Exec(start, run) == Some(s) && s.sh.counter == 0 && Agrees(s.sh, Rest(UdpGroup.Enter(side), polls).0)
    ensures s.Pc(c) == match Rest(UdpGroup.Enter(side), polls).1
                       case Some(done) => Returned(done)
                       case None => GivenUp
  {
    hide Exec;
    run, s := BeginCall(start, run0, s0, c, side.boxes);
    var entered := UdpGroup.Enter(side);
    assert forall b :: b in entered.freed <==> b in side.freed || side.slot == Some(b);
    run, s := RestIsRun(start, run, s, c, entered, polls);
  }

  // ----- Overlapping calls that fail -----

  /** Call 0 has taken its box from the slot and waits for the socket; call 1 swaps in another box. */
  lemma SwapInWindow(start: State) returns (run: seq<Event>, s: State)
    requires Ready(start, {7}) && start.sh.ops == map[0 := 7]
    ensures Exec(start, run) == Some(s) && s.Pc(0) == Use(0, 7, 100, 1)
    ensures s.sh.slot == Some(101) && s.sh.heap == {100, 101} && s.sh.leaked == {}
  {
    run, s := BeginCall(start, [], start, 0, 100);
    hide Exec, MoveAll;
    run, s := EnterPoll(start, run, s, 0);
    ToUse(s.sh, 0);
    run, s := RunAll(start, run, s, 0, [Popped(Some(0))] + TO_USE);
    run, s := BeginCall(start, run, s, 1, 101);
  }

  /** A second call whose swap falls between the two exchanges of an operation: the operation panics and its box is
      neither freed nor in the slot. */
  lemma OverlapCanLoseBox(start: State)
    requires Ready(start, {7}) && start.sh.ops == map[0 := 7]
    ensures exists run | Exec(start, run).Some? ::
              var s := Exec(start, run).value;
              s.Pc(0).Panicked? && 100 in s.sh.heap && s.sh.slot == Some(101) && s.sh.leaked == {100}
  {
    hide Exec, MoveAll, Ready;
    var run, s := SwapInWindow(start);
    RestorePanics(s.sh, 0, 7, 100, 1);
    run, s := RunAll(start, run, s, 0, [Answer(Blocked), Step]);
  }

  /** A call that swapped in its box and was given up: an operation polled by another call uses the dead buffer. */
  lemma OverlapUsesDeadBuffer(start: State)
    requires Ready(start, {7}) && start.sh.ops == map[0 := 7]
    ensures exists run | Exec(start, run).Some? ::
              var s := Exec(start, run).value;
              && s.Pc(0).Use? && s.Pc(1) == GivenUp
              && 0 in s.mine && 1 in s.mine && s.Pc(0).box == s.mine[1] && s.mine[0] != s.mine[1]
  {
    hide MoveAll;
    var run, s := BeginCall(start, [], start, 0, 100);
    hide Exec;
    run, s := BeginCall(start, run, s, 1, 101);
    Locally(s, Event(1, GiveUp));
    run, s := Extend(start, run, s, Event(1, GiveUp));
    assert s.Pc(0) == Waiting && s.Pc(1) == GivenUp;
    hide Apply;
    run, s := EnterPoll(start, run, s, 0);
    ToUse(s.sh, 0);
    run, s := RunAll(start, run, s, 0, [Popped(Some(0))] + TO_USE);
  }

  lemma RestorePanics(sh: Shared, op: nat, h: nat, box: nat, seen: nat)
    requires sh.slot.Some?
    ensures
      var r := MoveAll(sh, Use(op, h, box, seen), [Answer(Blocked), Step]);
      r.Some? && r.value == (sh.(stuck := sh.stuck + 1, leaked := sh.leaked + {box}), Panicked(Some(h)))
  {
    hide MoveAll;
    var pc, pc1 := Use(op, h, box, seen), Restore(op, h, box, seen);
    var lost := (sh.(stuck := sh.stuck + 1, leaked := sh.leaked + {box}), Panicked(Some(h)));
    assert Can(sh, pc, Answer(Blocked)) && Can(sh, pc1, Step);
    assert Move(sh, pc, Answer(Blocked)) == (sh, pc1);
    assert Move(sh, pc1, Step) == lost;
    hide Move, Can;
    OneMove(sh, pc1);
    MoveOn(sh, pc, Answer(Blocked), [Step]);
    assert [Answer(Blocked)] + [Step] == [Answer(Blocked), Step];
  }

  /** Two calls in one task: the second returns and leaves the slot empty, so the next poll of the first panics. */
  lemma OverlapCanPanic(start: State)
    requires Ready(start, {7}) && start.sh.ops == map[0 := 7]
    ensures exists run | Exec(start, run).Some? ::
              Exec(start, run).value.Pc(0).Returned? && Exec(start, run).value.Pc(1).Panicked?
  {
    hide Exec, MoveAll;
    var run, s := SecondReturns(start);
    run, s := EnterPoll(start, run, s, 1);
    LoadPanics(s.sh, start.sh.nextOp);
    run, s := RunAll(start, run, s, 1, [Popped(Some(start.sh.nextOp)), Step, Step]);
  }

  lemma SecondReturns(start: State) returns (run: seq<Event>, s: State)
    requires Ready(start, {7}) && start.sh.ops == map[0 := 7]
    ensures Exec(start, run) == Some(s) && s.Pc(0).Returned? && s.Pc(1) == Waiting
    ensures s.sh.slot == None && s.sh.counter == 0 && start.sh.nextOp in s.sh.ops
  {
    run, s := BeginCall(start, [], start, 1, 101);
    hide Exec, MoveAll;
    run, s := BeginCall(start, run, s, 0, 100);
    run, s := EnterPoll(start, run, s, 0);
    run, s := ReadyOp(start, run, s, 0, 0, Moved(5, 9));
  }

  lemma LoadPanics(sh: Shared, op: nat)
    requires sh.slot == None && op in sh.ops
    ensures
      var r := MoveAll(sh, Pop, [Popped(Some(op)), Step, Step]);
      r.Some? && r.value.1.Panicked?
  {
    MoveOn(sh, Pop, Popped(Some(op)), [Step, Step]);
    MoveOn(sh, Fetch(op), Step, [Step]);
    MoveOn(sh.(ops := sh.ops - {op}), Load(op, sh.ops[op]), Step, []);
    assert [Step] + [] == [Step] && [Step] + [Step] == [Step, Step];
    assert [Popped(Some(op))] + [Step, Step] == [Popped(Some(op)), Step, Step];
  }
}
