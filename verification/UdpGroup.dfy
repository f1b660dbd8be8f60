/** One direction of the UDP group of crates/net/udp/src/group.rs: a buffer slot that every operation empties and
    restores, and one operation per socket in a batcher.  `recv_from` and `send_to` are the same protocol.  Here is
    the object as a single caller sees it; module UdpRaces has every interleaving of any calls.  What the sockets
    answer, and which operations the batcher finds woken, comes in as arguments. */
module UdpGroup {
  import opened Options

  /** `size` bytes moved, with the remote address; the socket would block; any other error. */
  datatype Reply = Moved(size: nat, remote: nat) | Blocked | Failed

  datatype Woken = Woken(op: nat, reply: Reply)

  datatype Completion = Completion(box: nat, handle: nat, reply: Reply)

  /** The slot, how many boxes were made, which were freed, the operations of the batcher with their sockets. */
  datatype Side = Side(slot: Option<nat>, boxes: nat, freed: seq<nat>, ops: map<nat, nat>, nextOp: nat)

  datatype Polled =
    | Pending
    | Ready(side: Side, completion: Completion)
    | NoBox

  // ----- What the calls compute -----

  /** The start of a call: a box for its buffer goes into the slot, a box left there is freed. */
  function Enter(s: Side): Side {
    s.(slot := Some(s.boxes), boxes := s.boxes + 1,
       freed := if s.slot.Some? then s.freed + [s.slot.value] else s.freed)
  }

  /** `Wait::poll` of the batcher over the closures of `push_batch_read`: an operation that blocks leaves all as it
      was, one that is ready ends the poll, one that finds no box panics. */
  function PollOps(s: Side, woken: seq<Woken>): Polled {
    if woken == [] then Pending
    else if woken[0].op !in s.ops then PollOps(s, woken[1..])
    else if s.slot == None then NoBox
    else if woken[0].reply == Blocked then PollOps(s, woken[1..])
    else
      var op, box := woken[0].op, s.slot.value;
      Ready(s.(slot := None, freed := s.freed + [box], ops := s.ops - {op}),
            Completion(box, s.ops[op], woken[0].reply))
  }

  function Push(s: Side, handle: nat): Side {
    s.(ops := s.ops[s.nextOp := handle], nextOp := s.nextOp + 1)
  }

  /** The rest of a call after its first step: polled until ready, or given up after the last poll. */
  function Rest(s: Side, polls: seq<seq<Woken>>): (Side, Option<Completion>) {
    if polls == [] then (s, None)
    else match PollOps(s, polls[0])
         case Pending => Rest(s, polls[1..])
         case Ready(s', c) => (Push(s', c.handle), Some(c))
         case NoBox => (s, None)
  }

  /** Every socket has one operation and there are no others. */
  ghost predicate OneOpEach(ops: map<nat, nat>, sockets: set<nat>) {
    && ops.Values == sockets
    && forall a, b :: a in ops && b in ops && ops[a] == ops[b] ==> a == b
  }

  ghost predicate OpsValid(s: Side, sockets: set<nat>) {
    OneOpEach(s.ops, sockets) && forall op <- s.ops :: op < s.nextOp
  }

  // ----- The object -----

  class GroupSide {
    var slot: Option<nat>
    var boxes: nat
    var freed: seq<nat>
    var ops: map<nat, nat>
    var nextOp: nat

    ghost function Value(): Side
      reads this
    {
      Side(slot, boxes, freed, ops, nextOp)
    }

    /** `init_push_batch_ops`. */
    constructor (sockets: set<nat>)
      ensures slot == None && boxes == 0 && freed == []
      ensures OpsValid(Value(), sockets)
    {
      slot, boxes, freed, ops, nextOp := None, 0, [], map[], 0;
      new;
      var todo := sockets;
      while todo != {}
        invariant todo <= sockets && slot == None && boxes == 0 && freed == []
        invariant OpsValid(Value(), sockets - todo)
        decreases todo
      {
        var handle :| handle in todo;
        todo := todo - {handle};
        PushFresh(Value(), sockets - todo - {handle}, handle);
        PushOp(handle);
        assert sockets - todo - {handle} + {handle} == sockets - todo;
      }
      assert sockets - {} == sockets;
    }

    method PushOp(handle: nat)
      modifies this
      ensures Value() == Push(old(Value()), handle)
    {
      ops := ops[nextOp := handle];
      nextOp := nextOp + 1;
    }

    /** The closure of `push_batch_read`; the two asserts are the panics of the source. */
    method PollOp(handle: nat, reply: Reply) returns (c: Option<Completion>)
      requires slot.Some?
      modifies this
      ensures reply == Blocked ==> c == None && Value() == old(Value())
      ensures reply != Blocked ==> c == Some(Completion(old(slot.value), handle, reply))
      ensures reply != Blocked ==> Value() == old(Value()).(slot := None, freed := old(freed) + [old(slot.value)])
    {
      assert slot != None;
      var box := slot.value;
      slot := None;
      match reply {
        case Blocked =>
          assert slot == None;
          slot := Some(box);
          return None;
        case _ =>
          freed := freed + [box];
          return Some(Completion(box, handle, reply));
      }
    }

    /** One `Wait::poll`. */
    method WaitPoll(woken: seq<Woken>) returns (c: Option<Completion>)
      requires slot.Some?
      modifies this
      ensures match PollOps(old(Value()), woken)
              case Pending => c == None && Value() == old(Value())
              case Ready(s, done) => c == Some(done) && Value() == s
              case NoBox => false
    {
      var i := 0;
      assert woken[0..] == woken;
      while i < |woken|
        invariant i <= |woken| && Value() == old(Value())
        invariant PollOps(Value(), woken[i..]) == PollOps(old(Value()), woken)
      {
        var w := woken[i];
        assert woken[i..][0] == w && woken[i..][1..] == woken[i + 1..];
        i := i + 1;
        if w.op in ops {
          var handle := ops[w.op];
          ops := ops - {w.op};
          c := PollOp(handle, w.reply);
          if c.Some? {
            return;
          }
          ops := ops[w.op := handle];
          assert ops == old(ops);
        }
      }
      return None;
    }

    /** `recv_from`: `polls` is what each poll of the call finds; the caller gives up after the last. */
    method RecvFrom(polls: seq<seq<Woken>>) returns (c: Option<Completion>)
      modifies this
      ensures (Value(), c) == Rest(Enter(old(Value())), polls)
    {
      var box := boxes;
      boxes := boxes + 1;
      var last := slot;
      slot := Some(box);
      if last != None {
        freed := freed + [last.value];
      }
      ghost var start := Enter(old(Value()));
      assert polls[0..] == polls;
      for i := 0 to |polls|
        invariant Value() == start
        invariant Rest(start, polls[i..]) == Rest(start, polls)
      {
        assert polls[i..][0] == polls[i] && polls[i..][1..] == polls[i + 1..];
        c := WaitPoll(polls[i]);
        if c.Some? {
          PushOp(c.value.handle);
          return;
        }
      }
      return None;
    }
  }

  // ----- What a poll returns -----

  /** The first woken operation that the batcher has and that does not block. */
  ghost predicate FirstReady(s: Side, woken: seq<Woken>, i: nat) {
    && i < |woken| && woken[i].op in s.ops && woken[i].reply != Blocked
    && forall j | 0 <= j < i :: woken[j].op !in s.ops || woken[j].reply == Blocked
  }

  /** A poll with a box in the slot returns exactly when some woken operation is ready: the first one's socket and
      answer, with the box of the slot. */
  lemma {:induction false} ReturnsFirstReady(s: Side, woken: seq<Woken>)
    requires s.slot.Some?
    ensures PollOps(s, woken).Pending? <==> forall i | 0 <= i < |woken| :: !FirstReady(s, woken, i)
    ensures forall i | 0 <= i < |woken| && FirstReady(s, woken, i) ::
              PollOps(s, woken).Ready? &&
              PollOps(s, woken).completion == Completion(s.slot.value, s.ops[woken[i].op], woken[i].reply)
  {
    if woken != [] {
      var rest := woken[1..];
      ReturnsFirstReady(s, rest);
      if woken[0].op !in s.ops || woken[0].reply == Blocked {
        forall i | 0 <= i < |woken|
          ensures FirstReady(s, woken, i) <==> i > 0 && FirstReady(s, rest, i - 1)
        {
          if i > 0 {
            assert rest[i - 1] == woken[i];
            assert forall j | 0 < j < i :: woken[j] == rest[j - 1];
            assert forall j | 0 <= j < i - 1 :: rest[j] == woken[j + 1];
          }
        }
        assert forall i | 0 <= i < |rest| :: FirstReady(s, rest, i) <==> FirstReady(s, woken, i + 1);
      } else {
        assert FirstReady(s, woken, 0);
      }
    }
  }

  // ----- The operations -----

  lemma PushFresh(s: Side, sockets: set<nat>, handle: nat)
    requires OpsValid(s, sockets) && handle !in sockets
    ensures OpsValid(Push(s, handle), sockets + {handle})
  {
    var ops' := Push(s, handle).ops;
    assert s.nextOp !in s.ops;
    forall h
      ensures h in ops'.Values <==> h in sockets + {handle}
    {
      if h in sockets {
        var a :| a in s.ops && s.ops[a] == h;
        assert ops'[a] == h;
      }
      if h == handle {
        assert ops'[s.nextOp] == h;
      }
    }
  }
}
