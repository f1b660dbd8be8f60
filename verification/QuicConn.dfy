/** The connection bookkeeping of crates/net/quic/src/state/conn.rs: stream ids, the accept queue, the
    closing pipeline and stream credit.  All of it runs under one lock, so calls do not overlap.  What
    quiche answers comes in as arguments. */
module QuicConn {
  import opened Options

  /** The fields of `RawQuicConnState` that this model covers. */
  datatype Conn = Conn(
    seen: set<nat>, unsent: set<nat>, latest: nat, incoming: seq<nat>, dropping: seq<nat>, halfClosed: set<nat>)

  /** What `stream_send` answers to the empty FIN, and `stream_recv` to a half-closed stream. */
  datatype FinReply = FinSent | FinBlocked | FinError
  datatype RecvReply = Data | Fin | Done | RecvError

  predicate Ours(latest: nat, id: nat) {
    id % 2 == latest % 2
  }

  // ----- What the calls compute -----

  function Initial(readable: seq<nat>, first: nat): Conn {
    Conn(set id | id in readable && !Ours(first, id), {}, first, readable, [], {})
  }

  /** `handle_quic_incoming_stream`. */
  function Arrive(c: Conn, id: nat): Conn {
    if Ours(c.latest, id) || id in c.seen then c
    else c.(seen := c.seen + {id}, incoming := c.incoming + [id])
  }

  function TakeIncoming(c: Conn): Conn {
    if c.incoming == [] then c else c.(incoming := c.incoming[1..])
  }

  function TakeId(c: Conn): Conn {
    c.(latest := c.latest + 4, unsent := c.unsent + {c.latest})
  }

  /** Quiche took data for `id`. */
  function Sent(c: Conn, id: nat): Conn {
    if Ours(c.latest, id) then c.(unsent := c.unsent - {id}) else c
  }

  /** `close_stream`: a stream of ours that was never sent on is forgotten, any other one needs a FIN. */
  function Shut(c: Conn, id: nat): Conn {
    if id in c.unsent then c.(unsent := c.unsent - {id}) else c.(dropping := c.dropping + [id])
  }

  /** Ids whose FIN is blocked, in the order of the queue. */
  function Blocked(queue: seq<nat>, replies: seq<FinReply>): seq<nat>
    requires |replies| == |queue|
  {
    if queue == [] then []
    else (if replies[0].FinBlocked? then [queue[0]] else []) + Blocked(queue[1..], replies[1..])
  }

  /** Ids whose FIN was sent or failed. */
  function Released(queue: seq<nat>, replies: seq<FinReply>): set<nat>
    requires |replies| == |queue|
  {
    if queue == [] then {}
    else (if replies[0].FinBlocked? then {} else {queue[0]}) + Released(queue[1..], replies[1..])
  }

  lemma RoundStep(queue: seq<nat>, replies: seq<FinReply>)
    requires |replies| == |queue| && queue != []
    ensures Blocked(queue, replies)
         == (if replies[0].FinBlocked? then [queue[0]] else []) + Blocked(queue[1..], replies[1..])
    ensures Released(queue, replies)
         == (if replies[0].FinBlocked? then {} else {queue[0]}) + Released(queue[1..], replies[1..])
  {
  }

  lemma RoundEnd(queue: seq<nat>, replies: seq<FinReply>)
    requires |replies| == |queue| == 0
    ensures Blocked(queue, replies) == [] && Released(queue, replies) == {}
  {
  }

  function DropRound(c: Conn, replies: seq<FinReply>): Conn
    requires |replies| == |c.dropping|
  {
    c.(dropping := Blocked(c.dropping, replies), halfClosed := c.halfClosed + Released(c.dropping, replies))
  }

  /** `handle_half_closed_stream_resp`: data is skipped; fin or an error ends the stream. */
  predicate Ends(replies: seq<RecvReply>) {
    replies != [] && match replies[0]
                     case Data => Ends(replies[1..])
                     case Fin => true
                     case Done => false
                     case RecvError => true
  }

  function RepliesFor(replies: map<nat, seq<RecvReply>>, id: nat): seq<RecvReply> {
    if id in replies then replies[id] else []
  }

  function Remaining(ids: set<nat>, replies: map<nat, seq<RecvReply>>): set<nat> {
    set id | id in ids && !Ends(RepliesFor(replies, id))
  }

  /** `peer_streams_left_bidi`. */
  function Credit(left: nat, initial: nat, unsent: nat): nat {
    if left > unsent then
      if initial == left then left - unsent - 1 else left - unsent
    else 0
  }

  // ----- The object -----

  class RawQuicConnState {
    var registerIncoming: set<nat>
    var registerOutgoing: set<nat>
    var latestOutgoing: nat
    var incoming: seq<nat>
    var droppingQueue: seq<nat>
    var halfClosed: set<nat>

    ghost function Value(): Conn
      reads this
    {
      Conn(registerIncoming, registerOutgoing, latestOutgoing, incoming, droppingQueue, halfClosed)
    }

    constructor (readable: seq<nat>, first: nat)
      ensures Value() == Initial(readable, first)
    {
      registerIncoming, registerOutgoing, latestOutgoing := {}, {}, first;
      incoming, droppingQueue, halfClosed := [], [], {};
      new;
      for i := 0 to |readable|
        invariant incoming == readable[..i]
        invariant registerIncoming == set id | id in readable[..i] && !Ours(first, id)
        invariant registerOutgoing == {} && latestOutgoing == first && droppingQueue == [] && halfClosed == {}
      {
        var id := readable[i];
        assert readable[..i + 1] == readable[..i] + [id];
        if id % 2 != first % 2 {
          registerIncoming := registerIncoming + {id};
        }
        incoming := incoming + [id];
      }
      assert readable[..|readable|] == readable;
    }

    method HandleIncomingStream(id: nat)
      modifies this
      ensures Value() == Arrive(old(Value()), id)
    {
      if latestOutgoing % 2 != id % 2 && id !in registerIncoming {
        registerIncoming := registerIncoming + {id};
        incoming := incoming + [id];
      }
    }

    /** One turn of `accept`: nothing when the connection is closed or the queue is empty. */
    method Accept(closed: bool) returns (r: Option<nat>)
      modifies this
      ensures
        var c := old(Value());
        if closed || c.incoming == [] then r == None && Value() == c
        else r == Some(c.incoming[0]) && Value() == TakeIncoming(c)
    {
      if closed || incoming == [] {
        return None;
      }
      r := Some(incoming[0]);
      incoming := incoming[1..];
    }

    method OpenStream(closed: bool) returns (r: Option<nat>)
      modifies this
      ensures
        var c := old(Value());
        if closed then r == None && Value() == c
        else r == Some(c.latest) && Value() == TakeId(c)
    {
      if closed {
        return None;
      }
      var id := latestOutgoing;
      latestOutgoing := latestOutgoing + 4;
      registerOutgoing := registerOutgoing + {id};
      return Some(id);
    }

    /** What `stream_send` records when quiche took the data. */
    method RecordSend(id: nat)
      modifies this
      ensures Value() == Sent(old(Value()), id)
    {
      if latestOutgoing % 2 == id % 2 {
        registerOutgoing := registerOutgoing - {id};
      }
    }

    method CloseStream(closed: bool, id: nat) returns (ok: bool)
      modifies this
      ensures ok == !closed
      ensures Value() == if closed then old(Value()) else Shut(old(Value()), id)
    {
      if closed {
        return false;
      }
      if id in registerOutgoing {
        registerOutgoing := registerOutgoing - {id};
        return true;
      }
      droppingQueue := droppingQueue + [id];
      return true;
    }

    method HandleDroppingStreams(replies: seq<FinReply>)
      requires |replies| == |droppingQueue|
      modifies this
      ensures Value() == DropRound(old(Value()), replies)
    {
      hide Blocked, Released;
      var pending: seq<nat> := [];
      var i := 0;
      ghost var queue := droppingQueue;
      assert queue[0..] == queue && replies[0..] == replies;
      while droppingQueue != []
        invariant i <= |queue| && droppingQueue == queue[i..]
        invariant registerIncoming == old(registerIncoming) && registerOutgoing == old(registerOutgoing)
        invariant latestOutgoing == old(latestOutgoing) && incoming == old(incoming)
        invariant pending + Blocked(queue[i..], replies[i..]) == Blocked(queue, replies)
        invariant halfClosed + Released(queue[i..], replies[i..]) == old(halfClosed) + Released(queue, replies)
        decreases |droppingQueue|
      {
        var id := droppingQueue[0];
        RoundStep(queue[i..], replies[i..]);
        assert queue[i..][1..] == queue[i + 1..] && replies[i..][1..] == replies[i + 1..];
        droppingQueue := droppingQueue[1..];
        if replies[i].FinBlocked? {
          pending := pending + [id];
        } else {
          halfClosed := halfClosed + {id};
        }
        i := i + 1;
      }
      RoundEnd(queue[i..], replies[i..]);
      droppingQueue := pending;
    }

    method HalfClosedResponse(replies: seq<RecvReply>) returns (closed: bool)
      ensures closed == Ends(replies)
    {
      var i := 0;
      assert replies[0..] == replies;
      while i < |replies|
        invariant i <= |replies| && Ends(replies[i..]) == Ends(replies)
      {
        assert replies[i..][1..] == replies[i + 1..];
        match replies[i] {
          case Data => i := i + 1;
          case Fin => return true;
          case Done => return false;
          case RecvError => return true;
        }
      }
      return false;
    }

    method HandleHalfClosedStreams(replies: map<nat, seq<RecvReply>>)
      modifies this
      ensures Value() == old(Value()).(halfClosed := Remaining(old(halfClosed), replies))
    {
      var todo := halfClosed;
      halfClosed := {};
      while todo != {}
        invariant todo <= old(halfClosed)
        invariant halfClosed == Remaining(old(halfClosed) - todo, replies)
        invariant registerIncoming == old(registerIncoming) && registerOutgoing == old(registerOutgoing)
        invariant latestOutgoing == old(latestOutgoing) && incoming == old(incoming)
        invariant droppingQueue == old(droppingQueue)
        decreases todo
      {
        var id :| id in todo;
        todo := todo - {id};
        var closed := HalfClosedResponse(RepliesFor(replies, id));
        if !closed {
          halfClosed := halfClosed + {id};
        }
      }
    }

    /** Reads only; `left` and `initial` are quiche's.  Unsent streams are always left room, and one stream more is
        held back while nothing of the initial limit seems used; what that means for the peer's limit is
        `QuicRuns.CreditLedger`. */
    method PeerStreamsLeftBidi(left: nat, initial: nat) returns (r: nat)
      ensures r > 0 ==> r + |Value().unsent| + (if initial == left then 1 else 0) == left
      ensures r == 0 <==> left <= |Value().unsent| + (if initial == left then 1 else 0)
      ensures r == Credit(left, initial, |Value().unsent|)
    {
      var unsent := |registerOutgoing|;
      if left > unsent {
        if initial == left {
          return left - unsent - 1;
        }
        return left - unsent;
      }
      return 0;
    }
  }
}
