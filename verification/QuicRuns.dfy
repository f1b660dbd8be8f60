/** Whole runs of the connection bookkeeping of crates/net/quic/src/state/conn.rs against a peer and a quiche
    that keep RFC 9000: stream ids (section 2.1), the stream limit (section 4.6) and the closing pipeline. */
module QuicRuns {
  import opened Options
  import opened QuicConn

  /** The connection, what quiche knows (`initial`, `limit`: the peer's stream limit; `created`: one more than
      the highest stream number of ours that was ever sent on), and the history of the run. */
  datatype World = World(
    conn: Conn, initial: nat, limit: nat, created: nat,
    ours: seq<nat>, accepted: seq<nat>, arrived: seq<nat>,
    early: set<nat>,
    enqueued: seq<nat>, drained: set<nat>)

  /** `Send` is a send that quiche took.  `Attempt` is a send or FIN that it counted against the limit and then
      answered with `Done` or an error: if the stream was unsent, it stays so on our side. */
  datatype Event =
    | Readable(id: nat)
    | Accept
    | Open
    | Send(id: nat)
    | Attempt(id: nat)
    | Close(id: nat)
    | SendFins(fins: seq<FinReply>)
    | Drain(data: map<nat, seq<RecvReply>>)
    | MaxStreams(limit: nat)

  /** What a connection starts from: the first id to hand out, what is readable, the two limits. */
  datatype Setup = Setup(first: nat, readable: seq<nat>, initial: nat, limit: nat)

  predicate Started(p: Setup) {
    (p.first == 4 || p.first == 5) && p.initial <= p.limit
  }

  /** The streams that are readable at the start are the peer's, each listed once. */
  predicate PeerOpened(p: Setup) {
    (forall id <- p.readable :: !Ours(p.first, id)) && NoDuplicates(p.readable)
  }

  function Start(p: Setup): World {
    World(Initial(p.readable, p.first), p.initial, p.limit, 0, [], [], [], {}, [], {})
  }

  /** Does sending on `id` make quiche create a stream that counts against the peer's limit? */
  predicate Counts(p: Setup, id: nat) {
    id % 4 == p.first % 4
  }

  function Raise(p: Setup, created: nat, id: nat): nat {
    if Counts(p, id) && id / 4 >= created then id / 4 + 1 else created
  }

  function RaiseAll(p: Setup, created: nat, queue: seq<nat>, fins: seq<FinReply>): nat
    requires |fins| == |queue|
    decreases |queue|
  {
    if queue == [] then created
    else RaiseAll(p, if fins[0].FinSent? then Raise(p, created, queue[0]) else created, queue[1..], fins[1..])
  }

  /** Callers use ids they were given; quiche refuses what is at or above the limit, and the limit never falls. */
  predicate Enabled(p: Setup, w: World, e: Event) {
    match e
    case Send(id) =>
      id in w.ours + w.accepted && id !in w.conn.halfClosed && (Counts(p, id) ==> id / 4 < w.limit)
    case Attempt(id) => id in w.ours + w.accepted && (Counts(p, id) ==> id / 4 < w.limit)
    case Close(id) => id in w.ours + w.accepted
    case SendFins(fins) =>
      |fins| == |w.conn.dropping| &&
      forall i :: 0 <= i < |fins| && fins[i].FinSent? && Counts(p, w.conn.dropping[i]) ==>
        w.conn.dropping[i] / 4 < w.limit
    case MaxStreams(limit) => limit >= w.limit
    case _ => true
  }

  function Apply(p: Setup, w: World, e: Event): World
    requires Enabled(p, w, e)
  {
    var c := w.conn;
    match e
    case Readable(id) =>
      w.(conn := Arrive(c, id), arrived := if Ours(p.first, id) then w.arrived else w.arrived + [id])
    case Accept =>
      if c.incoming == [] then w
      else w.(conn := TakeIncoming(c), accepted := w.accepted + [c.incoming[0]])
    case Open =>
      w.(conn := TakeId(c), ours := w.ours + [c.latest])
    case Send(id) =>
      w.(conn := Sent(c, id), created := Raise(p, w.created, id))
    case Attempt(id) => w.(created := Raise(p, w.created, id))
    case Close(id) =>
      if id in c.unsent then w.(conn := Shut(c, id), early := w.early + {id})
      else w.(conn := Shut(c, id), enqueued := w.enqueued + [id])
    case SendFins(fins) =>
      w.(conn := DropRound(c, fins), created := RaiseAll(p, w.created, c.dropping, fins))
    case Drain(data) =>
      var left := Remaining(c.halfClosed, data);
      w.(conn := c.(halfClosed := left), drained := w.drained + (c.halfClosed - left))
    case MaxStreams(limit) => w.(limit := limit)
  }

  function Exec(p: Setup, run: seq<Event>): Option<World> {
    if run == [] then Some(Start(p))
    else
      match Exec(p, run[..|run| - 1])
      case None => None
      case Some(w) => if Enabled(p, w, run[|run| - 1]) then Some(Apply(p, w, run[|run| - 1])) else None
  }

  predicate Reaches(p: Setup, run: seq<Event>, w: World) {
    Exec(p, run) == Some(w)
  }

  lemma LastStep(p: Setup, run: seq<Event>, w: World) returns (v: World)
    requires Reaches(p, run, w) && run != []
    ensures Reaches(p, run[..|run| - 1], v)
    ensures Enabled(p, v, run[|run| - 1]) && w == Apply(p, v, run[|run| - 1])
  {
    v := Exec(p, run[..|run| - 1]).value;
  }

  lemma Begin(p: Setup) returns (w: World)
    ensures w == Start(p) && Reaches(p, [], w)
  {
    w := Start(p);
  }

  lemma Extend(p: Setup, run: seq<Event>, w: World, e: Event) returns (w': World)
    requires Reaches(p, run, w) && Enabled(p, w, e)
    ensures w' == Apply(p, w, e) && Reaches(p, run + [e], w')
  {
    w' := Apply(p, w, e);
    assert (run + [e])[..|run + [e]| - 1] == run;
  }

  // ----- Stream identity -----

  predicate NoDuplicates(s: seq<nat>) {
    forall i, j :: 0 <= i < j < |s| ==> s[i] != s[j]
  }

  /** The distinct elements in the order of their first occurrence. */
  function FirstSeen(s: seq<nat>): (r: seq<nat>)
    ensures forall x :: x in r <==> x in s
    ensures NoDuplicates(r)
  {
    if s == [] then []
    else
      var front, x := s[..|s| - 1], s[|s| - 1];
      assert s == front + [x];
      if x in front then FirstSeen(front) else FirstSeen(front) + [x]
  }

  function FirstAt(s: seq<nat>, x: nat): (i: nat)
    requires x in s
    ensures i < |s| && s[i] == x && x !in s[..i]
  {
    if s[0] == x then 0 else 1 + FirstAt(s[1..], x)
  }

  lemma {:induction false} FirstAtPrefix(s: seq<nat>, t: seq<nat>, x: nat)
    requires x in s
    ensures FirstAt(s + t, x) == FirstAt(s, x)
  {
    if s[0] != x {
      assert (s + t)[1..] == s[1..] + t;
      FirstAtPrefix(s[1..], t, x);
    }
  }

  lemma {:induction false} FirstSeenOrder(s: seq<nat>, i: nat, j: nat)
    requires i < j < |FirstSeen(s)|
    ensures FirstAt(s, FirstSeen(s)[i]) < FirstAt(s, FirstSeen(s)[j])
  {
    var front, x, r := s[..|s| - 1], s[|s| - 1], FirstSeen(s);
    assert s == front + [x];
    FirstAtPrefix(front, [x], r[i]);
    if j < |FirstSeen(front)| {
      FirstSeenOrder(front, i, j);
      FirstAtPrefix(front, [x], r[j]);
    } else {
      assert r[j] == x && x !in front;
    }
  }

  /** The elements of `r` stand in the order in which `s` first mentions them. */
  predicate InFirstSeenOrder(r: seq<nat>, s: seq<nat>) {
    && (forall x <- r :: x in s)
    && forall i, j :: 0 <= i < j < |r| ==> FirstAt(s, r[i]) < FirstAt(s, r[j])
  }

  lemma FirstSeenOrdered(s: seq<nat>, r: seq<nat>)
    requires r <= FirstSeen(s)
    ensures InFirstSeenOrder(r, s) && NoDuplicates(r)
  {
    var all := FirstSeen(s);
    assert forall i :: 0 <= i < |r| ==> r[i] == all[i];
    assert forall x <- r :: x in all;
    forall i, j | 0 <= i < j < |r|
      ensures FirstAt(s, r[i]) < FirstAt(s, r[j])
    {
      FirstSeenOrder(s, i, j);
    }
  }

  lemma {:induction false} FirstSeenDistinct(s: seq<nat>)
    requires NoDuplicates(s)
    ensures FirstSeen(s) == s
  {
    if s != [] {
      var front, x := s[..|s| - 1], s[|s| - 1];
      assert s == front + [x];
      FirstSeenDistinct(front);
    }
  }

  /** What was and will be accepted: all that was readable at the start, then each new peer stream once. */
  function Arrivals(start: seq<nat>, log: seq<nat>): seq<nat> {
    if log == [] then start
    else
      var front, x := log[..|log| - 1], log[|log| - 1];
      if x in start || x in front then Arrivals(start, front) else Arrivals(start, front) + [x]
  }

  lemma {:induction false} ArrivalsInOrder(start: seq<nat>, log: seq<nat>)
    requires NoDuplicates(start)
    ensures Arrivals(start, log) == FirstSeen(start + log)
  {
    if log == [] {
      FirstSeenDistinct(start);
      assert start + log == start;
    } else {
      var front, x := log[..|log| - 1], log[|log| - 1];
      assert (start + log)[..|start + log| - 1] == start + front;
      ArrivalsInOrder(start, front);
    }
  }

  lemma {:induction false} ArrivalsElements(start: seq<nat>, log: seq<nat>, x: nat)
    ensures x in Arrivals(start, log) <==> x in start || x in log
  {
    if log != [] {
      var front, y := log[..|log| - 1], log[|log| - 1];
      assert log == front + [y];
      ArrivalsElements(start, front, x);
    }
  }

  ghost predicate IdInv(p: Setup, w: World) {
    && w.conn.latest == p.first + 4 * |w.ours|
    && (forall i :: 0 <= i < |w.ours| ==> w.ours[i] == p.first + 4 * i)
    && (forall id <- w.arrived :: !Ours(p.first, id))
    && w.conn.seen == (set id | id in p.readable + w.arrived && !Ours(p.first, id))
    && w.accepted + w.conn.incoming == Arrivals(p.readable, w.arrived)
  }

  lemma {:induction false} NextIdParity(first: nat, n: nat)
    ensures (first + 4 * n) % 2 == first % 2
  {
    if n > 0 {
      NextIdParity(first, n - 1);
    }
  }

  lemma IdStepReadable(p: Setup, w: World, id: nat)
    requires IdInv(p, w) && w.conn.latest % 2 == p.first % 2
    ensures IdInv(p, Apply(p, w, Readable(id)))
  {
    hide Arrivals;
    var w' := Apply(p, w, Readable(id));
    assert Ours(w.conn.latest, id) <==> Ours(p.first, id);
    if !Ours(p.first, id) {
      hide Ours;
      assert w'.arrived == w.arrived + [id];
      assert id in w.conn.seen <==> id in p.readable || id in w.arrived;
      ArrivalsNext(p.readable, w.arrived, id);
      forall x
        ensures x in w'.conn.seen <==> x in p.readable + w'.arrived && !Ours(p.first, x)
      {
      }
    }
  }

  lemma ArrivalsNext(start: seq<nat>, log: seq<nat>, x: nat)
    ensures Arrivals(start, log + [x])
         == if x in start || x in log then Arrivals(start, log) else Arrivals(start, log) + [x]
  {
    assert (log + [x])[..|log|] == log;
  }

  lemma IdStepAccept(p: Setup, w: World)
    requires IdInv(p, w)
    ensures IdInv(p, Apply(p, w, Accept))
  {
    hide Arrivals, Ours;
    var w' := Apply(p, w, Accept);
    if w.conn.incoming != [] {
      assert w'.accepted + w'.conn.incoming == w.accepted + w.conn.incoming;
    }
  }

  lemma IdStepOther(p: Setup, w: World, e: Event)
    requires IdInv(p, w) && Enabled(p, w, e) && !e.Readable? && !e.Accept?
    ensures IdInv(p, Apply(p, w, e))
  {
    hide Arrivals, Ours, Raise, RaiseAll, Blocked, Released, Remaining;
  }

  lemma IdStep(p: Setup, w: World, e: Event)
    requires IdInv(p, w) && Enabled(p, w, e)
    ensures IdInv(p, Apply(p, w, e))
  {
    match e {
      case Readable(id) =>
        NextIdParity(p.first, |w.ours|);
        IdStepReadable(p, w, id);
      case Accept => IdStepAccept(p, w);
      case _ => IdStepOther(p, w, e);
    }
  }

  lemma {:induction false} IdRun(p: Setup, run: seq<Event>, w: World)
    requires Reaches(p, run, w)
    ensures IdInv(p, w)
  {
    if run != [] {
      var e := run[|run| - 1];
      var v := LastStep(p, run, w);
      IdRun(p, run[..|run| - 1], v);
      IdStep(p, v, e);
    }
  }

  /** The ids handed out by `open_stream` are the first one, then every fourth: all different, with the
      type bits of the first. */
  lemma OpenedIds(p: Setup, run: seq<Event>, w: World)
    requires Reaches(p, run, w)
    ensures NoDuplicates(w.ours)
    ensures forall i :: 0 <= i < |w.ours| ==> w.ours[i] == p.first + 4 * i && w.ours[i] % 4 == p.first % 4
  {
    IdRun(p, run, w);
  }

  /** When the streams readable at the start are the peer's, `accept` returns each peer stream at most once,
      in the order in which quiche first reported it, and never an id of `open_stream`. */
  lemma AcceptedIds(p: Setup, run: seq<Event>, w: World)
    requires Reaches(p, run, w) && PeerOpened(p)
    ensures w.accepted + w.conn.incoming == FirstSeen(p.readable + w.arrived)
    ensures InFirstSeenOrder(w.accepted, p.readable + w.arrived) && NoDuplicates(w.accepted)
    ensures forall id <- w.accepted :: id !in w.ours
  {
    hide FirstSeen, Arrivals, FirstAt, InFirstSeenOrder, Reaches, Ours;
    IdRun(p, run, w);
    ArrivalsInOrder(p.readable, w.arrived);
    assert w.accepted <= Arrivals(p.readable, w.arrived);
    FirstSeenOrdered(p.readable + w.arrived, w.accepted);
    forall id | id in w.accepted
      ensures id !in w.ours
    {
      NotOurs(p, w, id);
    }
  }

  lemma NotOurs(p: Setup, w: World, id: nat)
    requires IdInv(p, w) && PeerOpened(p) && id in w.accepted
    ensures id !in w.ours
  {
    hide Arrivals;
    assert id in w.accepted + w.conn.incoming;
    ArrivalsElements(p.readable, w.arrived, id);
    forall i | 0 <= i < |w.ours|
      ensures w.ours[i] != id
    {
      NextIdParity(p.first, i);
    }
  }

  /** Without that premise: an id of our parity is queued for `accept` exactly when it was readable at the start. */
  lemma OwnParityAccepted(p: Setup, run: seq<Event>, w: World, id: nat)
    requires Reaches(p, run, w) && Ours(p.first, id)
    ensures id in w.accepted + w.conn.incoming <==> id in p.readable
  {
    IdRun(p, run, w);
    ArrivalsElements(p.readable, w.arrived, id);
  }

  // ----- Stream credit -----

  /** What `peer_streams_left_bidi` answers in `w`. */
  function Left(w: World): nat {
    if w.limit >= w.created then w.limit - w.created else 0
  }

  function Reported(w: World): nat {
    Credit(Left(w), w.initial, |w.conn.unsent|)
  }

  /** The number of the next stream from `open_stream`; the peer allows numbers below the limit. */
  function Next(w: World): nat {
    w.conn.latest / 4
  }

  /** Stream numbers start at 1, so nothing below it is ever pending. */
  function Mark(w: World): nat {
    if w.created == 0 then 1 else w.created
  }

  /** Unsent ids below the highest one that quiche counts: their own first send is still to come, or was attempted
      without success. */
  function Late(w: World): set<nat> {
    set id | id in w.conn.unsent && id / 4 < Mark(w)
  }

  /** Ids above everything sent on that were given up. */
  function Abandoned(p: Setup, w: World): set<nat> {
    Numbers(p, Mark(w), Next(w)) - w.conn.unsent
  }

  function Numbers(p: Setup, from: nat, to: nat): set<nat> {
    set k | from <= k < to :: 4 * k + p.first % 4
  }

  lemma {:induction false} NumbersSize(p: Setup, from: nat, to: nat)
    requires from <= to
    ensures |Numbers(p, from, to)| == to - from
  {
    if from < to {
      NumbersSize(p, from, to - 1);
      assert Numbers(p, from, to) == Numbers(p, from, to - 1) + {4 * (to - 1) + p.first % 4};
    } else {
      assert Numbers(p, from, to) == {};
    }
  }

  predicate OwnId(p: Setup, w: World, id: nat) {
    id % 4 == p.first % 4 && 1 <= id / 4 < Next(w)
  }

  ghost predicate CreditInv(p: Setup, w: World) {
    && w.created <= Next(w) && w.created <= w.limit
    && w.conn.latest % 4 == p.first % 4 && 1 <= Next(w)
    && (forall id <- w.ours :: OwnId(p, w, id))
    && (forall id <- w.conn.unsent :: OwnId(p, w, id))
    && (forall id <- w.accepted + w.conn.incoming :: !Ours(p.first, id))
    && (forall id <- w.conn.dropping :: Counts(p, id) ==> id / 4 < Next(w))
    && (forall id: nat :: OwnId(p, w, id) && w.created <= id / 4 ==> id in w.conn.unsent || id in w.early)
  }

  lemma {:induction false} RaiseAllBounds(p: Setup, created: nat, queue: seq<nat>, fins: seq<FinReply>,
    limit: nat, next: nat)
    requires |fins| == |queue| && created <= limit && created <= next
    requires forall i :: 0 <= i < |fins| && fins[i].FinSent? && Counts(p, queue[i]) ==> queue[i] / 4 < limit
    requires forall id <- queue :: Counts(p, id) ==> id / 4 < next
    ensures created <= RaiseAll(p, created, queue, fins) <= limit
    ensures RaiseAll(p, created, queue, fins) <= next
    decreases |queue|
  {
    if queue != [] {
      RaiseAllBounds(p, if fins[0].FinSent? then Raise(p, created, queue[0]) else created,
                     queue[1..], fins[1..], limit, next);
    }
  }

  lemma {:induction false} BlockedIn(queue: seq<nat>, fins: seq<FinReply>, id: nat)
    requires |fins| == |queue| && id in Blocked(queue, fins)
    ensures id in queue
  {
    if !(fins[0].FinBlocked? && queue[0] == id) {
      BlockedIn(queue[1..], fins[1..], id);
    }
  }

  lemma Parity(x: nat)
    ensures x % 2 == if x % 4 == 0 || x % 4 == 2 then 0 else 1
  {
    var q, r := x / 4, x % 4;
    assert x == 4 * q + r;
    if r < 2 {
      assert x == 2 * (2 * q) + r;
    } else {
      assert x == 2 * (2 * q + 1) + (r - 2);
    }
  }

  lemma SameParity(x: nat, y: nat)
    requires x % 4 == y % 4
    ensures x % 2 == y % 2
  {
    Parity(x);
    Parity(y);
  }

  /** An id that callers hold and that counts against the limit came from `open_stream`. */
  lemma CountsIsOurs(p: Setup, w: World, id: nat)
    requires CreditInv(p, w) && id in w.ours + w.accepted && Counts(p, id)
    ensures OwnId(p, w, id)
  {
    assert Ours(p.first, id) by { SameParity(p.first, id); }
    hide Ours, Counts, OwnId;
    assert id in w.accepted ==> id in w.accepted + w.conn.incoming;
  }

  lemma CreditStepOpen(p: Setup, w: World)
    requires CreditInv(p, w)
    ensures CreditInv(p, Apply(p, w, Open))
  {
    var w' := Apply(p, w, Open);
    assert Next(w') == Next(w) + 1;
    assert forall id: nat :: OwnId(p, w, id) ==> OwnId(p, w', id);
    forall id: nat | OwnId(p, w', id)
      ensures OwnId(p, w, id) || id == w.conn.latest
    {
    }
  }

  lemma CreditStepSend(p: Setup, w: World, id: nat)
    requires Started(p) && CreditInv(p, w) && Enabled(p, w, Send(id))
    ensures CreditInv(p, Apply(p, w, Send(id)))
  {
    var w' := Apply(p, w, Send(id));
    if Counts(p, id) {
      CountsIsOurs(p, w, id);
    }
    assert forall x: nat :: OwnId(p, w, x) <==> OwnId(p, w', x);
    forall x: nat | OwnId(p, w, x) && w'.created <= x / 4
      ensures x != id
    {
    }
  }

  lemma CreditStepAttempt(p: Setup, w: World, id: nat)
    requires CreditInv(p, w) && Enabled(p, w, Attempt(id))
    ensures CreditInv(p, Apply(p, w, Attempt(id)))
  {
    var w' := Apply(p, w, Attempt(id));
    if Counts(p, id) {
      CountsIsOurs(p, w, id);
    }
    assert forall x: nat :: OwnId(p, w, x) <==> OwnId(p, w', x);
  }

  lemma CreditStepFins(p: Setup, w: World, fins: seq<FinReply>)
    requires CreditInv(p, w) && Enabled(p, w, SendFins(fins))
    ensures CreditInv(p, Apply(p, w, SendFins(fins)))
  {
    var w' := Apply(p, w, SendFins(fins));
    RaiseAllBounds(p, w.created, w.conn.dropping, fins, w.limit, Next(w));
    assert forall x: nat :: OwnId(p, w, x) <==> OwnId(p, w', x);
    forall id | id in w'.conn.dropping
      ensures Counts(p, id) ==> id / 4 < Next(w)
    {
      BlockedIn(w.conn.dropping, fins, id);
    }
  }

  lemma CreditStepOther(p: Setup, w: World, e: Event)
    requires CreditInv(p, w) && Enabled(p, w, e) && !e.Open? && !e.Send? && !e.Attempt? && !e.SendFins?
    ensures CreditInv(p, Apply(p, w, e))
  {
    var w' := Apply(p, w, e);
    SameParity(w.conn.latest, p.first);
    assert forall x: nat :: OwnId(p, w, x) <==> OwnId(p, w', x);
    if e.Close? && Counts(p, e.id) {
      CountsIsOurs(p, w, e.id);
    }
    if e.Accept? && w.conn.incoming != [] {
      assert w'.accepted + w'.conn.incoming == w.accepted + w.conn.incoming;
    }
  }

  lemma CreditStep(p: Setup, w: World, e: Event)
    requires Started(p) && CreditInv(p, w) && Enabled(p, w, e)
    ensures CreditInv(p, Apply(p, w, e))
  {
    hide CreditInv, Enabled, Apply;
    match e {
      case Open => CreditStepOpen(p, w);
      case Send(id) => CreditStepSend(p, w, id);
      case Attempt(id) => CreditStepAttempt(p, w, id);
      case SendFins(fins) => CreditStepFins(p, w, fins);
      case _ => CreditStepOther(p, w, e);
    }
  }

  lemma {:induction false} CreditRun(p: Setup, run: seq<Event>, w: World)
    requires Started(p) && PeerOpened(p) && Reaches(p, run, w)
    ensures CreditInv(p, w)
  {
    if run != [] {
      var e := run[|run| - 1];
      var v := LastStep(p, run, w);
      CreditRun(p, run[..|run| - 1], v);
      CreditStep(p, v, e);
    }
  }

  lemma AbandonedEarly(p: Setup, w: World)
    requires CreditInv(p, w)
    ensures Abandoned(p, w) <= w.early
  {
    forall id | id in Abandoned(p, w)
      ensures id in w.early
    {
      var k :| Mark(w) <= k < Next(w) && id == 4 * k + p.first % 4;
      assert OwnId(p, w, id);
    }
  }

  lemma UnsentSplit(p: Setup, w: World)
    requires CreditInv(p, w)
    ensures Next(w) - Mark(w) == |w.conn.unsent| - |Late(w)| + |Abandoned(p, w)|
  {
    var range, unsent, late, gone := Numbers(p, Mark(w), Next(w)), w.conn.unsent, Late(w), Abandoned(p, w);
    NumbersSize(p, Mark(w), Next(w));
    var both := unsent * range;
    forall id | id in unsent && id !in late
      ensures id in range
    {
      assert OwnId(p, w, id) && id == 4 * (id / 4) + p.first % 4;
    }
    forall id | id in late
      ensures id !in range
    {
    }
    assert unsent == late + both;
    assert range == gone + both;
  }

  /** The ledger of every run: the room that is really left is what `peer_streams_left_bidi` reports, up by the
      late first sends and by the one it holds back, down by the ids given up and by the unused number 0. */
  lemma CreditLedger(p: Setup, run: seq<Event>, w: World)
    requires Started(p) && PeerOpened(p) && Reaches(p, run, w)
    ensures Abandoned(p, w) <= w.early
    ensures Next(w) - Mark(w) == |w.conn.unsent| - |Late(w)| + |Abandoned(p, w)|
    ensures Left(w) > |w.conn.unsent| ==>
              w.limit - Next(w) == Reported(w) + |Late(w)| - |Abandoned(p, w)|
                                   + (if w.initial == Left(w) then 1 else 0) - (if w.created == 0 then 1 else 0)
    ensures Left(w) <= |w.conn.unsent| ==> Reported(w) == 0
  {
    CreditRun(p, run, w);
    AbandonedEarly(p, w);
    UnsentSplit(p, w);
    hide Late, Abandoned, CreditInv, Reaches;
  }

  /** A positive credit means the next id is below the peer's limit, when no stream was closed before its first
      send and either something was sent or the limit is still the initial one. */
  lemma CreditSound(p: Setup, run: seq<Event>, w: World)
    requires Started(p) && PeerOpened(p) && Reaches(p, run, w)
    requires w.early == {} && (w.created > 0 || w.limit == w.initial)
    requires Reported(w) > 0
    ensures Next(w) < w.limit
  {
    CreditLedger(p, run, w);
    assert Abandoned(p, w) == {};
  }

  /** With no early close the claim fails exactly when nothing was sent, the limit was raised, and it is one
      more than the number of opened streams. */
  lemma CreditSoundExactly(p: Setup, run: seq<Event>, w: World)
    requires Started(p) && PeerOpened(p) && Reaches(p, run, w) && w.early == {}
    ensures (Reported(w) > 0 ==> Next(w) < w.limit)
       <==> !(w.created == 0 && w.limit != w.initial && w.limit == |w.ours| + 1)
  {
    CreditLedger(p, run, w);
    IdRun(p, run, w);
    CreditRun(p, run, w);
    assert Abandoned(p, w) == {};
    if w.created == 0 {
      assert Late(w) == {};
    }
  }

  /** With early closes as well: the claim fails exactly when the ids given up outweigh the late first sends. */
  lemma CreditSoundInGeneral(p: Setup, run: seq<Event>, w: World)
    requires Started(p) && PeerOpened(p) && Reaches(p, run, w) && Reported(w) > 0
    ensures Next(w) < w.limit
       <==> |Abandoned(p, w)| + (if w.created == 0 then 1 else 0)
            < Reported(w) + |Late(w)| + (if w.initial == Left(w) then 1 else 0)
  {
    CreditLedger(p, run, w);
  }

  /** Under the initial limit, with first sends in the order of the ids and none that quiche counted but did not
      take, a connection offers one stream fewer than its limit. */
  lemma Capacity(p: Setup, run: seq<Event>, w: World)
    requires Started(p) && PeerOpened(p) && Reaches(p, run, w)
    requires w.early == {} && Late(w) == {} && w.limit == w.initial
    ensures Reported(w) == if w.limit > |w.ours| + 1 then w.limit - 1 - |w.ours| else 0
  {
    CreditLedger(p, run, w);
    IdRun(p, run, w);
    CreditRun(p, run, w);
    assert Abandoned(p, w) == {};
  }

  lemma {:induction false} NothingOpened(p: Setup, run: seq<Event>, more: seq<Event>, w: World, w': World)
    requires Reaches(p, run, w) && Reaches(p, run + more, w') && Open !in more
    ensures w'.conn.latest == w.conn.latest && w.limit <= w'.limit
    decreases |more|
  {
    if more == [] {
      assert run + more == run;
    } else {
      var all, front, e := run + more, more[..|more| - 1], more[|more| - 1];
      assert all[..|all| - 1] == run + front && all[|all| - 1] == e;
      var v := LastStep(p, all, w');
      NothingOpened(p, run, front, w, v);
    }
  }

  /** The pool reads the credit first and opens later.  Whatever the connection does in between, short of
      opening a stream, the id that comes back is below the limit. */
  lemma CheckThenOpen(p: Setup, run: seq<Event>, w: World, more: seq<Event>, w': World)
    requires Started(p) && PeerOpened(p) && Reaches(p, run, w) && Reaches(p, run + more, w')
    requires w.early == {} && (w.created > 0 || w.limit == w.initial) && Reported(w) > 0
    requires Open !in more
    ensures var after := Apply(p, w', Open);
            after.ours == w'.ours + [w'.conn.latest] && w'.conn.latest / 4 < w'.limit
  {
    CreditSound(p, run, w);
    NothingOpened(p, run, more, w, w');
  }

  /** Closing a stream before its first send loses its number: 4 is sent on, 8 is closed unsent, and with a limit
      of 3 the credit is 1 although the next number is 3. */
  lemma EarlyCloseOverstatesCredit()
    ensures exists p, run, w ::
              Started(p) && PeerOpened(p) && Reaches(p, run, w) && w.created > 0 &&
              Reported(w) > 0 && !(Next(w) < w.limit)
  {
    hide Exec;
    var p := Setup(4, [], 2, 3);
    var w := Begin(p);
    var w1 := Extend(p, [], w, Open);
    var w2 := Extend(p, [] + [Open], w1, Send(4));
    var w3 := Extend(p, [] + [Open] + [Send(4)], w2, Open);
    var w4 := Extend(p, [] + [Open] + [Send(4)] + [Open], w3, Close(8));
    assert w4.conn.unsent == {};
    assert w4.created == 2 && w4.conn.latest == 12;
  }

  /** Raising the limit before the first send does too: one stream is open, the limit goes from 1 to 2. */
  lemma RaisedLimitOverstatesCredit()
    ensures exists p, run, w ::
              Started(p) && PeerOpened(p) && Reaches(p, run, w) && w.early == {} &&
              Reported(w) > 0 && !(Next(w) < w.limit)
  {
    hide Exec;
    var p := Setup(5, [], 1, 1);
    var w := Begin(p);
    var w1 := Extend(p, [], w, Open);
    var w2 := Extend(p, [] + [Open], w1, MaxStreams(2));
    assert w2.conn.unsent == {5} && w2.conn.latest == 9;
    assert |w2.conn.unsent| == 1;
    assert Reported(w2) == 1;
  }

  // ----- The closing pipeline -----

  /** `a` is left of `b` after taking elements away. */
  ghost predicate Subsequence(a: seq<nat>, b: seq<nat>) {
    a == [] || (b != [] && ((a[0] == b[0] && Subsequence(a[1..], b[1..])) || Subsequence(a, b[1..])))
  }

  lemma {:induction false} SubsequenceTrans(a: seq<nat>, b: seq<nat>, c: seq<nat>)
    requires Subsequence(a, b) && Subsequence(b, c)
    ensures Subsequence(a, c)
    decreases |b| + |c|
  {
    if a != [] {
      if Subsequence(b, c[1..]) {
        SubsequenceTrans(a, b, c[1..]);
      } else if Subsequence(a, b[1..]) {
        SubsequenceTrans(a, b[1..], c[1..]);
      } else {
        SubsequenceTrans(a[1..], b[1..], c[1..]);
      }
    }
  }

  lemma {:induction false} SubsequenceAppend(a: seq<nat>, b: seq<nat>, x: nat)
    requires Subsequence(a, b)
    ensures Subsequence(a + [x], b + [x])
    decreases |b|
  {
    if b == [] {
      assert a + [x] == [x] && b + [x] == [x];
    } else {
      assert (b + [x])[1..] == b[1..] + [x];
      if a == [] || Subsequence(a, b[1..]) {
        SubsequenceAppend(a, b[1..], x);
      } else {
        assert (a + [x])[1..] == a[1..] + [x];
        SubsequenceAppend(a[1..], b[1..], x);
      }
    }
  }

  lemma {:induction false} BlockedKeepsOrder(queue: seq<nat>, fins: seq<FinReply>)
    requires |fins| == |queue|
    ensures Subsequence(Blocked(queue, fins), queue)
  {
    if queue != [] {
      var rest := Blocked(queue[1..], fins[1..]);
      BlockedKeepsOrder(queue[1..], fins[1..]);
      if fins[0].FinBlocked? {
        assert Blocked(queue, fins)[1..] == rest;
      } else {
        assert Blocked(queue, fins) == rest;
      }
    }
  }

  /** Where the ids of one round go, place by place. */
  lemma {:induction false} RoundMembers(queue: seq<nat>, fins: seq<FinReply>, id: nat)
    requires |fins| == |queue|
    ensures id in Blocked(queue, fins) <==> exists i :: 0 <= i < |queue| && queue[i] == id && fins[i].FinBlocked?
    ensures id in Released(queue, fins) <==> exists i :: 0 <= i < |queue| && queue[i] == id && !fins[i].FinBlocked?
  {
    if queue != [] {
      var rest, tail := queue[1..], fins[1..];
      RoundMembers(rest, tail, id);
      assert forall i :: 0 <= i < |rest| ==> rest[i] == queue[i + 1] && tail[i] == fins[i + 1];
      assert forall i :: 0 < i < |queue| ==> queue[i] == rest[i - 1] && fins[i] == tail[i - 1];
    }
  }

  lemma {:induction false} SubsequenceIndices(a: seq<nat>, b: seq<nat>, i: nat, j: nat) returns (k: nat, l: nat)
    requires Subsequence(a, b) && i < j < |a|
    ensures k < l < |b| && a[i] == b[k] && a[j] == b[l]
    decreases |b|
  {
    if Subsequence(a, b[1..]) {
      k, l := SubsequenceIndices(a, b[1..], i, j);
      k, l := k + 1, l + 1;
    } else if i == 0 {
      l := SubsequenceIndex(a[1..], b[1..], j - 1);
      k, l := 0, l + 1;
    } else {
      k, l := SubsequenceIndices(a[1..], b[1..], i - 1, j - 1);
      k, l := k + 1, l + 1;
    }
  }

  lemma {:induction false} SubsequenceIndex(a: seq<nat>, b: seq<nat>, j: nat) returns (l: nat)
    requires Subsequence(a, b) && j < |a|
    ensures l < |b| && a[j] == b[l]
    decreases |b|
  {
    if Subsequence(a, b[1..]) {
      l := SubsequenceIndex(a, b[1..], j);
      l := l + 1;
    } else if j == 0 {
      l := 0;
    } else {
      l := SubsequenceIndex(a[1..], b[1..], j - 1);
      l := l + 1;
    }
  }

  ghost predicate CloseInv(w: World) {
    && (forall id :: id in w.enqueued <==> id in w.conn.dropping || id in w.conn.halfClosed || id in w.drained)
    && Subsequence(w.conn.dropping, w.enqueued)
  }

  lemma CloseStep(p: Setup, w: World, e: Event)
    requires CloseInv(w) && Enabled(p, w, e)
    ensures CloseInv(Apply(p, w, e))
  {
    var w' := Apply(p, w, e);
    match e {
      case Close(id) =>
        SubsequenceAppend(w.conn.dropping, w.enqueued, id);
      case SendFins(fins) =>
        var queue := w.conn.dropping;
        BlockedKeepsOrder(queue, fins);
        SubsequenceTrans(Blocked(queue, fins), queue, w.enqueued);
        forall id
          ensures id in queue <==> id in Blocked(queue, fins) || id in Released(queue, fins)
        {
          RoundMembers(queue, fins, id);
        }
      case _ =>
    }
  }

  /** Every id enqueued by `close_stream` is in the dropping queue, half closed or drained, and nothing else is;
      the queue is always in the order of the calls, whatever was blocked. */
  lemma {:induction false} ClosingConserved(p: Setup, run: seq<Event>, w: World)
    requires Reaches(p, run, w)
    ensures forall id :: id in w.enqueued <==> id in w.conn.dropping || id in w.conn.halfClosed || id in w.drained
    ensures Subsequence(w.conn.dropping, w.enqueued)
    ensures CloseInv(w)
  {
    if run != [] {
      var e := run[|run| - 1];
      var v := LastStep(p, run, w);
      ClosingConserved(p, run[..|run| - 1], v);
      CloseStep(p, v, e);
    }
  }

  predicate Disjoint(w: World) {
    && NoDuplicates(w.conn.dropping)
    && (forall id <- w.conn.dropping :: id !in w.conn.halfClosed && id !in w.drained)
    && w.conn.halfClosed !! w.drained
  }

  lemma DisjointStep(p: Setup, w: World, e: Event)
    requires CloseInv(w) && Disjoint(w) && Enabled(p, w, e) && NoDuplicates(Apply(p, w, e).enqueued)
    ensures Disjoint(Apply(p, w, e))
  {
    var w' := Apply(p, w, e);
    match e {
      case Close(id) =>
        if id !in w.conn.unsent {
          assert w'.enqueued == w.enqueued + [id];
          assert w'.enqueued[|w.enqueued|] == id;
          forall i | 0 <= i < |w.enqueued|
            ensures w.enqueued[i] != id
          {
            assert w'.enqueued[i] == w.enqueued[i];
          }
          assert id !in w.enqueued;
        }
      case SendFins(fins) =>
        var queue := w.conn.dropping;
        BlockedKeepsOrder(queue, fins);
        forall i, j | 0 <= i < j < |w'.conn.dropping|
          ensures w'.conn.dropping[i] != w'.conn.dropping[j]
        {
          var k, l := SubsequenceIndices(w'.conn.dropping, queue, i, j);
        }
        forall id
          ensures id in Blocked(queue, fins) ==> id in queue && id !in Released(queue, fins)
          ensures id in Released(queue, fins) ==> id in queue
        {
          RoundMembers(queue, fins, id);
        }
      case _ =>
    }
  }

  lemma EnqueuedGrows(p: Setup, w: World, e: Event)
    requires Enabled(p, w, e)
    ensures w.enqueued <= Apply(p, w, e).enqueued
  {
  }

  /** When no id is enqueued twice, it is in exactly one of the three places, once. */
  lemma {:induction false} ClosedInOnePlace(p: Setup, run: seq<Event>, w: World)
    requires Reaches(p, run, w) && NoDuplicates(w.enqueued)
    ensures Disjoint(w)
  {
    if run != [] {
      var e := run[|run| - 1];
      var v := LastStep(p, run, w);
      EnqueuedGrows(p, v, e);
      assert forall i :: 0 <= i < |v.enqueued| ==> v.enqueued[i] == w.enqueued[i];
      ClosedInOnePlace(p, run[..|run| - 1], v);
      ClosingConserved(p, run[..|run| - 1], v);
      DisjointStep(p, v, e);
    }
  }

  /** The answers for one id report, after any data, a fin or an error. */
  predicate FinOrError(replies: seq<RecvReply>) {
    exists n | 0 <= n < |replies| :: replies[n] in {Fin, RecvError} && forall i | 0 <= i < n :: replies[i] == Data
  }

  /** A stream stops being half closed exactly when quiche reports its fin or an error, all its data being skipped. */
  lemma HalfClosedLeaves(p: Setup, w: World, e: Event, id: nat)
    requires Enabled(p, w, e) && id in w.conn.halfClosed
    ensures id !in Apply(p, w, e).conn.halfClosed <==> e.Drain? && id in e.data && FinOrError(e.data[id])
  {
    if e.Drain? {
      EndsMeaning(RepliesFor(e.data, id));
    }
    hide FinOrError, Ends;
  }

  lemma {:induction false} EndsMeaning(replies: seq<RecvReply>)
    ensures Ends(replies) <==> FinOrError(replies)
  {
    if replies != [] {
      var rest := replies[1..];
      EndsMeaning(rest);
      if replies[0] == Data {
        if FinOrError(rest) {
          var n :| 0 <= n < |rest| && rest[n] in {Fin, RecvError} && forall i | 0 <= i < n :: rest[i] == Data;
          assert replies[n + 1] == rest[n];
          assert forall i | 0 < i < n + 1 :: replies[i] == rest[i - 1];
        }
        if FinOrError(replies) {
          var n :| 0 <= n < |replies| && replies[n] in {Fin, RecvError} && forall i | 0 <= i < n :: replies[i] == Data;
          assert rest[n - 1] == replies[n];
          assert forall i | 0 <= i < n - 1 :: rest[i] == replies[i + 1];
        }
      } else if replies[0] != Done {
        assert replies[0] in {Fin, RecvError};
      }
    }
  }

  // ----- Unsent streams -----

  function Opens(run: seq<Event>): nat {
    if run == [] then 0 else Opens(run[..|run| - 1]) + (if run[|run| - 1].Open? then 1 else 0)
  }

  /** Event `i` handed out `id`, and no send that quiche took, and no close, of it came after. */
  predicate OpenSince(p: Setup, run: seq<Event>, i: nat, id: nat) {
    && i < |run| && run[i].Open? && id == p.first + 4 * Opens(run[..i])
    && forall j | i < j < |run| :: run[j] != Send(id) && run[j] != Close(id)
  }

  predicate UnsentByEvents(p: Setup, run: seq<Event>, id: nat) {
    exists i | 0 <= i < |run| :: OpenSince(p, run, i, id)
  }

  lemma UnsentNext(p: Setup, run: seq<Event>, e: Event, id: nat)
    ensures UnsentByEvents(p, run + [e], id) <==>
              (e.Open? && id == p.first + 4 * Opens(run)) ||
              (UnsentByEvents(p, run, id) && e != Send(id) && e != Close(id))
  {
    hide Opens;
    var n, all := |run|, run + [e];
    assert all[..n] == run && all[n] == e;
    if e.Open? && id == p.first + 4 * Opens(run) {
      assert OpenSince(p, all, n, id);
    }
    if UnsentByEvents(p, run, id) && e != Send(id) && e != Close(id) {
      var i :| 0 <= i < n && OpenSince(p, run, i, id);
      assert all[..i] == run[..i];
      assert OpenSince(p, all, i, id);
    }
    if UnsentByEvents(p, all, id) {
      var i :| 0 <= i < n + 1 && OpenSince(p, all, i, id);
      if i < n {
        assert all[..i] == run[..i] && forall j | i < j < n :: run[j] == all[j];
        assert OpenSince(p, run, i, id);
      }
    }
  }

  ghost predicate UnsentInv(p: Setup, run: seq<Event>, w: World) {
    && Opens(run) == |w.ours|
    && (forall id <- w.conn.unsent :: id % 2 == p.first % 2)
    && forall id: nat :: id in w.conn.unsent <==> UnsentByEvents(p, run, id)
  }

  lemma UnsentStep(p: Setup, w: World, e: Event, id: nat)
    requires IdInv(p, w) && Enabled(p, w, e) && forall x <- w.conn.unsent :: x % 2 == p.first % 2
    ensures id in Apply(p, w, e).conn.unsent <==>
              (e.Open? && id == w.conn.latest) || (id in w.conn.unsent && e != Send(id) && e != Close(id))
    ensures |Apply(p, w, e).ours| == |w.ours| + (if e.Open? then 1 else 0)
  {
    hide Arrivals, Raise, RaiseAll, Blocked, Released, Remaining;
    NextIdParity(p.first, |w.ours|);
  }

  lemma {:induction false} RunKeepsUnsent(p: Setup, run: seq<Event>, w: World)
    requires Reaches(p, run, w)
    ensures UnsentInv(p, run, w)
  {
    if run != [] {
      var front, e := run[..|run| - 1], run[|run| - 1];
      var v := LastStep(p, run, w);
      RunKeepsUnsent(p, front, v);
      IdRun(p, front, v);
      NextIdParity(p.first, |v.ours|);
      assert run == front + [e];
      hide Apply, Enabled, Exec, IdInv, UnsentByEvents;
      assert v.conn.latest == p.first + 4 * |v.ours| by { IdMeans(p, v); }
      forall id: nat
        ensures id in w.conn.unsent <==> UnsentByEvents(p, run, id)
        ensures id in w.conn.unsent ==> id % 2 == p.first % 2
      {
        UnsentStep(p, v, e, id);
        UnsentNext(p, front, e, id);
      }
      UnsentStep(p, v, e, 0);
    }
  }

  lemma IdMeans(p: Setup, w: World)
    requires IdInv(p, w)
    ensures w.conn.latest == p.first + 4 * |w.ours|
  {
  }

  /** In every run, from the events alone: an id is unsent if and only if it was opened and quiche has taken no send,
      and no one has called for a close, of it since. */
  lemma UnsentExactly(p: Setup, run: seq<Event>, w: World, id: nat)
    requires Reaches(p, run, w)
    ensures id in w.conn.unsent <==> UnsentByEvents(p, run, id)
  {
    RunKeepsUnsent(p, run, w);
  }

  /** So closing a stream forgets it when nothing was sent on it, and otherwise queues it for its FIN. */
  lemma CloseExactly(p: Setup, run: seq<Event>, w: World, id: nat)
    requires Reaches(p, run, w) && Enabled(p, w, Close(id))
    ensures
      var w' := Apply(p, w, Close(id));
      if UnsentByEvents(p, run, id) then w'.enqueued == w.enqueued && w'.conn.dropping == w.conn.dropping
      else w'.enqueued == w.enqueued + [id] && w'.conn.dropping == w.conn.dropping + [id]
  {
    UnsentExactly(p, run, w, id);
    hide UnsentByEvents, Exec;
  }
}
