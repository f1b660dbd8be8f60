/** The client connection pool of crates/net/quic/src/conn_pool.rs.  It works under one lock, so calls do not
    overlap.  What the connections answer, and whether a new one can be made, comes in as arguments. */
module QuicPool {
  import opened Options
  import QuicRuns

  datatype Found = Reused(id: nat) | Connected(id: nat) | ConnectFailed | WouldBlock

  function CreditOf(credit: map<nat, nat>, id: nat): nat {
    if id in credit then credit[id] else 0
  }

  /** Connections that are open and have credit. */
  function Usable(conns: set<nat>, closed: set<nat>, credit: map<nat, nat>): set<nat> {
    set id | id in conns && id !in closed && CreditOf(credit, id) > 0
  }

  /** What one search may answer and leave behind.  The order of the map is open, so any usable one may be found;
      closed ones go only when none is. */
  predicate Finds(max: nat, conns: set<nat>, closed: set<nat>, credit: map<nat, nat>,
    made: Option<nat>, r: Found, conns': set<nat>) {
    var usable, alive := Usable(conns, closed, credit), conns - closed;
    if usable != {} then r.Reused? && r.id in usable && conns' == conns
    else if |alive| >= max then r == WouldBlock && conns' == alive
    else match made
         case None => r == ConnectFailed && conns' == alive
         case Some(id) => r == Connected(id) && conns' == alive + {id}
  }

  class RawConnPool {
    var maxConns: nat
    var conns: set<nat>

    constructor (max: nat)
      ensures maxConns == max && conns == {}
    {
      maxConns, conns := max, {};
    }

    /** `find_avalid_conn`. */
    method FindAvailable(closed: set<nat>, credit: map<nat, nat>, made: Option<nat>) returns (r: Found)
      modifies this`conns
      ensures Finds(maxConns, old(conns), closed, credit, made, r, conns)
    {
      var todo, gone := conns, {};
      while todo != {}
        invariant todo <= conns && conns == old(conns)
        invariant gone == (conns - todo) * closed
        invariant forall id <- conns - todo :: id in closed || CreditOf(credit, id) == 0
        decreases todo
      {
        var id :| id in todo;
        todo := todo - {id};
        if id in closed {
          gone := gone + {id};
        } else if CreditOf(credit, id) > 0 {
          return Reused(id);
        }
      }
      assert Usable(conns, closed, credit) == {};
      assert conns - gone == conns - closed;
      conns := conns - gone;
      if |conns| >= maxConns {
        return WouldBlock;
      }
      match made {
        case None => return ConnectFailed;
        case Some(id) =>
          conns := conns + {id};
          return Connected(id);
      }
    }
  }

  /** No search takes the pool over its size; a search that hands out an old connection had credit on it; and
      a search is refused exactly when every open connection is out of credit and they fill the pool. */
  lemma FindKeepsSize(max: nat, conns: set<nat>, closed: set<nat>, credit: map<nat, nat>,
    made: Option<nat>, r: Found, conns': set<nat>)
    requires |conns| <= max && Finds(max, conns, closed, credit, made, r, conns')
    ensures |conns'| <= max
    ensures r.Reused? ==> r.id in conns && r.id !in closed && CreditOf(credit, r.id) > 0
    ensures r.WouldBlock? <==> |conns - closed| >= max && forall id <- conns - closed :: CreditOf(credit, id) == 0
  {
    var alive := conns - closed;
    SmallerSet(alive, conns);
    if forall id <- alive :: CreditOf(credit, id) == 0 {
      assert Usable(conns, closed, credit) == {};
    } else {
      var id :| id in alive && CreditOf(credit, id) != 0;
      assert id in Usable(conns, closed, credit);
    }
    if r.Connected? && r.id in alive {
      assert alive + {r.id} == alive;
    }
  }

  lemma {:induction false} SmallerSet(a: set<nat>, b: set<nat>)
    requires a <= b
    ensures |a| <= |b|
  {
    assert b == a + (b - a) && a !! (b - a);
  }

  // ----- What the pool can carry -----

  /** The pool and, per stream opened so far, the connection it went to, closed ones included. */
  datatype Pool = Pool(conns: set<nat>, streams: multiset<nat>)

  /** What a connection with limit `limit` reports after `n` streams: see `ReportsAgree`. */
  function Report(limit: nat, n: nat): nat {
    if limit > n + 1 then limit - 1 - n else 0
  }

  function Reports(limit: nat, p: Pool): map<nat, nat> {
    map id | id in p.conns :: Report(limit, p.streams[id])
  }

  /** A connection of the pool and how it came to where it is. */
  datatype Link = Link(setup: QuicRuns.Setup, run: seq<QuicRuns.Event>, world: QuicRuns.World)

  /** Its limit is still the first one, nothing was closed before its first send, and first sends came in the order
      of the ids. */
  ghost predicate InOrder(limit: nat, l: Link) {
    && QuicRuns.Started(l.setup) && QuicRuns.PeerOpened(l.setup) && QuicRuns.Reaches(l.setup, l.run, l.world)
    && l.world.initial == l.world.limit == limit && l.world.early == {} && QuicRuns.Late(l.world) == {}
  }

  /** The reports that the pool theorems start from are those of the connections themselves. */
  lemma ReportsAgree(limit: nat, p: Pool, links: map<nat, Link>)
    requires links.Keys == p.conns
    requires forall id <- links :: InOrder(limit, links[id]) && |links[id].world.ours| == p.streams[id]
    ensures Reports(limit, p) == map id | id in links :: QuicRuns.Reported(links[id].world)
  {
    forall id | id in links
      ensures QuicRuns.Reported(links[id].world) == Report(limit, p.streams[id])
    {
      QuicRuns.Capacity(links[id].setup, links[id].run, links[id].world);
    }
  }

  /** One `open_stream` of the pool: which connections were closed by then, whether connecting worked and with which
      new id, and the answer. */
  datatype Call = Call(closed: set<nat>, made: Option<nat>, found: Found)

  predicate Opens(max: nat, limit: nat, p: Pool, c: Call, p': Pool) {
    && (c.made.Some? ==> c.made.value !in p.conns && c.made.value !in p.streams)
    && Finds(max, p.conns, c.closed, Reports(limit, p), c.made, c.found, p'.conns)
    && p'.streams == match c.found
                     case Reused(id) => p.streams + multiset{id}
                     case Connected(id) => p.streams + multiset{id}
                     case _ => p.streams
  }

  predicate Run(max: nat, limit: nat, states: seq<Pool>, calls: seq<Call>) {
    && |states| == |calls| + 1
    && states[0] == Pool({}, multiset{})
    && forall i | 0 <= i < |calls| :: Opens(max, limit, states[i], calls[i], states[i + 1])
  }

  predicate Balanced(max: nat, limit: nat, p: Pool) {
    && |p.conns| <= max
    && forall id <- p.conns :: p.streams[id] <= limit - 1
  }

  lemma OpensKeepsBalance(max: nat, limit: nat, p: Pool, c: Call, p': Pool)
    requires limit >= 2 && Balanced(max, limit, p) && Opens(max, limit, p, c, p')
    ensures Balanced(max, limit, p')
  {
    FindKeepsSize(max, p.conns, c.closed, Reports(limit, p), c.made, c.found, p'.conns);
    forall id | id in p'.conns
      ensures p'.streams[id] <= limit - 1
    {
      if id !in p.conns {
        assert p.streams[id] == 0;
      }
    }
  }

  lemma {:induction false} RunKeepsBalance(max: nat, limit: nat, states: seq<Pool>, calls: seq<Call>)
    requires limit >= 2 && Run(max, limit, states, calls)
    ensures Balanced(max, limit, states[|calls|])
  {
    if calls != [] {
      var n := |calls| - 1;
      RunKeepsBalance(max, limit, states[..n + 1], calls[..n]);
      assert Opens(max, limit, states[n], calls[n], states[n + 1]);
      OpensKeepsBalance(max, limit, states[n], calls[n], states[n + 1]);
    }
  }

  /** How many streams the connections of `s` carry. */
  ghost function Carried(m: multiset<nat>, s: set<nat>): nat
    decreases |s|
  {
    if s == {} then 0
    else
      var y :| y in s;
      m[y] + Carried(m, s - {y})
  }

  /** The sum does not depend on where it starts. */
  lemma {:induction false} CarriedFrom(m: multiset<nat>, s: set<nat>, y: nat)
    requires y in s
    ensures Carried(m, s) == m[y] + Carried(m, s - {y})
    decreases |s|
  {
    var z :| z in s && Carried(m, s) == m[z] + Carried(m, s - {z});
    if z != y {
      CarriedFrom(m, s - {z}, y);
      CarriedFrom(m, s - {y}, z);
      assert s - {z} - {y} == s - {y} - {z};
    }
  }

  /** At most `k` each from `s`, so at most `k * |s|` in all, and that many only if each has `k`. */
  lemma {:induction false} FullCount(m: multiset<nat>, s: set<nat>, k: nat)
    requires forall x <- s :: m[x] <= k
    ensures Carried(m, s) <= k * |s|
    ensures Carried(m, s) == k * |s| <==> forall x <- s :: m[x] == k
    decreases |s|
  {
    if s != {} {
      var y :| y in s;
      var s' := s - {y};
      CarriedFrom(m, s, y);
      FullCount(m, s', k);
      assert |s| == |s'| + 1;
      NextMultiple(k, |s'|);
      hide Carried;
      assert (forall x <- s :: m[x] == k) <==> m[y] == k && forall x <- s' :: m[x] == k;
    }
  }

  lemma NextMultiple(k: nat, n: nat)
    ensures k * (n + 1) == k * n + k
  {
  }

  lemma {:induction false} FewerConns(max: nat, k: nat, n: nat)
    requires n < max && k > 0
    ensures k * n < k * max
    decreases max
  {
    assert k * max == k * (max - 1) + k;
    if n < max - 1 {
      FewerConns(max - 1, k, n);
    }
  }

  /** The promise of the pool: with a stream limit of `limit`, `open_stream` is refused exactly when the connections
      that are open then carry `(limit - 1) * max` streams, however connections were picked, closed or failed to be
      made before. */
  lemma RefusedExactlyWhenFull(max: nat, limit: nat, states: seq<Pool>, calls: seq<Call>)
    requires limit >= 2 && Run(max, limit, states, calls) && calls != []
    ensures
      var n := |calls| - 1;
      calls[n].found.WouldBlock? <==>
        Carried(states[n].streams, states[n].conns - calls[n].closed) == (limit - 1) * max
  {
    var n := |calls| - 1;
    RunKeepsBalance(max, limit, states[..n + 1], calls[..n]);
    assert Opens(max, limit, states[n], calls[n], states[n + 1]);
    RefusedWhenFull(max, limit, states[n], calls[n], states[n + 1]);
  }

  lemma RefusedWhenFull(max: nat, limit: nat, p: Pool, c: Call, p': Pool)
    requires limit >= 2 && Balanced(max, limit, p) && Opens(max, limit, p, c, p')
    ensures c.found.WouldBlock? <==> Carried(p.streams, p.conns - c.closed) == (limit - 1) * max
  {
    hide Carried, Finds;
    var open := p.conns - c.closed;
    FindKeepsSize(max, p.conns, c.closed, Reports(limit, p), c.made, c.found, p'.conns);
    FullCount(p.streams, open, limit - 1);
    SmallerSet(open, p.conns);
    forall id | id in open
      ensures CreditOf(Reports(limit, p), id) == 0 <==> p.streams[id] == limit - 1
    {
    }
    if |open| < max {
      FewerConns(max, limit - 1, |open|);
    }
  }

  // ----- What the pool keeps -----

  /** Call `k` found `id` closed and removed it: no search that answers `Reused` removes anything. */
  predicate Removes(c: Call, id: nat) {
    id in c.closed && !c.found.Reused?
  }

  predicate KeptSince(calls: seq<Call>, i: nat, id: nat) {
    forall k | i < k < |calls| :: !Removes(calls[k], id)
  }

  predicate MadeAt(calls: seq<Call>, i: nat, id: nat) {
    i < |calls| && calls[i].found == Connected(id) && KeptSince(calls, i, id)
  }

  /** Some call connected `id`, and none since removed it. */
  predicate ConnectedBy(calls: seq<Call>, id: nat) {
    exists i | 0 <= i < |calls| :: MadeAt(calls, i, id)
  }

  lemma ConnectedNext(calls: seq<Call>, c: Call, id: nat)
    ensures ConnectedBy(calls + [c], id) <==> c.found == Connected(id) || (ConnectedBy(calls, id) && !Removes(c, id))
  {
    hide Removes;
    var n, all := |calls|, calls + [c];
    if c.found == Connected(id) {
      assert MadeAt(all, n, id);
    }
    if ConnectedBy(calls, id) && !Removes(c, id) {
      var i :| 0 <= i < n && MadeAt(calls, i, id);
      assert forall k | i < k < n + 1 :: !Removes(all[k], id);
      assert MadeAt(all, i, id);
    }
    if ConnectedBy(all, id) && c.found != Connected(id) {
      var i :| 0 <= i < n + 1 && MadeAt(all, i, id);
      assert all[n] == c && forall k | i < k < n :: calls[k] == all[k];
      assert MadeAt(calls, i, id);
    }
  }

  /** What one call adds and removes. */
  lemma FindKeeps(max: nat, limit: nat, p: Pool, c: Call, p': Pool, id: nat)
    requires Opens(max, limit, p, c, p')
    ensures id in p'.conns <==> c.found == Connected(id) || (id in p.conns && !Removes(c, id))
  {
  }

  /** In every run the pool holds exactly the connections that some call made and no later one found closed and
      removed. */
  lemma {:induction false} HoldsWhatItMade(max: nat, limit: nat, states: seq<Pool>, calls: seq<Call>, id: nat)
    requires Run(max, limit, states, calls)
    ensures id in states[|calls|].conns <==> ConnectedBy(calls, id)
  {
    if calls != [] {
      var n := |calls| - 1;
      var front, c := calls[..n], calls[n];
      assert Opens(max, limit, states[n], c, states[n + 1]);
      HoldsWhatItMade(max, limit, states[..n + 1], front, id);
      FindKeeps(max, limit, states[n], c, states[n + 1], id);
      ConnectedNext(front, c, id);
      assert calls == front + [c];
      hide Opens, Removes, ConnectedBy;
    }
  }

  /** A connection made earlier, open and with streams to spare, is not passed over: the next call reuses one. */
  lemma ReusesWhatItMade(max: nat, limit: nat, states: seq<Pool>, calls: seq<Call>, i: nat)
    requires Run(max, limit, states, calls) && i < |calls| - 1 && calls[i].found.Connected?
    requires
      var n, id := |calls| - 1, calls[i].found.id;
      && KeptSince(calls[..n], i, id)
      && id !in calls[n].closed && states[n].streams[id] + 1 < limit
    ensures
      var n := |calls| - 1;
      && calls[n].found.Reused?
      && calls[n].found.id in states[n].conns && calls[n].found.id !in calls[n].closed
      && states[n].streams[calls[n].found.id] + 1 < limit
  {
    var n, id := |calls| - 1, calls[i].found.id;
    HoldsWhatItMade(max, limit, states[..n + 1], calls[..n], id);
    assert MadeAt(calls[..n], i, id);
    assert Opens(max, limit, states[n], calls[n], states[n + 1]);
    assert id in Usable(states[n].conns, calls[n].closed, Reports(limit, states[n]));
  }

  /** A pool of one connection with a limit of 2: the first stream connects, the second is refused. */
  lemma FullPoolRefuses()
    ensures exists states: seq<Pool>, calls: seq<Call> | Run(1, 2, states, calls) && calls != [] ::
              calls[0].found.Connected? && calls[|calls| - 1].found.WouldBlock?
  {
    var p0, p1 := Pool({}, multiset{}), Pool({7}, multiset{7});
    var c0, c1 := Call({}, Some(7), Connected(7)), Call({}, Some(8), WouldBlock);
    assert Usable({}, {}, Reports(2, p0)) == {};
    assert Opens(1, 2, p0, c0, p1);
    assert Usable({7}, {}, Reports(2, p1)) == {};
    assert {7} - {} == {7} && |{7}| == 1;
    assert Opens(1, 2, p1, c1, p1);
    var states, calls := [p0, p1, p1], [c0, c1];
    assert Run(1, 2, states, calls);
  }
}
