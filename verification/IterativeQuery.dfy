/** Lookups: visiting closer and closer nodes until the closest ones were all visited and answered. */
module IterativeQueries {
  import opened Nodes
  import opened Options
  import opened Sets
  import opened Closest
  import opened Socket

  /** The part of a query that its ticks look at. */
  datatype Query = Query(closest: seq<Node>, inflight: seq<nat>, visited: set<Addr>)

  /** Two requests go to every visited address: the query's own and a ping. */
  function VisitOne(q: Query, s: Sock, addr: Addr, now: nat): (Query, Sock) {
    var (s1, tid1) := Send(s, addr, now);
    var (s2, tid2) := Send(s1, addr, now);
    (q.(inflight := q.inflight + [tid1] + [tid2], visited := q.visited + {addr}), s2)
  }

  function VisitAll(q: Query, s: Sock, addrs: seq<Addr>, now: nat): (Query, Sock) {
    if addrs == [] then (q, s)
    else
      var (p, t) := VisitAll(q, s, addrs[..|addrs| - 1], now);
      VisitOne(p, t, addrs[|addrs| - 1], now)
  }

  /** The addresses of these nodes that were not visited yet, in order and possibly repeated. */
  function Unvisited(nodes: seq<Node>, visited: set<Addr>): (r: seq<Addr>)
    ensures forall a :: a in r <==> a !in visited && exists i :: 0 <= i < |nodes| && nodes[i].addr == a
  {
    if nodes == [] then []
    else
      var init, last := nodes[..|nodes| - 1], nodes[|nodes| - 1];
      assert nodes == init + [last];
      Unvisited(init, visited) + if last.addr in visited then [] else [last.addr]
  }

  function ToVisit(q: Query): seq<Addr> { Unvisited(FirstK(q.closest), q.visited) }

  predicate AllExpired(tids: seq<nat>, t: Table, now: nat, timeout: nat) {
    forall i :: 0 <= i < |tids| ==> !ContainsTid(t, tids[i], now, timeout)
  }

  lemma ExpiredStep(tids: seq<nat>, i: nat, t: Table, now: nat, timeout: nat)
    requires i < |tids|
    ensures AllExpired(tids[..i + 1], t, now, timeout)
        <==> AllExpired(tids[..i], t, now, timeout) && !ContainsTid(t, tids[i], now, timeout)
  {
    var more := tids[..i + 1];
    assert more[i] == tids[i] && forall k :: 0 <= k < i ==> more[k] == tids[..i][k];
  }

  function TickQuery(q: Query, s: Sock, now: nat, timeout: nat): (Query, Sock, bool) {
    var (p, t) := VisitAll(q, s, ToVisit(q), now);
    (p, t, AllExpired(p.inflight, t.table, now, timeout))
  }

  // === What a visit does ===

  lemma {:induction false} VisitAllSpec(q: Query, s: Sock, addrs: seq<Addr>, now: nat)
    ensures var (p, t) := VisitAll(q, s, addrs, now);
            && p.closest == q.closest
            && (forall a :: a in p.visited <==> a in q.visited || a in addrs)
            && q.inflight <= p.inflight && |p.inflight| == |q.inflight| + 2 * |addrs|
            && t.issued == s.issued + 2 * |addrs|
            && (forall tid <- p.inflight :: tid in q.inflight || (tid in t.table && t.table[tid].sentAt == now))
            && (forall tid <- t.table :: t.table[tid].sentAt == now || (tid in s.table && t.table[tid] == s.table[tid]))
            && (addrs == [] ==> p == q && t == s)
  {
    if addrs != [] {
      var init, last := addrs[..|addrs| - 1], addrs[|addrs| - 1];
      assert addrs == init + [last];
      VisitAllSpec(q, s, init, now);
    }
  }

  /**
   * When a tick ends a lookup, the addresses of the 20 closest nodes were all visited, and
   * every request that the query ever sent was answered or has expired.
   */
  lemma DoneMeansVisitedAndAnswered(q: Query, s: Sock, now: nat, timeout: nat)
    ensures var (p, t, done) := TickQuery(q, s, now, timeout);
            && p.closest == q.closest
            && (forall n <- FirstK(p.closest) :: n.addr in p.visited)
            && (done <==> forall tid <- p.inflight :: tid !in t.table || Elapsed(now, t.table[tid].sentAt) >= timeout)
  {
    VisitAllSpec(q, s, ToVisit(q), now);
    var (p, t, done) := TickQuery(q, s, now, timeout);
    forall n <- FirstK(p.closest) ensures n.addr in p.visited {
      var i :| 0 <= i < |FirstK(q.closest)| && FirstK(q.closest)[i] == n;
      assert n.addr in q.visited || n.addr in ToVisit(q);
    }
    if done {
      forall tid <- p.inflight ensures !ContainsTid(t.table, tid, now, timeout) {
        var i :| 0 <= i < |p.inflight| && p.inflight[i] == tid;
      }
    } else {
      var i :| 0 <= i < |p.inflight| && ContainsTid(t.table, p.inflight[i], now, timeout);
      assert p.inflight[i] in p.inflight;
    }
  }

  // === Termination ===

  /** What a tick finds: the candidates and the socket after anything the network did, and the time. */
  datatype Round = Round(closest: seq<Node>, sock: Sock, now: nat)

  /** Between ticks, others may send and anything may be lost or answered, but no request of ours is resent. */
  ghost predicate NotResent(tids: seq<nat>, before: Table, after: Table) {
    forall tid <- tids :: tid in after ==> tid in before && after[tid] == before[tid]
  }

  /** Rounds in order of time, however close together, whose candidates all have addresses from `universe`. */
  ghost predicate Schedule(q: Query, t: Table, lastTick: nat, rounds: seq<Round>, universe: set<Addr>, timeout: nat)
    decreases |rounds|
  {
    if rounds == [] then true
    else
      var r := rounds[0];
      && r.now >= lastTick
      && NotResent(q.inflight, t, r.sock.table)
      && (forall n <- r.closest :: n.addr in universe)
      && var (p, s, done) := TickQuery(q.(closest := r.closest), r.sock, r.now, timeout);
         Schedule(p, s.table, r.now, rounds[1..], universe, timeout)
  }

  /** How often a whole timeout passes: a window opens at `start`, and each tick a timeout later opens the next. */
  function Windows(start: nat, rounds: seq<Round>, timeout: nat): nat
    decreases |rounds|
  {
    if rounds == [] then 0
    else if rounds[0].now >= start + timeout then 1 + Windows(rounds[0].now, rounds[1..], timeout)
    else Windows(start, rounds[1..], timeout)
  }

  ghost predicate Finishes(q: Query, rounds: seq<Round>, timeout: nat)
    decreases |rounds|
  {
    rounds != []
    && var (p, s, done) := TickQuery(q.(closest := rounds[0].closest), rounds[0].sock, rounds[0].now, timeout);
       done || Finishes(p, rounds[1..], timeout)
  }

  lemma {:induction false} VisitAllIsLater(q: Query, s: Sock, addrs: seq<Addr>, now: nat)
    ensures Later(s, VisitAll(q, s, addrs, now).1, now)
  {
    if addrs == [] {
      FewerIsLater(s, s.table, now);
    } else {
      hide Later, Send;
      var to := addrs[|addrs| - 1];
      var (p, t) := VisitAll(q, s, addrs[..|addrs| - 1], now);
      VisitAllIsLater(q, s, addrs[..|addrs| - 1], now);
      var u := Send(t, to, now).0;
      SendIsLater(t, to, now);
      SendIsLater(u, to, now);
      LaterTrans(s, t, u, now);
      LaterTrans(s, u, Send(u, to, now).0, now);
    }
  }

  /** Every request of the query that is in flight was sent no later than `t`. */
  ghost predicate SentBy(q: Query, table: Table, t: nat) {
    forall tid <- q.inflight :: tid in table ==> table[tid].sentAt <= t
  }

  /**
   * A tick either visits a new address of the universe, or sends nothing, and then it ends the
   * query if nothing was sent for a timeout.
   */
  lemma TickProgress(q: Query, s: Sock, now: nat, timeout: nat, lastTick: nat, universe: set<Addr>)
    requires SentBy(q, s.table, lastTick) && now >= lastTick && timeout > 0
    requires forall n <- q.closest :: n.addr in universe
    ensures var (p, t, done) := TickQuery(q, s, now, timeout);
            && SentBy(p, t.table, now)
            && (ToVisit(q) != [] ==> !done && universe - p.visited < universe - q.visited)
            && (ToVisit(q) == [] ==> p == q && t == s)
            && (ToVisit(q) == [] && now >= lastTick + timeout ==> done)
  {
    VisitAllSpec(q, s, ToVisit(q), now);
    var (p, t, done) := TickQuery(q, s, now, timeout);
    if ToVisit(q) == [] {
      forall i | 0 <= i < |p.inflight| && now >= lastTick + timeout
        ensures !ContainsTid(t.table, p.inflight[i], now, timeout)
      {
        assert p.inflight[i] in q.inflight;
      }
    } else {
      var a := ToVisit(q)[0];
      assert a in ToVisit(q);
      var i :| 0 <= i < |FirstK(q.closest)| && FirstK(q.closest)[i].addr == a;
      assert FirstK(q.closest)[i] in q.closest;
      assert a in universe - q.visited && a !in universe - p.visited;
      FreshRequestIsLive(q, s, ToVisit(q), now, timeout);
    }
  }

  lemma {:induction false} FreshRequestIsLive(q: Query, s: Sock, addrs: seq<Addr>, now: nat, timeout: nat)
    requires addrs != [] && timeout > 0
    ensures var (p, t) := VisitAll(q, s, addrs, now); !AllExpired(p.inflight, t.table, now, timeout)
  {
    var (p, t) := VisitAll(q, s, addrs, now);
    var last := |p.inflight| - 1;
    assert p.inflight[last] in t.table && t.table[p.inflight[last]].sentAt == now;
  }

  /**
   * `start` is when the current window opened, and `sent` whether anything was sent in it: every
   * window in which nothing is sent ends the query, and every other one visits a new address.
   */
  lemma {:induction false} WindowsEnd(q: Query, t: Table, start: nat, lastTick: nat, sent: bool, rounds: seq<Round>,
                                      universe: set<Addr>, timeout: nat)
    requires timeout > 0 && start <= lastTick && SentBy(q, t, if sent then lastTick else start)
    requires Schedule(q, t, lastTick, rounds, universe, timeout)
    requires Windows(start, rounds, timeout) > |universe - q.visited| + if sent then 1 else 0
    ensures Finishes(q, rounds, timeout)
    decreases |rounds|
  {
    var r := rounds[0];
    var q' := q.(closest := r.closest);
    TickProgress(q', r.sock, r.now, timeout, if sent then lastTick else start, universe);
    var (p, s, done) := TickQuery(q', r.sock, r.now, timeout);
    if !done {
      if ToVisit(q') != [] {
        SubsetSmaller(universe - p.visited, universe - q.visited);
      }
      if r.now >= start + timeout {
        WindowsEnd(p, s.table, r.now, r.now, false, rounds[1..], universe, timeout);
      } else {
        WindowsEnd(p, s.table, start, r.now, sent || ToVisit(q') != [], rounds[1..], universe, timeout);
      }
    }
  }

  /**
   * Over a finite universe of addresses a lookup ends, however often it is ticked and whatever the
   * network does: a timeout cannot pass more often than there are unvisited addresses.
   */
  lemma {:induction false} LookupTerminates(q: Query, t: Table, lastTick: nat, rounds: seq<Round>, universe: set<Addr>,
                                            timeout: nat)
    requires timeout > 0 && SentBy(q, t, lastTick)
    requires Schedule(q, t, lastTick, rounds, universe, timeout)
    requires Windows(lastTick, rounds, timeout) > |universe - q.visited|
    ensures Finishes(q, rounds, timeout)
  {
    WindowsEnd(q, t, lastTick, lastTick, false, rounds, universe, timeout);
  }

  /** Each tick follows the one before within `gap`. */
  ghost predicate Paced(lastTick: nat, rounds: seq<Round>, gap: nat)
    decreases |rounds|
  {
    rounds != [] ==> rounds[0].now <= lastTick + gap && Paced(rounds[0].now, rounds[1..], gap)
  }

  /** Ticks at most `gap` apart make a window of every stretch of a timeout and a gap. */
  lemma {:induction false} PacedWindows(start: nat, lastTick: nat, rounds: seq<Round>, gap: nat, timeout: nat, n: nat)
    requires Paced(lastTick, rounds, gap) && lastTick < start + timeout && timeout > 0
    requires rounds != [] && rounds[|rounds| - 1].now >= start + n * (timeout + gap)
    ensures Windows(start, rounds, timeout) >= n
    decreases |rounds|
  {
    var r, rest := rounds[0], rounds[1..];
    if n > 0 {
      OneLess(n, timeout + gap);
      if rest != [] {
        assert rest[|rest| - 1] == rounds[|rounds| - 1];
        if r.now >= start + timeout {
          PacedWindows(r.now, r.now, rest, gap, timeout, n - 1);
        } else {
          PacedWindows(start, r.now, rest, gap, timeout, n);
        }
      }
    }
  }

  lemma OneLess(n: nat, k: nat)
    requires n > 0
    ensures n * k == (n - 1) * k + k && (n - 1) * k >= 0
  {
  }

  /** With ticks at most `gap` apart, a lookup ends within one timeout and gap for each address and one more. */
  lemma {:induction false} LookupEndsInTime(q: Query, t: Table, lastTick: nat, rounds: seq<Round>, universe: set<Addr>,
                                            timeout: nat, gap: nat)
    requires timeout > 0 && SentBy(q, t, lastTick)
    requires Schedule(q, t, lastTick, rounds, universe, timeout) && Paced(lastTick, rounds, gap)
    requires rounds != []
    requires rounds[|rounds| - 1].now >= lastTick + (|universe - q.visited| + 1) * (timeout + gap)
    ensures Finishes(q, rounds, timeout)
  {
    PacedWindows(lastTick, lastTick, rounds, gap, timeout, |universe - q.visited| + 1);
    LookupTerminates(q, t, lastTick, rounds, universe, timeout);
  }

  // === The query as an object ===

  class IterativeQuery {
    var closest: seq<Node>
    var inflightRequests: seq<nat>
    var visited: set<Addr>
    var publicAddressVotes: map<Addr, nat>

    ghost function State(): Query
      reads this
    {
      Query(closest, inflightRequests, visited)
    }

    constructor ()
      ensures State() == Query([], [], {}) && publicAddressVotes == map[]
    {
      closest, inflightRequests, visited, publicAddressVotes := [], [], {}, map[];
    }

    method Visit(socket: KrpcSocket, addr: Addr, now: nat)
      requires socket.Valid()
      modifies this`inflightRequests, this`visited, socket`nextTid, socket`issued, socket.inflightRequests
      ensures socket.Valid()
      ensures (State(), socket.State()) == VisitOne(old(State()), old(socket.State()), addr, now)
    {
      var tid := socket.Request(addr, now);
      inflightRequests := inflightRequests + [tid];
      tid := socket.Request(addr, now);
      inflightRequests := inflightRequests + [tid];
      visited := visited + {addr};
    }

    method VisitClosest(socket: KrpcSocket, now: nat)
      requires socket.Valid()
      modifies this`inflightRequests, this`visited, socket`nextTid, socket`issued, socket.inflightRequests
      ensures socket.Valid()
      ensures (State(), socket.State()) == VisitAll(old(State()), old(socket.State()), ToVisit(old(State())), now)
    {
      ghost var q, s := State(), socket.State();
      var toVisit := Unvisited(FirstK(closest), visited);
      for i := 0 to |toVisit|
        invariant socket.Valid() && (State(), socket.State()) == VisitAll(q, s, toVisit[..i], now)
      {
        assert toVisit[..i + 1][..i] == toVisit[..i];
        Visit(socket, toVisit[i], now);
      }
      assert toVisit[..|toVisit|] == toVisit;
    }

    method Tick(socket: KrpcSocket, now: nat) returns (done: bool)
      requires socket.Valid()
      modifies this`inflightRequests, this`visited, socket`nextTid, socket`issued, socket.inflightRequests
      ensures socket.Valid()
      ensures (State(), socket.State(), done)
           == TickQuery(old(State()), old(socket.State()), now, socket.inflightRequests.timeout)
    {
      VisitClosest(socket, now);
      done := true;
      ghost var t, timeout := socket.inflightRequests.requests, socket.inflightRequests.timeout;
      var tids := inflightRequests;
      label Visited:
      for i := 0 to |tids|
        invariant unchanged@Visited(this, socket, socket.inflightRequests)
        invariant done <==> AllExpired(tids[..i], t, now, timeout)
      {
        ExpiredStep(tids, i, t, now, timeout);
        if socket.inflightRequests.Contains(tids[i], now) {
          done := false;
        }
      }
      assert tids[..|tids|] == tids;
    }

    method AddAddressVote(addr: Addr)
      modifies this`publicAddressVotes
      ensures publicAddressVotes
           == old(publicAddressVotes)[addr := VotesFor(old(publicAddressVotes), addr) + 1]
    {
      if addr in publicAddressVotes {
        publicAddressVotes := publicAddressVotes[addr := publicAddressVotes[addr] + 1];
      } else {
        publicAddressVotes := publicAddressVotes[addr := 1];
      }
    }

    method BestAddress() returns (best: Option<Addr>)
      ensures IsBest(publicAddressVotes, best)
    {
      best := MostVoted(publicAddressVotes);
    }
  }

  function VotesFor(votes: map<Addr, nat>, addr: Addr): nat { if addr in votes then votes[addr] else 0 }

  /** Nobody voted, or no address has more votes than this one. */
  ghost predicate IsBest(votes: map<Addr, nat>, best: Option<Addr>) {
    && (best.None? <==> forall a :: VotesFor(votes, a) == 0)
    && (best.Some? ==> forall a :: VotesFor(votes, a) <= VotesFor(votes, best.value))
  }

  /** An address with the most votes; the map is walked in any order. */
  method MostVoted(votes: map<Addr, nat>) returns (best: Option<Addr>)
    ensures IsBest(votes, best)
  {
    var max := 0;
    best := None;
    var left := votes.Keys;
    while left != {}
      invariant left <= votes.Keys
      invariant best.None? ==> max == 0
      invariant best.Some? ==> best.value in votes && votes[best.value] == max > 0
      invariant forall a :: a in votes && a !in left ==> votes[a] <= max
      decreases |left|
    {
      var addr :| addr in left;
      left := left - {addr};
      if votes[addr] > max {
        max := votes[addr];
        best := Some(addr);
      }
    }
    assert best.Some? ==> VotesFor(votes, best.value) == max;
    assert forall a :: VotesFor(votes, a) <= max;
  }
}
