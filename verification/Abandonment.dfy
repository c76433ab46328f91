/** A caller of a put that is never answered, from the start of the node. */
module Abandonment {
  import opened Ids
  import opened Nodes
  import opened Options
  import opened SortedList
  import opened Closest
  import opened Lru
  import opened Socket
  import opened IterativeQueries
  import opened Statistics
  import opened RpcCore
  import opened RpcSteps
  import opened Rpcs
  import opened Callers
  import opened Phases
  import opened Channels
  import opened Actors

  function Empty(): Core { Core(Sock(0, map[]), map[], map[]) }

  /** The only lookup of a node that knows one other: it asked that node. */
  ghost predicate Lone(c: Core, k: Id, n: Node, at: nat) {
    && c.gets.Keys == {k} && c.gets[k].findNode && c.gets[k].query.closest == [n] && n.addr in c.gets[k].query.visited
    && c.puts == map[] && c.sock.issued == 2 && forall tid <- c.sock.table :: c.sock.table[tid].sentAt == at
  }

  lemma {:induction false} OnlyCandidate(crc: Crc, k: Id, n: Node)
    ensures Candidates(crc, k, [n], []) == [n]
  {
    var key, blocks := KeyFor(crc, k), BlocksFor(crc);
    assert [n] + [] == [n] && [n][..0] == [];
    assert AddAll(key, blocks, [], [n]) == AddOne(key, blocks, AddAll(key, blocks, [], []), n);
    AddKeepsSorted(key, blocks, [], n);
    assert Place(key, [], n) == [n];
  }

  lemma LoneLookup(checks: Checks, cache: Cache<Id, CachedQuery>, k: Id, n: Node, at: nat)
    requires cache.entries == []
    ensures Lone(Looked(checks, [], Empty(), cache, k, true, None, [n], [], at), k, n, at)
  {
    hide Candidates;
    OnlyCandidate(checks.crc, k, n);
    var e := NewLookup([n], true, None);
    assert Explicit([], [n]) + [] == [];
    var d := WithVisits(Empty(), k, e, [], at);
    VisitAllSpec(e.query, Empty().sock, [], at);
    assert ToVisit(e.query) == [n.addr] by {
      assert FirstK([n]) == [n];
      assert [n][..0] == [];
      assert Unvisited([n], {}) == Unvisited([], {}) + [n.addr];
    }
    VisitAllSpec(e.query, d.sock, ToVisit(d.gets[k].query), at);
  }

  /** A timeout later it is done, and reports the one node. */
  lemma LoneLookupEnds(checks: Checks, before: Core, asked: Core, ready: Core, after: Core,
                       publicAddress: Option<Addr>, report: Report, around: Around, timeout: nat, k: Id, n: Node,
                       at: nat)
    requires Lone(before, k, n, at) && around.now >= at + timeout
    requires Advanced(checks, before, asked, ready, after, publicAddress, report, around, timeout)
    ensures asked == before && report.doneGets == [(k, [n])]
  {
    hide Heard, Joined, OnlyAsked, Gained, PutsEnded, PutsCleaned;
    assert FirstK([n]) == [n];
    assert Expired(before.gets[k], before.sock.table, around.now, timeout);
    assert k in TargetsOf(report.doneGets);
    var i :| 0 <= i < |report.doneGets| && report.doneGets[i].0 == k;
    OneReport(report.doneGets, k);
  }

  lemma OneReport<T>(done: seq<(Id, T)>, k: Id)
    requires NoTargetTwice(done) && done != [] && forall i :: 0 <= i < |done| ==> done[i].0 == k
    ensures |done| == 1
  {
    var last := |done| - 1;
    assert done[0].0 == done[last].0;
  }

  lemma {:induction false} LoneLookupIsCached(c: Cache<Id, CachedQuery>, before: Core, k: Id, n: Node, at: nat,
                                              sizes: Id -> (real, real))
    requires Lru.Valid(c) && Lone(before, k, n, at)
    ensures TargetsOf([(k, [n])]) <= before.gets.Keys
    ensures Peek(CachedAll(c, before.gets, [(k, [n])], sizes), k).Some?
    ensures Peek(CachedAll(c, before.gets, [(k, [n])], sizes), k).value.nodes == [n]
  {
    hide Put, Peek;
    var gets := before.gets;
    var done := [(k, [n])];
    CachedStep(c, gets, done, 0, sizes);
    assert done[..1] == done && done[..0] == [];
    if |c.entries| >= MAX_CACHED_ITERATIVE_QUERIES {
      PopLruKeeps(c);
    }
    PutKeeps(MadeRoom(c), k, CachedQuery([n], sizes(k).0, sizes(k).1, SubnetCount([n]), true));
  }

  /** So a put that follows is accepted and left behind. */
  lemma PutAfterLoneLookup(checks: Checks, before: Core, asked: Core, ready: Core, after: Core,
                           publicAddress: Option<Addr>, report: Report, around: Around, timeout: nat, k: Id, n: Node,
                           at: nat, cached: Cache<Id, CachedQuery>, kind: PutKind)
    requires Lone(before, k, n, at) && n.token.None? && ValidToken(n, around.now)
    requires Advanced(checks, before, asked, ready, after, publicAddress, report, around, timeout)
    requires asked == before && report.doneGets == [(k, [n])]
    requires Peek(cached, k).Some? && Peek(cached, k).value.nodes == [n]
    ensures Rejection(Existing(after.puts, k), kind).None? && !SamePut(Existing(after.puts, k), kind)
    ensures LeftBehind(CachedNodes(cached, k), [], after.gets, k, around.now)
  {
    hide Advanced, Peek;
    PutsAfter(checks, before, asked, ready, after, publicAddress, report, around, timeout);
    GetsAfter(checks, before, asked, ready, after, publicAddress, report, around, timeout, k);
    assert [n] + [] == [n] && ValidToken([n][0], around.now);
    assert k !in after.puts;
  }

  /**
   * A node looks up the nodes near a target, and finds one that is recent but gave no token. A put
   * to that target a timeout later is accepted; its caller is without an answer after any schedule
   * in which nobody puts to the target again or looks up its value.
   */
  method LeaveACallerBehind(checks: Checks, timeout: nat, id: Id, k: Id, n: Node, kind: PutKind, seeds: seq<Node>,
                            around: Around, schedule: seq<Turn>) returns (actor: Actor)
    requires n.token.None? && ValidToken(n, around.now) && around.now >= timeout && Quiet(schedule, k)
    ensures actor.Valid() && 1 in actor.putAsked && actor.putAsked[1] == k && !HasAnswer(actor.putAnswered, 1)
    ensures actor.IsStuck(k)
  {
    hide Valid, Rpc.Valid, Actor.Valid, Looked, Lone, Advanced, CachedAll, Peek, Stuck, LeftBehind, PhaseOf, AllTold,
         Fed,
         JoiningAt, Fitting;
    var rpc := new Rpc(checks, timeout, [], id, false, 0);
    actor := new Actor(rpc);
    LoneLookup(checks, rpc.statistics.cached, k, n, 0);
    actor.ReceiveGet(k, true, None, WantsNodes, [n], 0);
    actor.CacheIsValid();
    ghost var before, cache := rpc.State(), rpc.statistics.cached;
    var report, asked, ready := actor.Tick(around);
    LoneLookupEnds(checks, before, asked, ready, rpc.State(), rpc.publicAddress, report, around, timeout, k, n, 0);
    LoneLookupIsCached(cache, before, k, n, 0, around.sizes);
    PutAfterLoneLookup(checks, before, asked, ready, rpc.State(), rpc.publicAddress, report, around, timeout, k, n, 0,
                       rpc.statistics.cached, kind);
    actor.ReceivePut(k, kind, [], seeds, around.now);
    actor.CallerHasNoAnswerIff(1);
    AskedByKeeps(schedule, true, actor.tickets, actor.putAsked, 1);
    actor.Run(schedule);
    actor.CallerHasNoAnswerIff(1);
  }
}
