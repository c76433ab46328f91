/** Why a put that is not left behind ends in time: the lookup it waits for does. */
module Progress {
  import opened Ids
  import opened Nodes
  import opened Options
  import opened Sets
  import opened SortedList
  import opened Closest
  import opened Socket
  import opened IterativeQueries
  import opened Tids
  import opened RpcCore
  import opened RpcSteps
  import opened Phases

  /** No request in flight was sent later than this. */
  ghost predicate AllSentBy(t: Table, last: nat) { forall tid <- t :: t[tid].sentAt <= last }

  /** A lookup among the addresses of the universe is active, and has sent nothing since `last`. */
  ghost predicate Looking(c: Core, k: Id, universe: set<Addr>, last: nat) {
    k in c.gets && Within(c.gets[k].query.closest, universe)
    && SentBy(c.gets[k].query, c.sock.table, last)
  }

  ghost predicate Within(ns: seq<Node>, universe: set<Addr>) { forall n <- ns :: n.addr in universe }

  /** How many addresses of the universe a lookup has yet to visit. */
  function Unseen(c: Core, k: Id, universe: set<Addr>): nat
    requires k in c.gets
  {
    |universe - c.gets[k].query.visited|
  }

  /** Whatever a packet tells a lookup to ask next is in the universe. */
  ghost predicate LearnsWithin(incoming: Incoming, universe: set<Addr>) {
    incoming.Response? ==> Within(incoming.reply.closer, universe)
  }

  // === Time passes ===

  lemma LaterSentBy(s: Sock, t: Sock, last: nat, now: nat)
    requires Later(s, t, now) && AllSentBy(s.table, last) && last <= now
    ensures AllSentBy(t.table, now)
  {
    forall tid <- t.table ensures t.table[tid].sentAt <= now {
      assert (tid in s.table && t.table[tid] == s.table[tid]) || SentSince(s, t, tid, now);
    }
  }

  /** Requests of others have other ids, so they do not make those of a query any younger. */
  lemma StillSentBy(c: Core, k: Id, t: Sock, last: nat, now: nat)
    requires Healthy(c) && k in c.gets && SentBy(c.gets[k].query, c.sock.table, last)
    requires Later(c.sock, t, now) && t.issued <= TID_COUNT
    ensures SentBy(c.gets[k].query, t.table, last)
  {
    var q, l := c.gets[k].query, ListsOf(c.puts, c.gets)(GetOwner(k));
    assert Below(l, c.sock.issued);
    forall tid <- q.inflight | tid in t.table ensures t.table[tid].sentAt <= last {
      var i :| 0 <= i < |l| && l[i] == tid;
      LaterKeepsOld(c.sock, t, tid, now);
    }
  }

  lemma {:induction false} AddAllMembers(key: Node -> Key, blocks: (Node, Node) -> bool, ns: seq<Node>,
                                         incoming: seq<Node>, universe: set<Addr>)
    requires Sorted(key, ns) && Within(ns, universe) && Within(incoming, universe)
    ensures Within(AddAll(key, blocks, ns, incoming), universe)
  {
    if incoming != [] {
      var init, last := incoming[..|incoming| - 1], incoming[|incoming| - 1];
      assert Within(init, universe);
      AddAllMembers(key, blocks, ns, init, universe);
      AddAllSorted(key, blocks, ns, init);
      AddOneMembers(key, blocks, AddAll(key, blocks, ns, init), last);
    }
  }

  // === One tick ===

  /** A lookup that asks someone has fewer left to ask. */
  lemma AskingShrinks(before: GetEntry, after: GetEntry, universe: set<Addr>)
    requires OnlyAsked(before, after) && Within(before.query.closest, universe) && ToVisit(before.query) != []
    ensures |universe - after.query.visited| < |universe - before.query.visited|
  {
    var q := before.query;
    var a := ToVisit(q)[0];
    assert a in ToVisit(q);
    var i :| 0 <= i < |FirstK(q.closest)| && FirstK(q.closest)[i].addr == a;
    assert FirstK(q.closest)[i] in q.closest;
    assert a in universe - q.visited && a !in universe - after.query.visited;
    SubsetSmaller(universe - after.query.visited, universe - q.visited);
  }

  /** A lookup that is not done has a request in flight that is younger than a timeout. */
  lemma UndoneIsYoung(q: Query, t: Table, last: nat, now: nat, timeout: nat)
    requires SentBy(q, t, last) && !AllExpired(q.inflight, t, now, timeout)
    ensures now < last + timeout
  {
    var i :| 0 <= i < |q.inflight| && ContainsTid(t, q.inflight[i], now, timeout);
    assert q.inflight[i] in q.inflight;
  }

  /** What a packet does to a lookup: its requests are the same, and it learns of nobody outside the universe. */
  lemma HearingKeeps(checks: Checks, c: Core, d: Core, publicAddress: Option<Addr>, incoming: Incoming, now: nat,
                     timeout: nat, k: Id, universe: set<Addr>)
    requires Heard(checks, c, d, publicAddress, incoming, now, timeout) && c.sock.issued <= TID_COUNT
    requires k in c.gets && Sorted(KeyFor(checks.crc, k), c.gets[k].query.closest)
    requires Within(c.gets[k].query.closest, universe) && LearnsWithin(incoming, universe)
    ensures k in d.gets && d.gets[k].query.inflight == c.gets[k].query.inflight
    ensures d.gets[k].query.visited == c.gets[k].query.visited && Within(d.gets[k].query.closest, universe)
  {
    hide Sorted, Within, Accepts, ValueIn;
    if incoming.Response? {
      AddAllMembers(KeyFor(checks.crc, k), BlocksFor(checks.crc), c.gets[k].query.closest, incoming.reply.closer,
                    universe);
    }
  }

  /**
   * A tick reports an active lookup, or finds it waiting for an answer that is not a timeout old,
   * or lets it ask someone it never asked.
   */
  lemma LookupProgresses(checks: Checks, before: Core, asked: Core, ready: Core, after: Core,
                         publicAddress: Option<Addr>, report: Report, around: Around, timeout: nat, k: Id,
                         universe: set<Addr>, last: nat)
    requires Advanced(checks, before, asked, ready, after, publicAddress, report, around, timeout)
    requires Healthy(before) && LookupsOk(checks, before.gets) && after.sock.issued <= TID_COUNT
    requires Looking(before, k, universe, last) && AllSentBy(before.sock.table, around.now)
    requires LearnsWithin(around.incoming, universe) && k !in TargetsOf(report.doneGets)
    ensures if k in after.gets && Unseen(after, k, universe) < Unseen(before, k, universe)
            then Looking(after, k, universe, around.now)
            else Looking(after, k, universe, last) && Unseen(after, k, universe) == Unseen(before, k, universe)
                 && around.now < last + timeout
  {
    hide Advanced, Healthy, LookupOk, Later, Sorted, SentBy, AllSentBy, Within, AllExpired, ToVisit, LearnsWithin;
    SortedCandidates(checks, before.gets, k);
    TickKeepsCandidates(checks, before, asked, ready, after, publicAddress, report, around, timeout, k, universe);
    if ToVisit(before.gets[k].query) == [] {
      StillSentBy(before, k, asked.sock, last, around.now);
      StillSentBy(before, k, after.sock, last, around.now);
      UndoneIsYoung(asked.gets[k].query, asked.sock.table, last, around.now, timeout);
      SameRequestsSentBy(asked.gets[k].query, after.gets[k].query, after.sock.table, last);
    } else {
      AskingShrinks(before.gets[k], asked.gets[k], universe);
      LaterSentBy(before.sock, after.sock, around.now, around.now);
      AllMeansThese(after.gets[k].query, after.sock.table, around.now);
    }
  }

  lemma SortedCandidates(checks: Checks, gets: map<Id, GetEntry>, k: Id)
    requires LookupsOk(checks, gets) && k in gets
    ensures Sorted(KeyFor(checks.crc, k), gets[k].query.closest)
  {
    assert LookupOk(checks, k, gets[k]);
  }

  lemma SameRequestsSentBy(q: Query, r: Query, t: Table, last: nat)
    requires q.inflight == r.inflight && SentBy(q, t, last)
    ensures SentBy(r, t, last)
  {
  }

  lemma AllMeansThese(q: Query, t: Table, last: nat)
    requires AllSentBy(t, last)
    ensures SentBy(q, t, last)
  {
  }

  lemma WholeTickIsLater(before: Core, asked: Core, ready: Core, after: Core, now: nat)
    requires Laters(before, asked, ready, after, now)
    ensures Later(before.sock, asked.sock, now) && Later(before.sock, after.sock, now)
    ensures before.sock.issued <= asked.sock.issued <= ready.sock.issued <= after.sock.issued
  {
    LaterTrans(asked.sock, ready.sock, after.sock, now);
    LaterTrans(before.sock, asked.sock, after.sock, now);
  }

  /** The part of a tick after the asking leaves a lookup that goes on its requests and its universe. */
  lemma TickKeepsCandidates(checks: Checks, before: Core, asked: Core, ready: Core, after: Core,
                            publicAddress: Option<Addr>, report: Report, around: Around, timeout: nat, k: Id,
                            universe: set<Addr>)
    requires Advanced(checks, before, asked, ready, after, publicAddress, report, around, timeout)
    requires k in before.gets && k !in TargetsOf(report.doneGets) && after.sock.issued <= TID_COUNT
    requires Sorted(KeyFor(checks.crc, k), before.gets[k].query.closest)
    requires Within(before.gets[k].query.closest, universe) && LearnsWithin(around.incoming, universe)
    ensures k in after.gets && k in asked.gets && OnlyAsked(before.gets[k], asked.gets[k])
    ensures after.gets[k].query.inflight == asked.gets[k].query.inflight
    ensures after.gets[k].query.visited == asked.gets[k].query.visited
    ensures after.gets[k].findNode == before.gets[k].findNode && Within(after.gets[k].query.closest, universe)
    ensures !AllExpired(asked.gets[k].query.inflight, asked.sock.table, around.now, timeout)
    ensures Later(before.sock, asked.sock, around.now) && Later(before.sock, after.sock, around.now)
    ensures asked.sock.issued <= after.sock.issued
  {
    hide PutsEnded, PutsCleaned, Heard, Sorted, Within, Later, AllExpired, FoundBy, AskedClosest, LearnsWithin,
         SameRequests;
    WholeTickIsLater(before, asked, ready, after, around.now);
    HearingKeeps(checks, ready, after, publicAddress, around.incoming, around.now, timeout, k, universe);
  }

  // === A whole schedule ===

  /** How late a put may be: `step` is a timeout and the longest time between two ticks. */
  datatype Deadline = Deadline(start: nat, timeout: nat, gap: nat)

  function Due(d: Deadline, steps: nat): nat { d.start + steps * (d.timeout + d.gap) }

  /**
   * With `tick` the time of the last tick: an unsent put waits for a lookup that asks in time, and a
   * put was sent in time.
   */
  ghost predicate OnTrack(p: Phase, c: Core, k: Id, universe: set<Addr>, last: nat, tick: nat, d: Deadline) {
    match p
    case Idle => true
    case Sent(_, at) => at <= Due(d, |universe| + 1)
    case Unsent(_) => k in c.gets && !c.gets[k].findNode && Asking(c, k, universe, last, tick, d)
  }

  /** With `tick` the time of the last tick: a lookup asks in time. */
  ghost predicate Asking(c: Core, k: Id, universe: set<Addr>, last: nat, tick: nat, d: Deadline) {
    && Looking(c, k, universe, last) && tick <= last + d.timeout && Unseen(c, k, universe) <= |universe|
    && last <= Due(d, |universe| - Unseen(c, k, universe))
  }

  lemma DueGrows(d: Deadline, few: nat, many: nat)
    requires few <= many
    ensures Due(d, few) <= Due(d, many)
    ensures Due(d, few + 1) == Due(d, few) + d.timeout + d.gap
  {
    assert many * (d.timeout + d.gap) == few * (d.timeout + d.gap) + (many - few) * (d.timeout + d.gap);
    assert (few + 1) * (d.timeout + d.gap) == few * (d.timeout + d.gap) + (d.timeout + d.gap);
  }

  lemma AskingStarts(c: Core, k: Id, universe: set<Addr>, d: Deadline)
    requires Looking(c, k, universe, d.start)
    ensures Asking(c, k, universe, d.start, d.start, d)
  {
    SubsetCard(universe - c.gets[k].query.visited, universe);
  }

  lemma TrackStarts(p: Phase, c: Core, k: Id, universe: set<Addr>, d: Deadline)
    requires p.Unsent? ==> Looking(c, k, universe, d.start) && !c.gets[k].findNode
    requires p.Sent? ==> p.at <= d.start
    ensures OnTrack(p, c, k, universe, d.start, d.start, d)
  {
    if p.Unsent? {
      AskingStarts(c, k, universe, d);
    }
  }

  /** A tick that comes in time reports a lookup or keeps it within its deadline. */
  lemma TickKeepsAsking(checks: Checks, before: Core, asked: Core, ready: Core, after: Core,
                        publicAddress: Option<Addr>, report: Report, around: Around, k: Id, universe: set<Addr>,
                        last: nat, tick: nat, d: Deadline) returns (next: nat)
    requires Advanced(checks, before, asked, ready, after, publicAddress, report, around, d.timeout)
    requires Healthy(before) && LookupsOk(checks, before.gets) && after.sock.issued <= TID_COUNT
    requires AllSentBy(before.sock.table, around.now) && LearnsWithin(around.incoming, universe)
    requires Asking(before, k, universe, last, tick, d) && around.now <= tick + d.gap
    requires k !in TargetsOf(report.doneGets)
    ensures Asking(after, k, universe, next, around.now, d)
  {
    hide Advanced, Healthy, LookupsOk, AllSentBy, LearnsWithin, Looking, Due, Unseen;
    next := last;
    WasLooking(before, k, universe, last);
    var seen := |universe| - Unseen(before, k, universe);
    DueGrows(d, seen, |universe|);
    LookupProgresses(checks, before, asked, ready, after, publicAddress, report, around, d.timeout, k, universe,
                     last);
    if k in after.gets && Unseen(after, k, universe) < Unseen(before, k, universe) {
      next := around.now;
      DueGrows(d, seen + 1, |universe| - Unseen(after, k, universe));
    }
  }

  /** A tick that comes in time keeps a put on track. */
  lemma TickKeepsTrack(checks: Checks, before: Core, asked: Core, ready: Core, after: Core,
                       publicAddress: Option<Addr>, report: Report, around: Around, p: Phase, k: Id,
                       universe: set<Addr>, last: nat, tick: nat, d: Deadline) returns (next: nat)
    requires Advanced(checks, before, asked, ready, after, publicAddress, report, around, d.timeout)
    requires Healthy(before) && LookupsOk(checks, before.gets) && after.sock.issued <= TID_COUNT
    requires AllSentBy(before.sock.table, around.now) && LearnsWithin(around.incoming, universe)
    requires OnTrack(p, before, k, universe, last, tick, d) && around.now <= tick + d.gap
    ensures OnTrack(Next(p, k, TickEvent(asked.gets, report, around.now)), after, k, universe, next, around.now, d)
  {
    hide Advanced, Healthy, LookupsOk, AllSentBy, LearnsWithin, Looking, FoundSome, FoundNobody, Due, Unseen;
    next := last;
    if p.Unsent? {
      WasLooking(before, k, universe, last);
      GetsAfter(checks, before, asked, ready, after, publicAddress, report, around, d.timeout, k);
      FoundInGets(asked.gets, report.doneGets, k);
      if k in TargetsOf(report.doneGets) {
        DueGrows(d, |universe| - Unseen(before, k, universe), |universe|);
        DueGrows(d, |universe|, |universe|);
      } else {
        next := TickKeepsAsking(checks, before, asked, ready, after, publicAddress, report, around, k, universe, last,
                                tick, d);
      }
    }
  }

  lemma WasLooking(c: Core, k: Id, universe: set<Addr>, last: nat)
    requires Looking(c, k, universe, last)
    ensures k in c.gets
  {
  }

  /** Callers of other targets do not disturb a lookup. */
  ghost predicate Undisturbed(c: Core, d: Core, now: nat) {
    Later(c.sock, d.sock, now) && forall k :: k in c.gets ==> k in d.gets && d.gets[k] == c.gets[k]
  }

  lemma UndisturbedItself(c: Core, now: nat)
    ensures Undisturbed(c, c, now)
  {
  }

  lemma UndisturbedGrows(c: Core, d: Core, now: nat)
    requires Undisturbed(c, d, now)
    ensures c.sock.issued <= d.sock.issued
  {
  }

  lemma JoinedUndisturbed(c: Core, d: Core, findNode: bool, now: nat)
    requires Joined(c, d.(puts := c.puts), findNode) && Later(c.sock, d.sock, now)
    ensures Undisturbed(c, d, now)
  {
    hide Later;
  }

  lemma UndisturbedStaysOnTrack(p: Phase, c: Core, d: Core, now: nat, k: Id, universe: set<Addr>, last: nat,
                                tick: nat, deadline: Deadline)
    requires OnTrack(p, c, k, universe, last, tick, deadline) && Undisturbed(c, d, now) && Healthy(c)
    requires d.sock.issued <= TID_COUNT
    ensures OnTrack(p, d, k, universe, last, tick, deadline)
  {
    hide Later, Healthy, SentBy, Within, Due;
    if p.Unsent? {
      StillSentBy(c, k, d.sock, last, now);
    }
  }

  lemma UndisturbedStaysAsking(c: Core, d: Core, now: nat, k: Id, universe: set<Addr>, last: nat, tick: nat,
                               deadline: Deadline)
    requires Asking(c, k, universe, last, tick, deadline) && Undisturbed(c, d, now) && Healthy(c)
    requires d.sock.issued <= TID_COUNT
    ensures Asking(d, k, universe, last, tick, deadline)
  {
    hide Later, Healthy, SentBy, Within, Due;
    StillSentBy(c, k, d.sock, last, now);
  }

  /** A whole turn that comes in time reports a lookup or keeps it within its deadline. */
  lemma TurnKeepsAsking(checks: Checks, before: Core, middle: Core, asked: Core, ready: Core, after: Core,
                        publicAddress: Option<Addr>, report: Report, around: Around, k: Id, universe: set<Addr>,
                        last: nat, tick: nat, at: nat, d: Deadline) returns (next: nat)
    requires Undisturbed(before, middle, at) && Healthy(before) && Healthy(middle) && LookupsOk(checks, middle.gets)
    requires Advanced(checks, middle, asked, ready, after, publicAddress, report, around, d.timeout)
    requires middle.sock.issued <= after.sock.issued <= TID_COUNT && LearnsWithin(around.incoming, universe)
    requires AllSentBy(before.sock.table, tick) && tick <= at <= around.now <= tick + d.gap
    requires Asking(before, k, universe, last, tick, d) && k !in TargetsOf(report.doneGets)
    ensures AllSentBy(after.sock.table, around.now) && Asking(after, k, universe, next, around.now, d)
  {
    hide Advanced, Healthy, LookupsOk, LearnsWithin, Asking, Later, Undisturbed;
    UndisturbedStaysAsking(before, middle, at, k, universe, last, tick, d);
    UndisturbedIsLater(before, middle, at);
    LaterSentBy(before.sock, middle.sock, tick, at);
    next := TickKeepsAsking(checks, middle, asked, ready, after, publicAddress, report, around, k, universe, last,
                            tick, d);
    AdvancedIsLater(checks, middle, asked, ready, after, publicAddress, report, around, d.timeout);
    LaterSentBy(middle.sock, after.sock, around.now, around.now);
  }

  lemma UndisturbedIsLater(c: Core, d: Core, now: nat)
    requires Undisturbed(c, d, now)
    ensures Later(c.sock, d.sock, now)
  {
  }

  /** A whole turn that comes in time: a message about something else, then a tick. */
  lemma TurnKeepsTrack(checks: Checks, before: Core, middle: Core, asked: Core, ready: Core, after: Core,
                       publicAddress: Option<Addr>, report: Report, around: Around, p: Phase, k: Id,
                       universe: set<Addr>, last: nat, tick: nat, at: nat, d: Deadline) returns (next: nat)
    requires Undisturbed(before, middle, at) && Healthy(before) && Healthy(middle) && LookupsOk(checks, middle.gets)
    requires Advanced(checks, middle, asked, ready, after, publicAddress, report, around, d.timeout)
    requires middle.sock.issued <= after.sock.issued <= TID_COUNT && LearnsWithin(around.incoming, universe)
    requires AllSentBy(before.sock.table, tick) && tick <= at <= around.now <= tick + d.gap
    requires OnTrack(p, before, k, universe, last, tick, d)
    ensures AllSentBy(after.sock.table, around.now)
    ensures OnTrack(Next(p, k, TickEvent(asked.gets, report, around.now)), after, k, universe, next, around.now, d)
  {
    hide Advanced, Healthy, LookupsOk, LearnsWithin, OnTrack, Later, Next, TickEvent;
    UndisturbedStaysOnTrack(p, before, middle, at, k, universe, last, tick, d);
    LaterSentBy(before.sock, middle.sock, tick, at);
    next := TickKeepsTrack(checks, middle, asked, ready, after, publicAddress, report, around, p, k, universe, last,
                           tick, d);
    AdvancedIsLater(checks, middle, asked, ready, after, publicAddress, report, around, d.timeout);
    LaterSentBy(middle.sock, after.sock, around.now, around.now);
  }

  lemma AdvancedIsLater(checks: Checks, before: Core, asked: Core, ready: Core, after: Core,
                        publicAddress: Option<Addr>, report: Report, around: Around, timeout: nat)
    requires Advanced(checks, before, asked, ready, after, publicAddress, report, around, timeout)
    ensures Later(before.sock, after.sock, around.now)
  {
    hide Later, PutsEnded, PutsCleaned, Heard, OnlyHeard, GetsReported, Joined, OnlyAsked;
    WholeTickIsLater(before, asked, ready, after, around.now);
  }

  /** A lookup that is still asking is not past its deadline. */
  lemma AskingEnds(c: Core, k: Id, universe: set<Addr>, last: nat, tick: nat, d: Deadline)
    requires Asking(c, k, universe, last, tick, d)
    ensures tick <= Due(d, |universe| + 1)
  {
    hide Looking, Due, Unseen;
    WasLooking(c, k, universe, last);
    DueGrows(d, |universe|, |universe|);
    DueGrows(d, |universe| - Unseen(c, k, universe), |universe|);
  }

  /** When the deadline is past, a put on track has ended. */
  lemma TrackEnds(p: Phase, c: Core, k: Id, universe: set<Addr>, last: nat, tick: nat, d: Deadline)
    requires OnTrack(p, c, k, universe, last, tick, d) && tick > Due(d, |universe| + 2)
    requires p.Sent? ==> p.at == tick || tick < p.at + d.timeout
    ensures p.Idle?
  {
    hide Looking, Due, Unseen;
    DueGrows(d, |universe|, |universe|);
    DueGrows(d, |universe| + 1, |universe| + 1);
    if p.Unsent? {
      WasLooking(c, k, universe, last);
      DueGrows(d, |universe| - Unseen(c, k, universe), |universe|);
    }
  }
}
