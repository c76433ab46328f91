/** The tables of active queries as values, and what every way of changing them keeps. */
module RpcCore {
  import opened Ids
  import opened Nodes
  import opened Options
  import opened Socket
  import opened IterativeQueries
  import opened PutQueries
  import opened Mutable
  import opened Tids

  /** Only puts of mutable items meet the conflict rules. */
  datatype PutKind = Plain | Signed(put: PutMutable)

  /** What a lookup can hand to its callers. */
  datatype Value = PeersValue(peers: seq<Addr>) | ImmutableValue(v: Bytes) | MutableValue(item: MutableItem)

  // The addresses asked, and when, and the answers so far are kept beside a put's transaction ids and counters.
  datatype PutEntry = PutEntry(kind: PutKind, state: PutState, extra: seq<Node>, asked: seq<Addr>, sentAt: nat,
                               answers: seq<Answer>)

  datatype GetEntry =
    GetEntry(query: Query, findNode: bool, salt: Option<Bytes>, responders: seq<Node>, votes: map<Addr, nat>,
             responses: seq<Value>)

  function NewEntry(kind: PutKind, extra: seq<Node>): PutEntry {
    PutEntry(kind, NewPut(kind.Signed?), extra, [], 0, [])
  }

  function NewLookup(candidates: seq<Node>, findNode: bool, salt: Option<Bytes>): GetEntry {
    GetEntry(Query(candidates, [], {}), findNode, salt, [], map[], [])
  }

  datatype Core = Core(sock: Sock, puts: map<Id, PutEntry>, gets: map<Id, GetEntry>)

  function ListsOf(puts: map<Id, PutEntry>, gets: map<Id, GetEntry>): Lists {
    (o: Owner) =>
      match o
      case PutOwner(t) => if t in puts then puts[t].state.inflight else []
      case GetOwner(t) => if t in gets then gets[t].query.inflight else []
  }

  /** The open requests of a put are those it sent when it started, to the nodes it asked then. */
  ghost predicate SentToAsked(e: PutEntry, t: Table) {
    && |e.asked| == |e.state.inflight|
    && forall i :: 0 <= i < |e.asked| && e.state.inflight[i] in t ==>
         t[e.state.inflight[i]] == Inflight(e.asked[i], e.sentAt)
  }

  /** What a put counts is what it was answered, and no tick before its last answer had rejected it. */
  ghost predicate Logged(e: PutEntry) {
    && e.state.isMutable == e.kind.Signed?
    && e.state.storedAt == Acks(e.answers) % 256 && e.state.errors == TallyAll(Refusals(e.answers))
    && (!Started(e.state) ==> e.answers == [])
    && (e.kind.Signed? ==> Unrejected(|e.state.inflight|, Refusals(e.answers)))
  }

  ghost predicate AllLogged(puts: map<Id, PutEntry>) { forall k :: k in puts ==> Logged(puts[k]) }

  /** Nor does it reject the put now: so it is after a tick. */
  ghost predicate Settled(e: PutEntry) {
    e.kind.Signed? ==> MajorityRejected(|e.state.inflight|, e.state.errors) == None
  }

  ghost predicate AllSettled(puts: map<Id, PutEntry>) { forall k :: k in puts ==> Settled(puts[k]) }

  /** No put query has more answers than it sent requests. */
  ghost predicate AllBounded(puts: map<Id, PutEntry>, t: Table) {
    forall k :: k in puts ==> WithinRequests(puts[k], t)
  }

  ghost predicate WithinRequests(e: PutEntry, t: Table) {
    AnswersBounded(|e.answers|, e.state.inflight, t) && SentToAsked(e, t)
  }

  /** The open requests of a lookup went to addresses it has visited. */
  ghost predicate SentToVisited(q: Query, t: Table) {
    forall tid <- q.inflight :: tid in t ==> t[tid].to in q.visited
  }

  ghost predicate AllVisited(gets: map<Id, GetEntry>, t: Table) {
    forall k :: k in gets ==> SentToVisited(gets[k].query, t)
  }

  /**
   * Puts count what they were answered. While fewer than 2^32 requests were issued, the lists are
   * disjoint, answers are bounded, and open requests went to the addresses the query asked.
   */
  ghost predicate Healthy(c: Core) {
    && AllLogged(c.puts)
    && (c.sock.issued <= TID_COUNT ==>
          && TidInv(ListsOf(c.puts, c.gets), c.sock.issued)
          && AllBounded(c.puts, c.sock.table) && AllVisited(c.gets, c.sock.table))
  }

  lemma OthersBounded(puts: map<Id, PutEntry>, gets: map<Id, GetEntry>, issued: nat, t: Table, u: Table)
    requires TidInv(ListsOf(puts, gets), issued) && AllBounded(puts, t) && AllVisited(gets, t)
    requires forall tid :: tid < issued && tid in u ==> tid in t && u[tid] == t[tid]
    ensures AllBounded(puts, u) && AllVisited(gets, u)
  {
    forall k | k in puts ensures WithinRequests(puts[k], u) {
      var l := ListsOf(puts, gets)(PutOwner(k));
      assert Below(l, issued);
      forall tid | tid in puts[k].state.inflight && tid in u ensures tid in t {
        var i :| 0 <= i < |l| && l[i] == tid;
      }
      assert WithinRequests(puts[k], t);
      FewerOutstanding(|puts[k].answers|, puts[k].state.inflight, t, u);
    }
    forall k | k in gets ensures SentToVisited(gets[k].query, u) {
      var l := ListsOf(puts, gets)(GetOwner(k));
      assert Below(l, issued);
      forall tid <- gets[k].query.inflight | tid in u ensures u[tid].to in gets[k].query.visited {
        var i :| 0 <= i < |l| && l[i] == tid;
        assert SentToVisited(gets[k].query, t);
      }
    }
  }

  // === Starting a put ===

  function WithPut(c: Core, target: Id, e: PutEntry, closest: seq<Node>, now: nat): (Core, Option<PutError>) {
    var (p, s, error) := Start(e.state, c.sock, closest, e.extra, now);
    var asked := if closest == [] then [] else Holders(closest + e.extra);
    (Core(s, c.puts[target := e.(state := p, asked := asked, sentAt := now)], c.gets), error)
  }

  lemma {:induction false} StartAsks(c: Core, target: Id, e: PutEntry, closest: seq<Node>, now: nat)
    requires e.state.inflight == [] && WithPut(c, target, e, closest, now).0.sock.issued <= TID_COUNT
    ensures var d := WithPut(c, target, e, closest, now).0;
            && SentToAsked(d.puts[target], d.sock.table)
            && d.puts[target].asked == if closest == [] then [] else Holders(closest + e.extra)
  {
    if closest != [] {
      var tos := Holders(closest + e.extra);
      SendAllSent(c.sock, tos, now);
      SendAllSpec(c.sock, tos, now);
      var (u, tids) := SendAll(c.sock, tos, now);
      assert [] + tids == tids;
    }
  }

  lemma StartKeepsTids(c: Core, target: Id, e: PutEntry, closest: seq<Node>, now: nat)
    requires Healthy(c) && e.state.inflight == []
    requires WithPut(c, target, e, closest, now).0.sock.issued <= TID_COUNT
    ensures var d := WithPut(c, target, e, closest, now).0;
            && c.sock.issued <= d.sock.issued && OldKept(c.sock.table, d.sock.table, c.sock.issued)
            && TidInv(ListsOf(d.puts, d.gets), d.sock.issued)
  {
    hide AllBounded;
    var d := WithPut(c, target, e, closest, now).0;
    var new_ := StartTids(e.state, c.sock, closest, e.extra, now);
    ConsecutiveIsNew(new_, c.sock.issued);
    TakeNewTids(ListsOf(c.puts, c.gets), c.sock.issued, ListsOf(d.puts, d.gets), d.sock.issued,
                PutOwner(target), [], new_);
  }

  /** A start changes the put of its target and the socket. */
  lemma StartChanges(c: Core, target: Id, e: PutEntry, closest: seq<Node>, now: nat)
    ensures var (d, error) := WithPut(c, target, e, closest, now);
            && d.gets == c.gets && target in d.puts && d.puts == c.puts[target := d.puts[target]]
            && (Logged(e) && e.state.inflight == [] ==> Logged(d.puts[target]))
            && d.puts[target].answers == e.answers
            && (closest != [] ==> error == None)
            && c.sock.issued <= d.sock.issued
  {
    SendAllSent(c.sock, Holders(closest + e.extra), now);
  }

  lemma StartKeepsHealthy(c: Core, target: Id, e: PutEntry, closest: seq<Node>, now: nat)
    requires Healthy(c) && e.state.inflight == [] && Logged(e)
    ensures Healthy(WithPut(c, target, e, closest, now).0)
    ensures closest != [] ==> WithPut(c, target, e, closest, now).1 == None
    ensures c.sock.issued <= WithPut(c, target, e, closest, now).0.sock.issued
  {
    hide WithPut, TidInv, SentToAsked, AnswersBounded, OldKept, Logged, SentToVisited;
    StartChanges(c, target, e, closest, now);
    var d := WithPut(c, target, e, closest, now).0;
    if d.sock.issued <= TID_COUNT {
      StartKeepsTids(c, target, e, closest, now);
      StartAsks(c, target, e, closest, now);
      OthersStayBounded(c, d);
      LoggedNothing(e);
      StartedBounded(d.puts[target].state.inflight, d.sock.table);
    }
  }

  lemma LoggedNothing(e: PutEntry)
    requires Logged(e) && e.state.inflight == []
    ensures e.answers == []
  {
  }

  lemma OthersStayBounded(c: Core, d: Core)
    requires Healthy(c) && c.sock.issued <= TID_COUNT && OldKept(c.sock.table, d.sock.table, c.sock.issued)
    ensures AllBounded(c.puts, d.sock.table) && AllVisited(c.gets, d.sock.table)
  {
    OthersBounded(c.puts, c.gets, c.sock.issued, c.sock.table, d.sock.table);
  }

  // === Visiting ===

  function WithVisits(c: Core, target: Id, e: GetEntry, addrs: seq<Addr>, now: nat): Core {
    var (q, s) := VisitAll(e.query, c.sock, addrs, now);
    Core(s, c.puts, c.gets[target := e.(query := q)])
  }

  /** Whatever a lookup has in flight went to an address it has visited. */
  lemma {:induction false} VisitsAreVisited(q: Query, s: Sock, addrs: seq<Addr>, now: nat)
    requires SentToVisited(q, s.table)
    ensures var (p, t) := VisitAll(q, s, addrs, now); SentToVisited(p, t.table)
  {
    if addrs != [] {
      VisitsAreVisited(q, s, addrs[..|addrs| - 1], now);
    }
  }

  /** The entry is the target's own, perhaps with other candidates, or a new one that has sent nothing. */
  lemma VisitsKeepHealthy(c: Core, target: Id, e: GetEntry, addrs: seq<Addr>, now: nat)
    requires Healthy(c)
    requires if target in c.gets then e.query.inflight == c.gets[target].query.inflight
                                      && e.query.visited == c.gets[target].query.visited
             else e.query.inflight == []
    ensures Healthy(WithVisits(c, target, e, addrs, now))
    ensures c.sock.issued <= WithVisits(c, target, e, addrs, now).sock.issued
  {
    VisitAllSpec(e.query, c.sock, addrs, now);
    var d := WithVisits(c, target, e, addrs, now);
    if d.sock.issued <= TID_COUNT {
      var new_ := VisitAllTids(e.query, c.sock, addrs, now);
      ConsecutiveIsNew(new_, c.sock.issued);
      OthersBounded(c.puts, c.gets, c.sock.issued, c.sock.table, d.sock.table);
      TakeNewTids(ListsOf(c.puts, c.gets), c.sock.issued, ListsOf(d.puts, d.gets), d.sock.issued,
                  GetOwner(target), e.query.inflight, new_);
      if target in c.gets {
        assert SentToVisited(c.gets[target].query, c.sock.table);
      }
      VisitsAreVisited(e.query, c.sock, addrs, now);
    }
  }

  // === Forgetting, pinging ===

  lemma ForgetKeepsHealthy(c: Core, puts: map<Id, PutEntry>, gets: map<Id, GetEntry>)
    requires Healthy(c)
    requires forall k :: k in puts ==> k in c.puts && puts[k] == c.puts[k]
    requires forall k :: k in gets ==> k in c.gets && gets[k] == c.gets[k]
    ensures Healthy(Core(c.sock, puts, gets))
  {
    if c.sock.issued <= TID_COUNT {
      ForgetTids(ListsOf(c.puts, c.gets), c.sock.issued, ListsOf(puts, gets), c.sock.issued);
    }
  }

  /** A ping is a request that no query waits for. */
  lemma PingKeepsHealthy(c: Core, to: Addr, now: nat)
    requires Healthy(c)
    ensures Healthy(c.(sock := Send(c.sock, to, now).0))
  {
    var s := Send(c.sock, to, now).0;
    if s.issued <= TID_COUNT {
      assert NextTid(c.sock) == c.sock.issued;
      OthersBounded(c.puts, c.gets, c.sock.issued, c.sock.table, s.table);
      ForgetTids(ListsOf(c.puts, c.gets), c.sock.issued, ListsOf(c.puts, c.gets), s.issued);
    }
  }

  /** Requests leave the table when they are answered or found expired. */
  lemma TableShrinkKeepsHealthy(c: Core, t: Table)
    requires Healthy(c) && forall tid :: tid in t ==> tid in c.sock.table && t[tid] == c.sock.table[tid]
    ensures Healthy(c.(sock := c.sock.(table := t)))
  {
    if c.sock.issued <= TID_COUNT {
      OthersBounded(c.puts, c.gets, c.sock.issued, c.sock.table, t);
    }
  }

  // === Replies ===

  function AnswerEntry(e: PutEntry, a: Answer): PutEntry {
    e.(state := AnswerPut(e.state, a), answers := e.answers + [a])
  }

  /** An answer that comes after a tick is logged with the others. */
  lemma {:induction false} AnswerKeepsLogged(e: PutEntry, a: Answer)
    requires Logged(e) && Settled(e) && Started(e.state)
    ensures Logged(AnswerEntry(e, a)) && AnswerPut(e.state, a).inflight == e.state.inflight
  {
    var started := e.state.(storedAt := 0, errors := []);
    AnswersAre(started, e.answers);
    AnswersAre(started, e.answers + [a]);
    assert (e.answers + [a])[..|e.answers|] == e.answers;
    var log, more := Refusals(e.answers), Refusals(e.answers + [a]);
    assert more == log + if a.Refused? then [a.error] else [];
    if e.kind.Signed? {
      forall n: nat | n < |more| ensures MajorityRejected(|e.state.inflight|, TallyAll(more[..n])) == None {
        assert n < |log| ==> more[..n] == log[..n];
        assert n == |log| ==> more[..n] == log;
      }
    }
  }

  /** An accepted answer to a put: its request is closed, and only that query counts it. */
  lemma AnswerKeepsHealthy(c: Core, target: Id, tid: nat, a: Answer)
    requires Healthy(c) && target in c.puts && tid in c.puts[target].state.inflight && tid in c.sock.table
    requires Settled(c.puts[target])
    ensures Healthy(Core(c.sock.(table := c.sock.table - {tid}),
                         c.puts[target := AnswerEntry(c.puts[target], a)], c.gets))
  {
    hide TidInv, AnswersBounded, AnswerPut, Logged, Settled, SentToVisited;
    var e := c.puts[target];
    var puts := c.puts[target := AnswerEntry(e, a)];
    assert Logged(e);
    AnswerKeepsLogged(e, a);
    if c.sock.issued <= TID_COUNT {
      var u := c.sock.table - {tid};
      OthersBounded(c.puts, c.gets, c.sock.issued, c.sock.table, u);
      assert WithinRequests(e, c.sock.table) && WithinRequests(e, u);
      AnswerOneRequest(|e.answers|, e.state.inflight, c.sock.table, tid);
      ForgetTids(ListsOf(c.puts, c.gets), c.sock.issued, ListsOf(puts, c.gets), c.sock.issued);
    }
  }

  /** The queries that wait for a reply with this id: the one that sent it, and no other. */
  lemma ReplyHasOneAddressee(c: Core, tid: nat, o: Owner, p: Owner)
    requires Healthy(c) && c.sock.issued <= TID_COUNT
    requires tid in ListsOf(c.puts, c.gets)(o) && tid in ListsOf(c.puts, c.gets)(p)
    ensures o == p
  {
    OneAddressee(ListsOf(c.puts, c.gets), c.sock.issued, tid, o, p);
  }

  /** What happens to the candidates, responders and votes of a lookup concerns no request. */
  lemma UpdateGetKeepsHealthy(c: Core, target: Id, e: GetEntry)
    requires Healthy(c) && target in c.gets && e.query.inflight == c.gets[target].query.inflight
    requires e.query.visited == c.gets[target].query.visited
    ensures Healthy(c.(gets := c.gets[target := e]))
  {
    if c.sock.issued <= TID_COUNT {
      ForgetTids(ListsOf(c.puts, c.gets), c.sock.issued, ListsOf(c.puts, c.gets[target := e]), c.sock.issued);
      assert SentToVisited(c.gets[target].query, c.sock.table);
    }
  }
}
