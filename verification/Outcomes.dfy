/** What answers do to a put, and what a finished lookup leaves behind. */
module Outcomes {
  import opened Ids
  import opened Nodes
  import opened Options
  import opened Closest
  import opened Lru
  import opened Socket
  import opened PutQueries
  import opened Statistics
  import opened RpcCore
  import opened RpcSteps

  // === What a put learns ===

  /** An answer joins those of its put, and its counters are again those of all answers. */
  lemma AnswerIsCounted(e: PutEntry, a: Answer)
    requires Logged(e) && Settled(e) && Started(e.state)
    ensures var after := AnswerEntry(e, a);
            && Acks(after.answers) == Acks(e.answers) + (if a.Acknowledged? then 1 else 0)
            && Refusals(after.answers) == Refusals(e.answers) + (if a.Refused? then [a.error] else [])
            && after.state.storedAt == Acks(after.answers) % 256
            && after.state.errors == TallyAll(Refusals(after.answers))
            && after == e.(state := after.state, answers := after.answers)
            && after.state.inflight == e.state.inflight
  {
    hide TallyAll;
    AnswerKeepsLogged(e, a);
    assert (e.answers + [a])[..|e.answers|] == e.answers;
  }

  /** A put that one node acknowledged, and not a multiple of 256, is stored once nothing is open. */
  lemma AcknowledgedIsStored(e: PutEntry, t: Table, now: nat, timeout: nat)
    requires Logged(e) && Settled(e) && Started(e.state) && Acks(e.answers) < 255
    requires !AnyInflight(e.state.inflight, t, now, timeout)
    ensures TickPut(AnswerEntry(e, Acknowledged).state, t, now, timeout) == Verdict.Stored
  {
    hide TallyAll;
    AnswerIsCounted(e, Acknowledged);
  }

  /** A delivered reply is counted by the put that waits for it. */
  lemma PutIsAnswered(checks: Checks, c: Core, d: Core, from: Addr, r: Reply, now: nat, k: Id)
    requires Delivered(checks, c, d, from, r, now) && k in c.puts && r.tid in c.puts[k].state.inflight
    requires Logged(c.puts[k]) && Settled(c.puts[k])
    ensures Acks(d.puts[k].answers) == Acks(c.puts[k].answers) + (if r.answer.Acknowledged? then 1 else 0)
    ensures Refusals(d.puts[k].answers)
         == Refusals(c.puts[k].answers) + (if r.answer.Refused? then [r.answer.error] else [])
  {
    hide TallyAll;
    AnswerIsCounted(c.puts[k], r.answer);
  }

  // === What a finished lookup leaves behind ===

  /** Its nodes, sizes and subnets are cached under its target, unless it met nobody. */
  lemma CachedAfterIs(c: Cache<Id, CachedQuery>, k: Id, e: GetEntry, nodes: seq<Node>, size: (real, real))
    requires Lru.Valid(c) && c.capacity == MAX_CACHED_ITERATIVE_QUERIES
    ensures var after := CachedAfter(c, k, e, nodes, size);
            && (e.query.closest != [] ==>
                  Peek(after, k) == Some(CachedQuery(nodes, size.0, size.1, SubnetCount(e.query.closest), e.findNode)))
            && (e.query.closest == [] && |c.entries| < MAX_CACHED_ITERATIVE_QUERIES ==> after == c)
            && |after.entries| <= MAX_CACHED_ITERATIVE_QUERIES
            && (forall j :: j != k && Contains(after, j) ==> Peek(after, j) == Peek(c, j))
            && (|c.entries| < MAX_CACHED_ITERATIVE_QUERIES ==>
                  forall j :: j != k && Contains(c, j) ==> Contains(after, j))
  {
    hide SubnetCount;
    MadeRoomIs(c);
    var room, q := MadeRoom(c), CachedQuery(nodes, size.0, size.1, SubnetCount(e.query.closest), e.findNode);
    PutKeeps(room, k, q);
    PutLosesNone(room, k, q);
  }

  lemma PutLosesNone(c: Cache<Id, CachedQuery>, k: Id, q: CachedQuery)
    requires Lru.Valid(c) && |c.entries| < c.capacity
    ensures forall j :: Contains(c, j) ==> Contains(Put(c, k, q), j)
  {
    forall j | Contains(c, j) && j != k ensures Contains(Put(c, k, q), j) {
      var i := IndexOf(c.entries, j);
      var after := Put(c, k, q);
      assert c.entries[i].key == j && c.entries[i] in after.entries;
    }
  }

  /** A best address is taken over, and counts as firewalled exactly when it is new or did so before. */
  lemma VotedIs(s: Standing, best: Option<Addr>)
    ensures best == None ==> Voted(s, best) == s
    ensures best != None ==> Voted(s, best).address == best
    ensures best != None ==> (Voted(s, best).firewalled <==> s.firewalled || s.address != best)
  {
  }

  /** A put panics at cached nodes exactly when they are recent enough and 256 or more. */
  lemma StartsAtTooManyIff(nodes: seq<Node>, now: nat)
    ensures StartsAtTooMany(nodes, now) <==> Usable(nodes, now) && |nodes| >= 256
  {
  }

  // === What callers hear ===

  /** A caller hears of no error exactly when its put was stored; otherwise it hears the verdict's own error. */
  lemma ResultIs(v: Verdict)
    requires v != Pending
    ensures ResultOf(v) == None <==> v == Verdict.Stored
    ensures forall e :: ResultOf(v) == Some(e) <==> v == Failed(e)
  {
  }

  /** So a reported put succeeded exactly when it was sent and its acknowledgements are not a multiple of 256. */
  lemma ReportedSuccessIff(done: seq<(Id, Option<PutError>)>, puts: map<Id, PutEntry>, gets: map<Id, GetEntry>,
                           doneGets: seq<(Id, seq<Node>)>, t: Table, now: nat, timeout: nat, i: nat)
    requires AllLogged(puts) && PutsEnded(done, puts, gets, doneGets, t, now, timeout) && i < |done|
    ensures var e := puts[done[i].0];
            && (done[i].1 == None ==> Started(e.state) && Acks(e.answers) % 256 != 0)
            && (!Started(e.state) ==> done[i].1 == Some(NoClosestNodes))
            && (Started(e.state) && !AnyInflight(e.state.inflight, t, now, timeout) ==>
                  (done[i].1 == None <==> Acks(e.answers) % 256 != 0))
  {
    hide TallyAll, FoundNobody;
    var k := done[i].0;
    assert k in TargetsOf(done) && Ends(puts, gets, doneGets, k, t, now, timeout);
    assert Logged(puts[k]);
  }

  /** The put that a new one meets is the one in flight for its target. */
  lemma ExistingIs(puts: map<Id, PutEntry>, target: Id)
    ensures target in puts ==> Existing(puts, target) == Some(puts[target])
    ensures target !in puts ==> Existing(puts, target) == None
  {
  }

  // === Nothing ends too early ===

  /** While one request of a put is open, it is stored by nobody's count and has not timed out; a plain one goes on. */
  lemma OpenPutGoesOn(p: PutState, t: Table, now: nat, timeout: nat, tid: nat)
    requires tid in p.inflight && tid in t && now < t[tid].sentAt + timeout && timeout > 0
    ensures TickPut(p, t, now, timeout) != Verdict.Stored && TickPut(p, t, now, timeout) != Failed(Timeout)
    ensures !p.isMutable ==> TickPut(p, t, now, timeout) == Pending
    ensures p.errors == [] ==> TickPut(p, t, now, timeout) == Pending
  {
    var i :| 0 <= i < |p.inflight| && p.inflight[i] == tid;
    assert ContainsTid(t, p.inflight[i], now, timeout);
  }

  /** A lookup has ended exactly when every request it ever sent was answered or is a timeout old. */
  lemma ExpiredIff(e: GetEntry, t: Table, now: nat, timeout: nat)
    requires timeout > 0
    ensures Expired(e, t, now, timeout) <==>
              forall tid :: tid in e.query.inflight && tid in t ==> now >= t[tid].sentAt + timeout
  {
    if Expired(e, t, now, timeout) {
      forall tid | tid in e.query.inflight && tid in t ensures now >= t[tid].sentAt + timeout {
        var i :| 0 <= i < |e.query.inflight| && e.query.inflight[i] == tid;
        assert !ContainsTid(t, e.query.inflight[i], now, timeout);
      }
    } else {
      var i :| 0 <= i < |e.query.inflight| && ContainsTid(t, e.query.inflight[i], now, timeout);
      assert e.query.inflight[i] in e.query.inflight;
    }
  }

  /** So while ids have not wrapped around, a tick reports no lookup that has a request open. */
  lemma OpenLookupGoesOn(done: seq<(Id, seq<Node>)>, gets: map<Id, GetEntry>, s: Sock, now: nat, timeout: nat, k: Id,
                         tid: nat)
    requires GetsReported(done, gets, {}, s, now, timeout) && s.issued <= TID_COUNT && k in gets
    requires tid in gets[k].query.inflight && tid in s.table && now < s.table[tid].sentAt + timeout && timeout > 0
    ensures k !in TargetsOf(done)
  {
    hide FoundBy, AskedClosest, Expired;
    ExpiredIff(gets[k], s.table, now, timeout);
  }
}
