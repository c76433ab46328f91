/** The node's remote procedure calls: puts, lookups, and the tick that advances both. */
module Rpcs {
  import opened Ids
  import opened Nodes
  import opened Options
  import opened Closest
  import opened RoutingTables
  import opened Lru
  import opened Socket
  import opened IterativeQueries
  import opened PutQueries
  import opened Statistics
  import opened RpcCore
  import opened RpcSteps

  const REFRESH_TABLE_INTERVAL: nat := 15 * 60 * 1000
  const PING_TABLE_INTERVAL: nat := 5 * 60 * 1000

  class Rpc {
    const checks: Checks
    const timeout: nat
    const bootstrap: seq<Addr>
    const statistics: QueryStatistics
    var id: Id
    var sock: Sock
    var puts: map<Id, PutEntry>
    var gets: map<Id, GetEntry>
    var publicAddress: Option<Addr>
    var firewalled: bool
    var serverMode: bool
    var lastTableRefresh: nat
    var lastTablePing: nat
    // Whether a put was started at more nodes than it can take: the source panics there.
    ghost var panicked: bool

    ghost function State(): Core
      reads this
    {
      Core(sock, puts, gets)
    }

    ghost function OwnStanding(): Standing
      reads this
    {
      Standing(publicAddress, firewalled)
    }

    ghost predicate Valid()
      reads this, statistics
    {
      && statistics.Valid()
      && Healthy(State()) && LookupsOk(checks, gets)
      && (!firewalled ==> publicAddress.Some? && IsValidForIp(checks.crc, id, publicAddress.value.ip))
    }

    constructor (checks: Checks, timeout: nat, bootstrap: seq<Addr>, id: Id, serverMode: bool, now: nat)
      ensures Valid() && fresh(statistics) && puts == map[] && gets == map[]
      ensures this.checks == checks && this.timeout == timeout && this.bootstrap == bootstrap && this.id == id
      ensures sock == Sock(0, map[]) && statistics.cached.entries == []
      ensures lastTableRefresh == now && lastTablePing == now && publicAddress == None && firewalled && !panicked
    {
      this.checks, this.timeout, this.bootstrap, this.id := checks, timeout, bootstrap, id;
      statistics := new QueryStatistics();
      sock, puts, gets := Sock(0, map[]), map[], map[];
      publicAddress, firewalled, this.serverMode := None, true, serverMode;
      lastTableRefresh, lastTablePing, panicked := now, now, false;
    }

    /** Opens a lookup unless one of the same target is active; returns the values that are known already. */
    method Get(target: Id, findNode: bool, salt: Option<Bytes>, seeds: seq<Node>, extra: seq<Addr>, now: nat)
      returns (found: Option<seq<Value>>)
      requires Valid()
      modifies this`sock, this`gets, statistics
      ensures Later(old(sock), sock, now)
      ensures Valid() && found == FoundNow(old(State()), target)
      ensures State() == Looked(checks, bootstrap, old(State()), old(statistics.cached), target, findNode, salt, seeds,
                                extra, now)
      ensures gets.Keys == old(gets).Keys + {target} && Joined(old(State()), State(), findNode)
      ensures statistics.cached
           == if target in old(gets) then old(statistics.cached) else Touch(old(statistics.cached), target)
      ensures forall k :: Peek(statistics.cached, k) == Peek(old(statistics.cached), k)
    {
      hide Healthy, LookupsOk, IsValidForIp, OpenLookup, Candidates, QueryStatistics.Valid, Touch, Peek, Joined,
           Later;
      LookedIsLater(checks, bootstrap, State(), statistics.cached, target, findNode, salt, seeds, extra, now);
      LookedOk(checks, bootstrap, State(), statistics.cached, target, findNode, salt, seeds, extra, now);
      var inflight := InflightValue(puts, target);
      if target in gets {
        return Some(gets[target].responses + inflight);
      }
      TouchKeepsEntries();
      var cached := statistics.Lookup(target);
      var candidates := Candidates(checks.crc, target, seeds, if cached.Some? then cached.value.nodes else []);
      var d := OpenLookup(Core(sock, puts, gets), target, NewLookup(candidates, findNode, salt),
                          Explicit(bootstrap, seeds) + extra, now);
      sock, gets := d.sock, d.gets;
      found := if inflight != [] then Some(inflight) else None;
    }

    lemma TouchKeepsEntries()
      requires statistics.Valid()
      ensures forall j, k :: Peek(Touch(statistics.cached, j), k) == Peek(statistics.cached, k)
    {
      forall j ensures forall k :: Peek(Touch(statistics.cached, j), k) == Peek(statistics.cached, k) {
        TouchKeeps(statistics.cached, j);
      }
    }

    /** Starts at usable cached nodes, or waits for a lookup. */
    method Enrol(target: Id, kind: PutKind, extra: seq<Node>, seeds: seq<Node>, now: nat)
      requires Valid()
      modifies this`sock, this`gets, this`puts, this`panicked, statistics
      ensures Later(old(sock), sock, now)
      ensures Valid()
      ensures puts.Keys == old(puts).Keys + {target}
      ensures gets.Keys <= old(gets).Keys + {target}
      ensures forall k :: k in old(puts) && k != target ==> puts[k] == old(puts)[k]
      ensures Joined(old(State()), State().(puts := old(puts)), false)
      ensures Enrolled(puts[target], kind, extra, CachedNodes(old(statistics.cached), target), old(gets), gets, target,
                       now)
      ensures State() == if Usable(CachedNodes(old(statistics.cached), target), now)
                         then WithPut(old(State()), target, NewEntry(kind, extra),
                                      CachedNodes(old(statistics.cached), target), now).0
                         else Looked(checks, bootstrap, old(State()), Touch(old(statistics.cached), target), target,
                                     false, if kind.Signed? then kind.put.salt else None, seeds, [], now)
                              .(puts := old(puts)[target := NewEntry(kind, extra)])
      ensures panicked == (old(panicked) || StartsAtTooMany(CachedNodes(old(statistics.cached), target), now))
      ensures forall k :: Peek(statistics.cached, k) == Peek(old(statistics.cached), k)
    {
      hide Healthy, LookupsOk, LookupOk, IsValidForIp, Looked, QueryStatistics.Valid, WithPut, Touch,
           Peek, Holders, StartedAt, Later;
      var e := NewEntry(kind, extra);
      TouchKeepsEntries();
      var cached := statistics.Lookup(target);
      if cached.Some? && Usable(cached.value.nodes, now) {
        StartsSafely(State(), target, e, cached.value.nodes, now);
        WithPutIsLater(State(), target, e, cached.value.nodes, now);
        var d := WithPut(Core(sock, puts, gets), target, e, cached.value.nodes, now).0;
        sock, puts := d.sock, d.puts;
        panicked := panicked || |cached.value.nodes| > MAX_CLOSEST;
      } else {
        var _ := Get(target, false, if kind.Signed? then kind.put.salt else None, seeds, [], now);
        EnrolKeepsHealthy(State(), target, e);
        puts := puts[target := e];
      }
    }

    /** Turns a put down on a conflict; otherwise it replaces what was in flight for its target. */
    method Put(target: Id, kind: PutKind, extra: seq<Node>, seeds: seq<Node>, now: nat)
      returns (error: Option<PutError>)
      requires Valid()
      modifies this`sock, this`gets, this`puts, this`panicked, statistics
      ensures Later(old(sock), sock, now)
      ensures Valid() && error == Rejection(Existing(old(puts), target), kind)
      ensures error.Some? || SamePut(Existing(old(puts), target), kind) ==>
                State() == old(State()) && statistics.cached == old(statistics.cached)
      ensures error.None? ==> puts.Keys == old(puts).Keys + {target}
      ensures gets.Keys <= old(gets).Keys + {target}
      ensures forall k :: k in old(puts) && k != target ==> puts[k] == old(puts)[k]
      ensures Joined(old(State()), State().(puts := old(puts)), false)
      ensures error.None? && !SamePut(Existing(old(puts), target), kind) ==>
                Enrolled(puts[target], kind, extra, CachedNodes(old(statistics.cached), target), old(gets), gets,
                         target, now)
      ensures panicked == (old(panicked)
                           || (error.None? && !SamePut(Existing(old(puts), target), kind)
                               && StartsAtTooMany(CachedNodes(old(statistics.cached), target), now)))
      ensures forall k :: Peek(statistics.cached, k) == Peek(old(statistics.cached), k)
    {
      hide Valid, Enrolled, Looked, WithPut, Peek, Later;
      LaterItself(sock, now);
      if kind.Signed? && target in puts && puts[target].kind.Signed? {
        var inflight := puts[target].kind;
        if kind.put.sig == inflight.put.sig {
          return None;
        } else if kind.put.sequence < inflight.put.sequence {
          return Some(NotMostRecent);
        } else if kind.put.cas.Some? {
          if kind.put.cas.value != inflight.put.sequence {
            return Some(PutError.CasFailed);
          }
        } else {
          return Some(ConflictRisk);
        }
      }
      Enrol(target, kind, extra, seeds, now);
      return None;
    }

    method TickPuts(now: nat) returns (done: seq<(Id, Option<PutError>)>)
      ensures PutsReported(done, puts, {}, sock.table, now, timeout)
    {
      done := [];
      var left := puts.Keys;
      while left != {}
        invariant left <= puts.Keys && PutsReported(done, puts, left, sock.table, now, timeout)
        decreases |left|
      {
        var k :| k in left;
        left := left - {k};
        var verdict := TickPut(puts[k].state, sock.table, now, timeout);
        if verdict != Pending {
          TargetsSnoc(done, k, ResultOf(verdict));
          done := done + [(k, ResultOf(verdict))];
        }
      }
    }

    lemma AllAreLogged()
      requires Valid()
      ensures AllLogged(puts)
    {
    }

    method TickGet(k: Id, now: nat) returns (done: bool)
      requires Valid() && k in gets
      modifies this`sock, this`gets
      ensures Valid() && gets.Keys == old(gets).Keys
      ensures forall j :: j in gets && j != k ==> gets[j] == old(gets)[j]
      ensures OnlyAsked(old(gets)[k], gets[k]) && AskedClosest(gets[k].query)
      ensures done <==> Expired(gets[k], sock.table, now, timeout)
      ensures Later(old(sock), sock, now)
      ensures AskedClosest(old(gets)[k].query) ==> State() == old(State())
      ensures sock.issued <= TID_COUNT ==> forall j :: j in gets && j != k ==>
                (Expired(gets[j], old(sock).table, now, timeout) <==> Expired(gets[j], sock.table, now, timeout))
    {
      hide Healthy, LookupsOk, LookupOk, IsValidForIp, QueryStatistics.Valid, AskedClosest, OnlyAsked,
           Later;
      ghost var c := State();
      VisitAllIsLater(gets[k].query, sock, ToVisit(gets[k].query), now);
      TickGetKeeps(checks, c, k, now);
      var d := TickedGet(Core(sock, puts, gets), k, now);
      sock, gets := d.sock, d.gets;
      LaterGrows(c.sock, sock, now);
      done := AllExpired(gets[k].query.inflight, sock.table, now, timeout);
      if d.sock.issued <= TID_COUNT {
        forall j | j in gets && j != k
          ensures Expired(gets[j], c.sock.table, now, timeout) <==> Expired(gets[j], sock.table, now, timeout)
        {
          OthersStayExpired(c, k, j, now, timeout);
        }
      }
    }

    /** What a finished lookup found, with the averages as they are. */
    method FoundNodes(k: Id, averages: Averages) returns (nodes: seq<Node>)
      requires k in gets
      ensures nodes == StoreAt(k, gets[k], averages)
    {
      if gets[k].findNode {
        return FirstK(gets[k].query.closest);
      }
      nodes := TakeOf(checks.crc, k, gets[k].responders, averages.estimate, averages.subnets);
    }

    /** Lets every lookup ask its closest nodes; those with nothing in flight are done. */
    method TickGets(now: nat) returns (done: seq<(Id, seq<Node>)>)
      requires Valid()
      modifies this`sock, this`gets
      ensures Valid() && gets.Keys == old(gets).Keys && Later(old(sock), sock, now)
      ensures forall k :: k in gets ==> OnlyAsked(old(gets)[k], gets[k])
      ensures AllAskedClosest(old(gets)) ==> State() == old(State())
      ensures GetsReported(done, gets, {}, sock, now, timeout)
      ensures NodesStored(done, gets, statistics.KeptAverages())
    {
      hide Valid, AskedClosest, StoreAt, FoundBy, Expired, GetsReported, NodesStored, OnlyAsked, Later,
           QueryStatistics.KeptAverages;
      done := [];
      LaterItself(sock, now);
      var left := gets.Keys;
      var averages := statistics.KeptAverages();
      NothingReported(gets, sock, now, timeout);
      NothingStored(gets, averages);
      while left != {}
        invariant Valid() && left <= gets.Keys == old(gets).Keys && Later(old(sock), sock, now)
        invariant forall k :: k in gets && k !in left ==> OnlyAsked(old(gets)[k], gets[k])
        invariant forall k :: k in left ==> gets[k] == old(gets)[k]
        invariant AllAskedClosest(old(gets)) ==> State() == old(State())
        invariant GetsReported(done, gets, left, sock, now, timeout) && NodesStored(done, gets, averages)
        decreases |left|
      {
        var k :| k in left;
        ghost var before, s := gets, sock;
        var finished := TickGet(k, now);
        LaterGrows(s, sock, now);
        LaterTrans(old(sock), s, sock, now);
        var nodes := FoundNodes(k, averages);
        StoreAtIsFound(k, gets[k], averages);
        LeftIsUnreported(done, before, left, s, k, now, timeout);
        GetsReportedStep(done, before, s, gets, sock, left, k, finished, nodes, now, timeout);
        NodesStoredStep(done, before, gets, k, nodes, averages);
        left := left - {k};
        if finished {
          done := done + [(k, nodes)];
        }
      }
    }

    /** A new address with the most votes is pinged, and counts as firewalled until the ping arrives. */
    method UpdateAddressVotes(votes: map<Addr, nat>, now: nat) returns (best: Option<Addr>)
      requires Valid()
      modifies this`publicAddress, this`firewalled, this`sock
      ensures Later(old(sock), sock, now)
      ensures Valid() && IsBest(votes, best)
      ensures OwnStanding() == Voted(old(OwnStanding()), best)
      ensures sock
           == if best.Some? && best != old(publicAddress) then Send(old(sock), best.value, now).0 else old(sock)
    {
      hide Healthy, LookupsOk, IsValidForIp, QueryStatistics.Valid, IsBest, Later;
      best := MostVoted(votes);
      LaterItself(sock, now);
      if best.None? {
        return;
      }
      if publicAddress != best {
        firewalled := true;
        PingKeepsHealthy(State(), best.value, now);
        SendIsLater(sock, best.value, now);
        sock := Send(sock, best.value, now).0;
      }
      publicAddress := best;
    }

    /** The votes and the nodes of a finished lookup are kept. */
    method Account(k: Id, e: GetEntry, nodes: seq<Node>, size: (real, real), now: nat)
      returns (ghost best: Option<Addr>)
      requires Valid()
      modifies this`sock, this`publicAddress, this`firewalled, statistics
      ensures Valid() && Later(old(sock), sock, now)
      ensures IsBest(e.votes, best) && OwnStanding() == Voted(old(OwnStanding()), best)
      ensures statistics.cached == CachedAfter(old(statistics.cached), k, e, nodes, size)
    {
      hide Healthy, LookupsOk, IsValidForIp, QueryStatistics.Valid, IsBest, MadeRoom, Later;
      best := UpdateAddressVotes(e.votes, now);
      var q := CachedQuery(nodes, size.0, size.1, SubnetCount(e.query.closest), e.findNode);
      statistics.CacheIterativeQuery(k, e.query.closest == [], q);
    }

    /** Starts the put that waits for a finished lookup. */
    method StartWaiting(k: Id, e: GetEntry, nodes: seq<Node>, now: nat) returns (failed: bool)
      requires Valid() && LookupOk(checks, k, e) && FoundBy(e, nodes)
      modifies this`sock, this`puts, this`panicked
      ensures Later(old(sock), sock, now)
      ensures Valid() && PutsAfterGet(old(puts), puts, k, e, nodes, now)
      ensures failed <==> FailsPut(old(puts), k, e, nodes)
      ensures panicked == (old(panicked) || TooManyAt(old(puts), k, e, nodes))
      ensures State() == if k in old(puts) && !Started(old(puts)[k].state) && !e.findNode && nodes != []
                         then WithPut(old(State()), k, old(puts)[k], nodes, now).0 else old(State())
    {
      hide Healthy, LookupsOk, LookupOk, IsValidForIp, QueryStatistics.Valid, WithPut, FoundBy, Holders,
           StartedAt, Later;
      LaterItself(sock, now);
      failed := false;
      if !e.findNode && k in puts && !Started(puts[k].state) {
        if nodes == [] {
          failed := true;
        } else {
          RespondersHaveTokens(checks, k, e, nodes, puts[k].extra);
          StartsSafely(State(), k, puts[k], nodes, now);
          WithPutIsLater(State(), k, puts[k], nodes, now);
          var d := WithPut(Core(sock, puts, gets), k, puts[k], nodes, now).0;
          sock, puts := d.sock, d.puts;
          panicked := panicked || |nodes| > MAX_CLOSEST;
        }
      }
    }

    method FinishGet(k: Id, nodes: seq<Node>, size: (real, real), now: nat)
      returns (failed: bool, ghost best: Option<Addr>)
      requires Valid() && k in gets && FoundBy(gets[k], nodes)
      modifies this`sock, this`puts, this`gets, this`publicAddress, this`firewalled, this`panicked, statistics
      ensures Later(old(sock), sock, now)
      ensures Valid() && gets == old(gets) - {k}
      ensures PutsAfterGet(old(puts), puts, k, old(gets)[k], nodes, now)
      ensures failed <==> FailsPut(old(puts), k, old(gets)[k], nodes)
      ensures IsBest(old(gets)[k].votes, best) && OwnStanding() == Voted(old(OwnStanding()), best)
      ensures panicked == (old(panicked) || TooManyAt(old(puts), k, old(gets)[k], nodes))
      ensures statistics.cached == CachedAfter(old(statistics.cached), k, old(gets)[k], nodes, size)
    {
      hide Healthy, LookupsOk, LookupOk, IsValidForIp, QueryStatistics.Valid, CachedAfter, PutsAfterGet,
           Later, IsBest, FoundBy, TooManyAt;
      var e := gets[k];
      RemoveGetKeeps(checks, State(), k);
      gets := gets - {k};
      best := Account(k, e, nodes, size, now);
      ghost var s := sock;
      failed := StartWaiting(k, e, nodes, now);
      LaterTrans(old(sock), s, sock, now);
    }

    method RemovePuts(done: seq<(Id, Option<PutError>)>)
      requires Valid()
      modifies this`puts
      ensures Valid() && puts == old(puts) - TargetsOf(done)
    {
      hide Healthy, LookupsOk, IsValidForIp, QueryStatistics.Valid;
      RemovePutsKeeps(State(), TargetsOf(done));
      for i := 0 to |done|
        invariant puts == old(puts) - TargetsOf(done[..i])
      {
        PrefixTargets(done, i);
        puts := puts - {done[i].0};
      }
      assert done[..|done|] == done;
    }

    /** Removes the lookups and the puts that are done; returns all puts that ended. */
    method CleanupDone(doneGets: seq<(Id, seq<Node>)>, donePuts: seq<(Id, Option<PutError>)>,
                       sizes: Id -> (real, real), now: nat)
      returns (ended: seq<(Id, Option<PutError>)>, ghost bests: seq<Option<Addr>>)
      requires Valid() && NoTargetTwice(doneGets)
      requires forall i :: 0 <= i < |doneGets| ==>
                 doneGets[i].0 in gets && FoundBy(gets[doneGets[i].0], doneGets[i].1)
      modifies this`sock, this`puts, this`gets, this`publicAddress, this`firewalled, this`panicked, statistics
      ensures Later(old(sock), sock, now)
      ensures Valid() && ended == donePuts + Failures(old(puts), old(gets), doneGets)
      ensures gets == old(gets) - TargetsOf(doneGets)
      ensures puts.Keys == old(puts).Keys - TargetsOf(ended)
      ensures PutsCleaned(old(puts), old(gets), puts, doneGets, now)
      ensures statistics.cached == CachedAll(old(statistics.cached), old(gets), doneGets, sizes)
      ensures |bests| == |doneGets| && BestsOf(doneGets, old(gets), bests)
      ensures OwnStanding() == VotedAll(old(OwnStanding()), bests)
      ensures panicked == (old(panicked) || SomeTooMany(old(puts), old(gets), doneGets))
    {
      hide Valid, FailsPut, PutsAfterGet, FoundBy, IsBest, SomeTooMany, TooManyAt, VotedAll, CachedAfter,
           Cleaned, CachedAll, PutsCleaned, Later;
      LaterItself(sock, now);
      ended, bests := donePuts, [];
      CleanedStart(puts, gets, doneGets, now);
      CachedNone(statistics.cached, gets, sizes);
      NothingCleaned(puts, gets, doneGets, OwnStanding());
      for i := 0 to |doneGets|
        invariant Valid() && Later(old(sock), sock, now)
        invariant Cleaned(old(puts), old(gets), puts, gets, doneGets, i, now)
        invariant ended == donePuts + Failures(old(puts), old(gets), doneGets[..i])
        invariant |bests| == i && BestsOf(doneGets, old(gets), bests)
        invariant OwnStanding() == VotedAll(old(OwnStanding()), bests)
        invariant panicked == (old(panicked) || SomeTooMany(old(puts), old(gets), doneGets[..i]))
        invariant statistics.cached == CachedAll(old(statistics.cached), old(gets), doneGets[..i], sizes)
      {
        var (k, nodes) := doneGets[i];
        ghost var before, active, s := puts, gets, sock;
        StillActive(old(puts), old(gets), puts, gets, doneGets, i, now);
        CachedStep(old(statistics.cached), old(gets), doneGets, i, sizes);
        var failed; ghost var best;
        failed, best := FinishGet(k, nodes, sizes(k), now);
        VotedAllStep(old(OwnStanding()), bests, best);
        TooManyStep(old(puts), old(gets), doneGets, i);
        bests := bests + [best];
        LaterTrans(old(sock), s, sock, now);
        CleanedStep(old(puts), old(gets), before, active, puts, doneGets, i, now);
        FailuresStep(old(puts), old(gets), doneGets, i);
        if failed {
          ended := ended + [(k, Some(NoClosestNodes))];
        }
      }
      assert doneGets[..|doneGets|] == doneGets;
      CleanedEnd(old(puts), old(gets), puts, gets, doneGets, ended, donePuts, now);
      RemovePuts(ended);
    }

    /**
     * A reply that the socket accepts closes its request; unless its sender is read-only, it
     * reaches the put or else the lookup that waits for it, and brings that lookup's callers its value.
     */
    method HandleReply(from: Addr, r: Reply, now: nat) returns (heard: Option<(Id, Value)>)
      requires Valid() && AllSettled(puts)
      modifies this`sock, this`puts, this`gets
      ensures Accepts(old(sock).table, from, r, now, timeout) && sock.issued <= TID_COUNT ==>
                WasAsked(old(State()), r.tid, from)
      ensures Valid() && gets.Keys == old(gets).Keys && OnlyHeard(old(State()), State(), heard)
      ensures sock == old(sock).(table := RemoveRequest(old(sock).table, r.tid, from, now, timeout).0)
      ensures Later(old(sock), sock, now)
      ensures !Accepts(old(sock).table, from, r, now, timeout) || r.readOnly ==>
                puts == old(puts) && gets == old(gets)
      ensures Accepts(old(sock).table, from, r, now, timeout) && !r.readOnly && sock.issued <= TID_COUNT ==>
                Delivered(checks, old(State()), State(), from, r, now)
    {
      hide Healthy, LookupsOk, LookupOk, IsValidForIp, QueryStatistics.Valid, Delivered, Informed, AnswerPut,
           ValueIn, OnlyHeard, HeardFrom, Later, WasAsked, Settled, AnswerEntry;
      heard := None;
      var (t, request) := RemoveRequest(sock.table, r.tid, from, now, timeout);
      TableShrinkKeepsHealthy(State(), t);
      FewerIsLater(sock, t, now);
      if request.Some? && sock.issued <= TID_COUNT {
        AcceptedWasAsked(State(), from, r, now, timeout);
      }
      if request.None? || r.readOnly {
        sock := sock.(table := t);
        NothingHeard(old(State()), State());
        return;
      }
      if k :| k in puts && r.tid in puts[k].state.inflight {
        DeliverToPut(checks, State(), k, from, r, now);
        sock := sock.(table := t);
        puts := puts[k := AnswerEntry(puts[k], r.answer)];
      } else if k :| k in gets && r.tid in gets[k].query.inflight {
        DeliverToGet(checks, State(), k, from, r, now);
        heard := HeardFrom(k, ValueIn(checks, k, gets[k], r));
        sock := sock.(table := t);
        gets := gets[k := Informed(checks, k, gets[k], from, r, now)];
      } else {
        NobodyWaits(checks, State(), t, from, r, now);
        sock := sock.(table := t);
      }
    }

    /** A ping from our own address proves that it is reachable; our id must then fit it. */
    method HandleRequest(from: Addr, isPing: bool, bytes: Id, r: bv8, seeds: seq<Node>, now: nat)
      requires Valid()
      modifies this`sock, this`gets, this`id, this`firewalled, statistics
      ensures Later(old(sock), sock, now)
      ensures Valid() && Joined(old(State()), State(), true)
      ensures var confirmed := isPing && publicAddress == Some(from);
              && firewalled == (old(firewalled) && !confirmed)
              && (confirmed ==> IsValidForIp(checks.crc, id, from.ip))
              && (if confirmed && !IsValidForIp(checks.crc, old(id), from.ip)
                  then State() == Looked(checks, bootstrap, old(State()), old(statistics.cached), id, true, None, seeds,
                                         [], now)
                  else id == old(id) && State() == old(State()) && statistics.cached == old(statistics.cached))
      ensures forall k :: Peek(statistics.cached, k) == Peek(old(statistics.cached), k)
    {
      hide Healthy, LookupsOk, IsValidForIp, QueryStatistics.Valid, Looked, Touch, FromIpv4AndR, Peek,
           Later;
      LaterItself(sock, now);
      if publicAddress == Some(from) && isPing {
        if !IsValidForIp(checks.crc, id, from.ip) {
          var newId := FromIpv4AndR(checks.crc, bytes, from.ip, r);
          GeneratedIdIsValid(checks.crc, bytes, from.ip, r);
          var _ := Get(newId, true, None, seeds, [], now);
          id := newId;
        }
        firewalled := false;
      }
    }

    method PingNodes(addrs: seq<Addr>, now: nat)
      requires Valid()
      modifies this`sock
      ensures Later(old(sock), sock, now)
      ensures Valid() && sock == SendAll(old(sock), addrs, now).0
    {
      hide Healthy, LookupsOk, IsValidForIp, QueryStatistics.Valid, Later;
      LaterItself(sock, now);
      for i := 0 to |addrs|
        invariant Valid() && Later(old(sock), sock, now) && sock == SendAll(old(sock), addrs[..i], now).0
      {
        assert addrs[..i + 1] == addrs[..i] + [addrs[i]];
        SendAllStep(old(sock), addrs[..i], addrs[i], now);
        PingKeepsHealthy(State(), addrs[i], now);
        SendIsLater(sock, addrs[i], now);
        LaterTrans(old(sock), sock, Send(sock, addrs[i], now).0, now);
        sock := Send(sock, addrs[i], now).0;
      }
      assert addrs[..|addrs|] == addrs;
    }

    /** Only a node that is not firewalled starts to serve. */
    method SwitchToServerMode(due: bool)
      requires Valid()
      modifies this`serverMode
      ensures Valid() && serverMode == (old(serverMode) || (due && !firewalled))
    {
      hide Healthy, LookupsOk, IsValidForIp, QueryStatistics.Valid;
      if due && !serverMode && !firewalled {
        serverMode := true;
      }
    }

    /** Asks the bootstrapping nodes, if any, for the nodes near our own id. */
    method Populate(seeds: seq<Node>, now: nat)
      requires Valid()
      modifies this`sock, this`gets, this`lastTableRefresh, statistics
      ensures Later(old(sock), sock, now) && Valid() && lastTableRefresh == now
      ensures Joined(old(State()), State(), true)
      ensures State() == if bootstrap == [] then old(State())
                         else Looked(checks, bootstrap, old(State()), old(statistics.cached), id, true, None, seeds,
                                     [], now)
      ensures forall k :: Peek(statistics.cached, k) == Peek(old(statistics.cached), k)
    {
      hide Healthy, LookupsOk, IsValidForIp, QueryStatistics.Valid, Looked, Touch, Peek, Later;
      LaterItself(sock, now);
      lastTableRefresh := now;
      if bootstrap != [] {
        var _ := Get(id, true, None, seeds, [], now);
      }
    }

    /** Refreshes and pings on schedule. */
    method Maintain(now: nat, tableEmpty: bool, toPing: seq<Addr>, seeds: seq<Node>)
      requires Valid()
      modifies this`sock, this`gets, this`serverMode, this`lastTableRefresh, this`lastTablePing, statistics
      ensures Later(old(sock), sock, now)
      ensures Valid() && Joined(old(State()), State(), true)
      ensures var refreshIsDue := Elapsed(now, old(lastTableRefresh)) >= REFRESH_TABLE_INTERVAL;
              var pingIsDue := Elapsed(now, old(lastTablePing)) >= PING_TABLE_INTERVAL;
              var pinged := old(State()).(sock := SendAll(old(sock), if pingIsDue then toPing else [], now).0);
              && serverMode == (old(serverMode) || (refreshIsDue && !firewalled))
              && lastTableRefresh == (if tableEmpty || refreshIsDue then now else old(lastTableRefresh))
              && lastTablePing == (if pingIsDue then now else old(lastTablePing))
              && State() == if (tableEmpty || refreshIsDue) && bootstrap != []
                            then Looked(checks, bootstrap, pinged, old(statistics.cached), id, true, None, seeds, [],
                                        now)
                            else pinged
      ensures forall k :: Peek(statistics.cached, k) == Peek(old(statistics.cached), k)
    {
      hide Healthy, LookupsOk, IsValidForIp, QueryStatistics.Valid, Looked, Peek, SendAll, Joined,
           Later;
      LaterItself(sock, now);
      SendNone(sock, now);
      var refreshIsDue := Elapsed(now, lastTableRefresh) >= REFRESH_TABLE_INTERVAL;
      var pingIsDue := Elapsed(now, lastTablePing) >= PING_TABLE_INTERVAL;
      SwitchToServerMode(refreshIsDue);
      JoinedItself(State(), SendAll(sock, if pingIsDue then toPing else [], now).0);
      if pingIsDue {
        lastTablePing := now;
        PingNodes(toPing, now);
      }
      ghost var s := sock;
      if tableEmpty || refreshIsDue {
        Populate(seeds, now);
        LaterTrans(old(sock), s, sock, now);
      }
    }

    method HandleMessage(around: Around) returns (heard: Option<(Id, Value)>)
      requires Valid() && AllSettled(puts)
      modifies this`sock, this`puts, this`gets, this`id, this`firewalled, statistics
      ensures Later(old(sock), sock, around.now)
      ensures Valid() && OnlyHeard(old(State()), State(), heard)
      ensures Heard(checks, old(State()), State(), old(publicAddress), around.incoming, around.now, timeout)
      ensures forall k :: Peek(statistics.cached, k) == Peek(old(statistics.cached), k)
    {
      hide Valid, Delivered, Accepts, IsValidForIp, Looked, Peek, Later;
      LaterItself(sock, around.now);
      heard := None;
      match around.incoming {
        case Nothing =>
        case Request(from, isPing, bytes, r) =>
          var seeds := around.seeds(FromIpv4AndR(checks.crc, bytes, from.ip, r));
          HandleRequest(from, isPing, bytes, r, seeds, around.now);
        case Response(from, reply) =>
          if from.port != 0 {
            heard := HandleReply(from, reply, around.now);
          }
      }
    }

    /** The first half of a tick: puts, then lookups, then what is done is removed. */
    method TickQueries(now: nat, sizes: Id -> (real, real))
      returns (doneGets: seq<(Id, seq<Node>)>, donePuts: seq<(Id, Option<PutError>)>, ghost asked: Core)
      requires Valid()
      modifies this`sock, this`puts, this`gets, this`publicAddress, this`firewalled, this`panicked, statistics
      ensures Valid() && AllSettled(puts)
      ensures Later(old(sock), asked.sock, now) && Later(asked.sock, sock, now)
      ensures asked.gets.Keys == old(gets).Keys && (AllAskedClosest(old(gets)) ==> asked == old(State()))
      ensures forall k :: k in old(gets) ==> OnlyAsked(old(gets)[k], asked.gets[k])
      ensures GetsReported(doneGets, asked.gets, {}, asked.sock, now, timeout)
      ensures PutsEnded(donePuts, old(puts), asked.gets, doneGets, old(sock).table, now, timeout)
      ensures PutsCleaned(old(puts), asked.gets, puts, doneGets, now)
      ensures puts.Keys == old(puts).Keys - TargetsOf(donePuts) && gets == asked.gets - TargetsOf(doneGets)
      ensures NodesStored(doneGets, asked.gets, old(statistics.KeptAverages()))
      ensures panicked == (old(panicked)
                           || exists k :: StartsTooFar(old(puts), asked.gets, doneGets, old(statistics.KeptAverages()),
                                                       k))
      ensures statistics.cached == CachedAll(old(statistics.cached), asked.gets, doneGets, sizes)
    {
      hide Valid, PutsEnded, PutsReported, Failures, FoundBy, Expired, AskedClosest, PutsCleaned, CachedAll, OnlyAsked,
           Later, NodesStored, StartsTooFar, SomeTooMany, AllLogged, AllSettled, Healthy, QueryStatistics.KeptAverages;
      var ended := TickPuts(now);
      doneGets := TickGets(now);
      asked := State();
      SomeTooManyIff(puts, gets, doneGets, statistics.KeptAverages());
      ghost var bests;
      AllAreLogged();
      AllEndings(ended, puts, gets, doneGets, old(sock).table, now, timeout);
      donePuts, bests := CleanupDone(doneGets, ended, sizes, now);
      LeftAreSettled(donePuts, asked.puts, asked.gets, puts, doneGets, old(sock).table, now, timeout);
    }

    /** Puts first, then lookups, then what is done is removed, then maintenance, then one packet. */
    method Tick(around: Around) returns (report: Report, ghost asked: Core, ghost ready: Core)
      requires Valid()
      modifies this, statistics
      ensures Valid() && Later(old(sock), sock, around.now)
      ensures Advanced(checks, old(State()), asked, ready, State(), publicAddress, report, around, timeout)
      ensures NodesStored(report.doneGets, asked.gets, old(statistics.KeptAverages()))
      ensures panicked == (old(panicked)
                           || exists k :: StartsTooFar(old(puts), asked.gets, report.doneGets,
                                                       old(statistics.KeptAverages()), k))
      ensures forall k :: Peek(statistics.cached, k)
                       == Peek(CachedAll(old(statistics.cached), asked.gets, report.doneGets, around.sizes), k)
    {
      hide Valid, PutsEnded, Heard, SendAll, FoundBy, Expired, AskedClosest, PutsCleaned, OnlyHeard, Looked, CachedAll,
           Peek, OnlyAsked, Later, NodesStored, StartsTooFar, AllSettled, GetsReported, QueryStatistics.KeptAverages;
      var doneGets, donePuts;
      doneGets, donePuts, asked := TickQueries(around.now, around.sizes);
      ghost var cleaned := sock;
      Maintain(around.now, around.tableEmpty, around.toPing, around.seeds(id));
      ready := State();
      LaterTrans(asked.sock, cleaned, sock, around.now);
      LaterTrans(old(sock), asked.sock, sock, around.now);
      var heard := HandleMessage(around);
      LaterTrans(old(sock), ready.sock, sock, around.now);
      report := Report(doneGets, donePuts, heard);
    }
  }
}
