/** Whom a new lookup asks, what its first caller is given, and which puts may follow one in flight. */
module Opening {
  import opened Ids
  import opened Nodes
  import opened Options
  import opened SortedList
  import opened Closest
  import opened Lru
  import opened IterativeQueries
  import opened PutQueries
  import opened Statistics
  import opened Mutable
  import opened RpcCore
  import opened RpcSteps
  import opened Learning
  import opened Channels
  import opened Servers

  // === Whom a lookup asks ===

  /** The bootstrapping nodes are asked exactly when there are fewer nodes from the table than they are. */
  lemma ExplicitIff(bootstrap: seq<Addr>, seeds: seq<Node>)
    ensures Explicit(bootstrap, seeds) == if |seeds| < |bootstrap| then bootstrap else []
  {
  }

  /** The nodes of the last lookup of a target, while it is cached. */
  lemma CachedNodesAre(cache: Cache<Id, CachedQuery>, target: Id)
    ensures Contains(cache, target) ==> CachedNodes(cache, target) == Peek(cache, target).value.nodes
    ensures !Contains(cache, target) ==> CachedNodes(cache, target) == []
  {
  }

  /** Candidates are the table's nodes and those of the last lookup, none forgotten and none invented, nearest first. */
  lemma CandidatesAre(crc: Crc, target: Id, seeds: seq<Node>, cached: seq<Node>)
    ensures var candidates := Candidates(crc, target, seeds, cached);
            && Sorted(KeyFor(crc, target), candidates)
            && (forall n <- seeds :: Accounted(crc, target, candidates, n))
            && (forall n <- cached :: Accounted(crc, target, candidates, n))
            && (forall n <- candidates :: n in seeds || n in cached)
            && (candidates == [] <==> seeds == [] && cached == [])
  {
    hide Accounted, AddAll;
    AllAreAccounted(crc, target, [], seeds + cached);
    AddAllSorted(KeyFor(crc, target), BlocksFor(crc), [], seeds + cached);
    forall n <- seeds ensures n in seeds + cached {
    }
    forall n <- cached ensures n in seeds + cached {
    }
    var candidates := Candidates(crc, target, seeds, cached);
    forall n <- candidates ensures n in seeds || n in cached {
      assert n in [] || n in seeds + cached;
    }
    if seeds + cached != [] {
      assert (seeds + cached)[0] in seeds + cached;
      AccountedMeansSome(crc, target, candidates, (seeds + cached)[0]);
    } else {
      NoneAdded(crc, target);
      assert seeds == [] && cached == [];
    }
  }

  lemma AccountedMeansSome(crc: Crc, target: Id, ns: seq<Node>, n: Node)
    requires Accounted(crc, target, ns, n)
    ensures ns != []
  {
  }

  lemma {:induction false} NoneAdded(crc: Crc, target: Id)
    ensures AddAll(KeyFor(crc, target), BlocksFor(crc), [], []) == []
  {
  }

  /**
   * A new lookup has asked exactly the bootstrapping nodes that are due, the extra addresses and its
   * 20 closest candidates; it asks nobody only when it knows of nobody at all.
   */
  lemma LookedAsks(checks: Checks, bootstrap: seq<Addr>, c: RpcCore.Core, cache: Cache<Id, CachedQuery>, target: Id,
                   findNode: bool, salt: Option<Bytes>, seeds: seq<Node>, extra: seq<Addr>, now: nat)
    requires target !in c.gets
    ensures var e := Looked(checks, bootstrap, c, cache, target, findNode, salt, seeds, extra, now).gets[target];
            && e.query.closest == Candidates(checks.crc, target, seeds, CachedNodes(cache, target))
            && e.findNode == findNode && e.salt == salt && e.responders == [] && e.responses == [] && e.votes == map[]
            && (forall a :: a in e.query.visited <==>
                  (|seeds| < |bootstrap| && a in bootstrap) || a in extra
                  || exists n :: n in FirstK(e.query.closest) && n.addr == a)
            && (e.query.visited == {} <==>
                  bootstrap == [] && extra == [] && seeds == [] && CachedNodes(cache, target) == [])
  {
    hide Candidates, CachedNodes, VisitAll, ToVisit;
    var cached := CachedNodes(cache, target);
    var first := NewLookup(Candidates(checks.crc, target, seeds, cached), findNode, salt);
    var explicit := Explicit(bootstrap, seeds) + extra;
    var d := WithVisits(c, target, first, explicit, now);
    CandidatesAre(checks.crc, target, seeds, cached);
    VisitAllSpec(first.query, c.sock, explicit, now);
    VisitAllSpec(d.gets[target].query, d.sock, ToVisit(d.gets[target].query), now);
    var e := Looked(checks, bootstrap, c, cache, target, findNode, salt, seeds, extra, now).gets[target];
    VisitedAre(e.query, d.gets[target].query, explicit);
    ExplicitOrExtra(bootstrap, seeds, extra, e.query);
  }

  lemma ExplicitOrExtra(bootstrap: seq<Addr>, seeds: seq<Node>, extra: seq<Addr>, q: Query)
    requires forall a :: a in q.visited <==>
               a in Explicit(bootstrap, seeds) + extra || exists n :: n in FirstK(q.closest) && n.addr == a
    ensures forall a :: a in q.visited <==>
              (|seeds| < |bootstrap| && a in bootstrap) || a in extra
              || exists n :: n in FirstK(q.closest) && n.addr == a
    ensures q.visited == {} <==> !(|seeds| < |bootstrap|) && extra == [] && q.closest == []
  {
    ExplicitIff(bootstrap, seeds);
    forall a ensures a in Explicit(bootstrap, seeds) + extra <==> a in Explicit(bootstrap, seeds) || a in extra {
    }
    if q.closest != [] {
      assert FirstK(q.closest)[0] in FirstK(q.closest);
      assert FirstK(q.closest)[0].addr in q.visited;
    }
    if |seeds| < |bootstrap| {
      assert bootstrap[0] in bootstrap && bootstrap[0] in q.visited;
    }
    if extra != [] {
      assert extra[0] in extra && extra[0] in q.visited;
    }
  }

  lemma VisitedAre(after: Query, before: Query, explicit: seq<Addr>)
    requires after.closest == before.closest && forall a :: a in before.visited <==> a in explicit
    requires forall a :: a in after.visited <==> a in before.visited || a in ToVisit(before)
    ensures forall a :: a in after.visited <==>
              a in explicit || exists n :: n in FirstK(after.closest) && n.addr == a
  {
    forall a ensures a in after.visited <==> a in explicit || exists n :: n in FirstK(after.closest) && n.addr == a {
      if a in ToVisit(before) {
        var i :| 0 <= i < |FirstK(before.closest)| && FirstK(before.closest)[i].addr == a;
        assert FirstK(before.closest)[i] in FirstK(after.closest);
      }
    }
  }

  // === What a caller is given at once ===

  /** Besides the responses so far, exactly the item of a signed put in flight for the target, as it was put. */
  lemma GivenIs(c: RpcCore.Core, target: Id)
    ensures var given := GivenAtOnce(c, target);
            var before := if target in c.gets then c.gets[target].responses else [];
            if target in c.puts && c.puts[target].kind.Signed? then
              var put := c.puts[target].kind.put;
              |given| == |before| + 1 && given[..|before|] == before && given[|before|].MutableValue?
              && RequestOf(given[|before|].item, put.cas) == put
            else given == before
    ensures FoundNow(c, target) == None <==>
              target !in c.gets && !(target in c.puts && c.puts[target].kind.Signed?)
  {
  }

  // === Puts in conflict ===

  /**
   * What a node says to a signed put when another for its target is in flight, beside what a server
   * says that has stored the one in flight: nothing is let through that the server refuses, a
   * refusal has the server's own code, and only a put without a cas that the server would take is
   * refused as a risk.
   */
  lemma ConflictsAgreeWithServer(crypto: Crypto, c: Cache<Id, MutableItem>, existing: PutEntry, put: PutMutable)
    requires existing.kind.Signed? && WellFormed(crypto, put) && put.sig != existing.kind.put.sig
    requires Peek(c, put.target) == Some(ItemOf(existing.kind.put))
    ensures var verdict, reply := Rejection(Some(existing), Signed(put)), PutMutableStep(crypto, c, put).1;
            && (verdict == None ==> reply == PingReply && put.cas.Some?)
            && (verdict == Some(ConflictRisk) <==> reply == PingReply && put.cas.None?)
            && (verdict == Some(PutError.CasFailed) <==>
                  reply == ErrorReply(301) && put.sequence >= existing.kind.put.sequence)
            && (verdict == Some(NotMostRecent) <==>
                  reply == ErrorReply(302)
                  || (reply == ErrorReply(301) && put.sequence < existing.kind.put.sequence))
  {
  }

  /** Only signed puts meet: the same one again is no conflict, and a plain one never is. */
  lemma OthersNeverConflict(existing: Option<PutEntry>, kind: PutKind)
    ensures kind.Plain? || existing.None? || existing.value.kind.Plain? ==>
              Rejection(existing, kind) == None && !SamePut(existing, kind)
    ensures SamePut(existing, kind) ==> Rejection(existing, kind) == None
    ensures kind.Signed? && existing.Some? && existing.value.kind.Signed? ==>
              (SamePut(existing, kind) <==> kind.put.sig == existing.value.kind.put.sig)
  {
  }

  /** The codes by which servers refuse a put come back to its caller as the errors they stand for. */
  lemma RefusalsComeBack(crypto: Crypto, c: Cache<Id, MutableItem>, put: PutMutable)
    requires WellFormed(crypto, put)
    ensures var reply, stored := PutMutableStep(crypto, c, put).1, Peek(c, put.target);
            && (reply.ErrorReply? ==> stored.Some? && reply.code in {301, 302})
            && (reply == ErrorReply(301) ==>
                  ErrorFor(301) == PutError.CasFailed && put.cas != None && put.cas != Some(stored.value.sequence))
            && (reply == ErrorReply(302) ==>
                  ErrorFor(302) == NotMostRecent && put.sequence < stored.value.sequence)
  {
  }

  /** One server that refuses is enough of a majority for one node, and the caller hears the same error. */
  lemma OneRefusalIsHeard(code: int)
    requires code in {301, 302}
    ensures MajorityRejected(1, TallyAll([RemoteError(code, "")]))
         == Some(if code == 301 then PutError.CasFailed else NotMostRecent)
  {
    var log := [RemoteError(code, "")];
    assert log[..0] == [];
    assert TallyAll(log) == [Tallied(1, RemoteError(code, ""))];
  }

  /** Cached nodes serve a put exactly when one of them was seen within the last five minutes. */
  lemma UsableIff(nodes: seq<Node>, now: nat)
    ensures Usable(nodes, now) <==> exists n :: n in nodes && now <= n.lastSeen + 300_000
  {
    if exists n :: n in nodes && now <= n.lastSeen + 300_000 {
      var n :| n in nodes && now <= n.lastSeen + 300_000;
      var i :| 0 <= i < |nodes| && nodes[i] == n;
    }
  }
}
