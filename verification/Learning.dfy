/** What a lookup learns from one reply: candidates, responders, votes and values, each exactly. */
module Learning {
  import opened Ids
  import opened Nodes
  import opened Options
  import opened SortedList
  import opened Closest
  import opened RoutingTables
  import opened IterativeQueries
  import opened Mutable
  import opened RpcCore
  import opened RpcSteps

  // === Sorted lists that grow ===

  /** The node is in the list, or a node in the list keeps it out. */
  ghost predicate Accounted(crc: Crc, target: Id, ns: seq<Node>, n: Node) {
    n in ns || Refused(KeyFor(crc, target), BlocksFor(crc), ns, n)
  }

  lemma StillAccounted(crc: Crc, target: Id, ns: seq<Node>, more: seq<Node>, n: Node)
    requires Accounted(crc, target, ns, n) && forall x <- ns :: x in more
    ensures Accounted(crc, target, more, n)
  {
    var key, blocks := KeyFor(crc, target), BlocksFor(crc);
    if n !in ns {
      var i :| 0 <= i < |ns| && (blocks(ns[i], n) || key(ns[i]) == key(n));
      assert ns[i] in ns && ns[i] in more;
      var j :| 0 <= j < |more| && more[j] == ns[i];
    }
  }

  lemma OneIsAccounted(crc: Crc, target: Id, ns: seq<Node>, n: Node)
    requires Sorted(KeyFor(crc, target), ns)
    ensures var after := AddOne(KeyFor(crc, target), BlocksFor(crc), ns, n);
            && (forall x <- ns :: x in after) && Accounted(crc, target, after, n)
            && (forall x <- after :: x in ns || x == n)
  {
    hide KeyFor, BlocksFor, Refused, AddOne;
    var key, blocks := KeyFor(crc, target), BlocksFor(crc);
    var after := AddOne(key, blocks, ns, n);
    AddKeepsSorted(key, blocks, ns, n);
    forall x <- ns ensures x in after {
      MemberAfter(key, blocks, ns, n, x);
    }
    forall x <- after ensures x in ns || x == n {
      MemberAfter(key, blocks, ns, n, x);
    }
    MemberAfter(key, blocks, ns, n, n);
  }

  /** Adding nodes loses none, takes each of them unless one in the list keeps it out, and invents none. */
  lemma {:induction false} AllAreAccounted(crc: Crc, target: Id, ns: seq<Node>, incoming: seq<Node>)
    requires Sorted(KeyFor(crc, target), ns)
    ensures var after := AddAll(KeyFor(crc, target), BlocksFor(crc), ns, incoming);
            && (forall x <- ns :: x in after)
            && (forall x <- incoming :: Accounted(crc, target, after, x))
            && (forall x <- after :: x in ns || x in incoming)
  {
    if incoming != [] {
      hide Sorted, Accounted;
      var key, blocks := KeyFor(crc, target), BlocksFor(crc);
      var init, last := incoming[..|incoming| - 1], incoming[|incoming| - 1];
      var before, after := AddAll(key, blocks, ns, init), AddAll(key, blocks, ns, incoming);
      assert incoming == init + [last] && after == AddOne(key, blocks, before, last);
      hide AddAll, AddOne;
      AllAreAccounted(crc, target, ns, init);
      AddAllSorted(key, blocks, ns, init);
      OneIsAccounted(crc, target, before, last);
      forall x <- incoming ensures Accounted(crc, target, after, x) {
        if x in init {
          StillAccounted(crc, target, before, after, x);
        }
      }
    }
  }

  // === One reply ===

  /** The value that a payload claims to be. */
  function Claimed(target: Id, salt: Option<Bytes>, p: Payload): Value {
    match p
    case PeersPayload(peers) => PeersValue(peers)
    case ImmutablePayload(v) => ImmutableValue(v)
    case MutablePayload(v, k, sequence, sig) => MutableValue(MutableItem(target, k, sequence, v, sig, salt))
  }

  /** Which candidates and responders the lookup has afterwards: no old one is lost, no named one is forgotten. */
  lemma ReplyTeaches(checks: Checks, target: Id, e: GetEntry, from: Addr, r: Reply, now: nat)
    requires LookupOk(checks, target, e)
    ensures var after := Informed(checks, target, e, from, r, now);
            && (forall n <- e.query.closest :: n in after.query.closest)
            && (forall n <- r.closer :: Accounted(checks.crc, target, after.query.closest, n))
            && (forall n <- after.query.closest :: n in e.query.closest || n in r.closer)
            && (forall n <- e.responders :: n in after.responders)
            && (r.token.Some? ==>
                  var sender := Node(r.token.value.0, from, Some(r.token.value.1), now);
                  && Accounted(checks.crc, target, after.responders, sender)
                  && forall n <- after.responders :: n in e.responders || n == sender)
            && (r.token.None? ==> after.responders == e.responders)
  {
    hide Accounted, ValueIn, Sorted, AddAll, AddOne;
    AllAreAccounted(checks.crc, target, e.query.closest, r.closer);
    if r.token.Some? {
      OneIsAccounted(checks.crc, target, e.responders,
                     Node(r.token.value.0, from, Some(r.token.value.1), now));
    }
  }

  /** The address that the reply saw us at gains one vote, and no other gains any. */
  lemma ReplyVotes(checks: Checks, target: Id, e: GetEntry, from: Addr, r: Reply, now: nat, a: Addr)
    ensures VotesFor(Informed(checks, target, e, from, r, now).votes, a)
         == VotesFor(e.votes, a) + if r.requesterIp == Some(a) then 1 else 0
  {
  }

  /** The claimed value joins the responses exactly when it is genuine for the target. */
  lemma ReplyBrings(checks: Checks, target: Id, e: GetEntry, from: Addr, r: Reply, now: nat)
    ensures var after := Informed(checks, target, e, from, r, now).responses;
            && (r.payload.None? ==> after == e.responses)
            && (r.payload.Some? ==>
                  var value := Claimed(target, e.salt, r.payload.value);
                  after == e.responses + if Genuine(checks, target, e.salt, value) then [value] else [])
  {
  }

  /** A node that a reply names is asked by the next tick, unless a nearer or better node stands in its way. */
  lemma NamedIsAsked(checks: Checks, c: Core, d: Core, from: Addr, r: Reply, now: nat, k: Id, n: Node, asked: Core,
                     ready: Core, after: Core, publicAddress: Option<Addr>, report: Report, around: Around,
                     timeout: nat)
    requires LookupsOk(checks, c.gets) && Delivered(checks, c, d, from, r, now)
    requires k in c.gets && r.tid in c.gets[k].query.inflight && n in r.closer
    requires Advanced(checks, d, asked, ready, after, publicAddress, report, around, timeout)
    ensures k in asked.gets && Accounted(checks.crc, k, asked.gets[k].query.closest, n)
    ensures n in FirstK(asked.gets[k].query.closest) ==> n.addr in asked.gets[k].query.visited
  {
    hide Accounted, Informed, LookupOk, PutsEnded, PutsCleaned, Heard, OnlyHeard, Joined, Laters;
    assert LookupOk(checks, k, c.gets[k]);
    ReplyTeaches(checks, k, c.gets[k], from, r, now);
    assert OnlyAsked(d.gets[k], asked.gets[k]);
  }
}
