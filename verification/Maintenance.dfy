/** Keeping the routing table alive: stale nodes leave, quiet ones are pinged. */
module Maintenance {
  import opened Ids
  import opened Nodes
  import opened KBuckets
  import opened RoutingTables

  /** The stale nodes of a list, and the addresses of those to ping, in order. */
  function StaleIds(nodes: seq<Node>, now: nat): seq<Id> {
    if nodes == [] then []
    else StaleIds(nodes[..|nodes| - 1], now) + if IsStale(nodes[|nodes| - 1], now) then [nodes[|nodes| - 1].id] else []
  }

  function QuietAddrs(nodes: seq<Node>, now: nat): seq<Addr> {
    if nodes == [] then []
    else
      var last := nodes[|nodes| - 1];
      QuietAddrs(nodes[..|nodes| - 1], now) + if !IsStale(last, now) && ShouldPing(last, now) then [last.addr] else []
  }

  lemma {:induction false} StaleIdsAre(nodes: seq<Node>, now: nat)
    ensures forall id :: id in StaleIds(nodes, now) <==> exists n :: n in nodes && n.id == id && IsStale(n, now)
  {
    if nodes != [] {
      var init, last := nodes[..|nodes| - 1], nodes[|nodes| - 1];
      StaleIdsAre(init, now);
      assert nodes == init + [last];
    }
  }

  lemma {:induction false} QuietAddrsAre(nodes: seq<Node>, now: nat)
    ensures forall a :: a in QuietAddrs(nodes, now)
                    <==> exists n :: n in nodes && n.addr == a && !IsStale(n, now) && ShouldPing(n, now)
  {
    if nodes != [] {
      var init, last := nodes[..|nodes| - 1], nodes[|nodes| - 1];
      QuietAddrsAre(init, now);
      assert nodes == init + [last];
    }
  }

  /** Decides first, from one walk over the table. */
  method PurgeAndPingCandidates(table: RoutingTable, now: nat) returns (toPurge: seq<Id>, toPing: seq<Addr>)
    ensures toPurge == StaleIds(NodesOf(table.buckets), now)
    ensures toPing == QuietAddrs(NodesOf(table.buckets), now)
  {
    hide NodesOf, RemainingFrom, StaleIds, QuietAddrs, IsStale, ShouldPing;
    toPurge, toPing := [], [];
    NobodyYet(now);
    var nodes := new RoutingTableIterator(table.buckets);
    ghost var all, seen, left := NodesOf(table.buckets), [], nodes.Remaining();
    var next := nodes.Next();
    while next.Some?
      invariant nodes.Valid() && fresh(nodes)
      invariant left == Pending(next) + nodes.Remaining() && (next.None? ==> left == [])
      invariant all == seen + left
      invariant toPurge == StaleIds(seen, now) && toPing == QuietAddrs(seen, now)
      decreases |left|
    {
      var node := next.value;
      OneMoreNode(seen, node, now);
      if IsStale(node, now) {
        toPurge := toPurge + [node.id];
      } else if ShouldPing(node, now) {
        toPing := toPing + [node.addr];
      }
      MoveOver(seen, node, left);
      seen := seen + [node];
      left := nodes.Remaining();
      next := nodes.Next();
    }
    assert seen + [] == seen;
  }

  lemma {:induction false} NobodyYet(now: nat)
    ensures StaleIds([], now) == [] && QuietAddrs([], now) == []
  {
  }

  lemma {:induction false} OneMoreNode(seen: seq<Node>, n: Node, now: nat)
    ensures StaleIds(seen + [n], now) == if IsStale(n, now) then StaleIds(seen, now) + [n.id] else StaleIds(seen, now)
    ensures QuietAddrs(seen + [n], now)
         == if !IsStale(n, now) && ShouldPing(n, now) then QuietAddrs(seen, now) + [n.addr] else QuietAddrs(seen, now)
  {
    assert (seen + [n])[..|seen|] == seen;
  }

  lemma MoveOver(seen: seq<Node>, node: Node, left: seq<Node>)
    requires left != [] && left[0] == node
    ensures seen + left == (seen + [node]) + left[1..]
  {
  }

  /** Exactly the stale nodes leave, and exactly the quiet ones among the others are to be pinged. */
  method PurgeAndPing(table: RoutingTable, now: nat) returns (toPing: seq<Addr>)
    requires table.Valid()
    modifies table
    ensures table.Valid()
    ensures forall n :: InTable(table.buckets, n) <==> old(InTable(table.buckets, n)) && !IsStale(n, now)
    ensures forall a :: a in toPing
                    <==> exists n :: InTable(table.buckets, n) && n.addr == a && ShouldPing(n, now)
  {
    ghost var before := table.buckets;
    NodesOfContents(table.crc, table.id, before);
    var toPurge;
    toPurge, toPing := PurgeAndPingCandidates(table, now);
    StaleIdsAre(NodesOf(before), now);
    QuietAddrsAre(NodesOf(before), now);
    for i := 0 to |toPurge|
      invariant table.Valid()
      invariant forall n :: InTable(table.buckets, n) <==> InTable(before, n) && n.id !in toPurge[..i]
    {
      RemoveKeepsTableInv(RulesFor(table.crc, table.id), table.buckets, toPurge[i]);
      assert toPurge[..i + 1] == toPurge[..i] + [toPurge[i]];
      table.Remove(toPurge[i]);
    }
    assert toPurge[..|toPurge|] == toPurge;
    forall n | InTable(before, n) ensures n.id in toPurge <==> IsStale(n, now) {
      OneNodePerId(table.crc, table.id, before, toPurge, n, now);
    }
  }

  lemma OneNodePerId(crc: Crc, owner: Id, m: Buckets, stale: seq<Id>, n: Node, now: nat)
    requires TableInv(RulesFor(crc, owner), m) && InTable(m, n)
    requires forall id :: id in stale <==> exists s :: InTable(m, s) && s.id == id && IsStale(s, now)
    ensures n.id in stale <==> IsStale(n, now)
  {
    if n.id in stale {
      var s :| InTable(m, s) && s.id == n.id && IsStale(s, now);
      IdsUnique(RulesFor(crc, owner), m, s, n);
    }
  }
}
