/** What happens when a node that the table knows is seen again, and to nodes that keep answering. */
module Refreshing {
  import opened Ids
  import opened Nodes
  import opened Options
  import opened KBuckets
  import opened RoutingTables
  import opened Maintenance

  // === One add of a known id ===

  /** A known node keeps every node of its own IP with its own id out, itself included. */
  lemma KnownBlocks(crc: Crc, owner: Id, m: Buckets, existing: Node, node: Node)
    requires InTable(m, existing) && existing.id == node.id && SameIp(existing, node)
    ensures SomeBucketBlocks(RulesFor(crc, owner), m, node)
  {
    var d :| d in m && existing in m[d];
    var i :| 0 <= i < |m[d]| && m[d][i] == existing;
    assert RulesFor(crc, owner).blocks(m[d][i], node);
  }

  /**
   * A node whose id is known is added again exactly when it comes from another IP, is secure there,
   * and no node of that IP keeps it out. From its own IP it is never refreshed.
   */
  lemma KnownIdAddedIff(crc: Crc, owner: Id, m: Buckets, existing: Node, node: Node, now: nat)
    requires TableInv(RulesFor(crc, owner), m) && InTable(m, existing) && existing.id == node.id
    ensures TableAdd(RulesFor(crc, owner), m, node, now).1
       <==> !SameIp(existing, node) && IsSecure(crc, node) && !SomeBucketBlocks(RulesFor(crc, owner), m, node)
    ensures SameIp(existing, node) ==> TableAdd(RulesFor(crc, owner), m, node, now) == (m, false)
  {
    hide Distance, IsSecure, SomeBucketBlocks;
    var d :| d in m && existing in m[d];
    assert RulesFor(crc, owner).dist(node.id) == d && d != 0;
    if SameIp(existing, node) {
      KnownBlocks(crc, owner, m, existing, node);
    } else {
      FoundInBucket(SecureFor(crc), m[d], existing, node, now);
    }
  }

  lemma FoundInBucket(secure: Node -> bool, nodes: seq<Node>, existing: Node, node: Node, now: nat)
    requires UniqueIds(nodes) && existing in nodes && existing.id == node.id && !SameIp(existing, node)
    ensures BucketAdd(secure, nodes, node, now).1 <==> secure(node)
  {
    var i :| 0 <= i < |nodes| && nodes[i] == existing;
    var index := Position(nodes, node.id);
    assert index <= i && nodes[index].id == nodes[i].id;
  }

  /** So the branch of a bucket that refreshes an insecure node from its own IP is never taken. */
  lemma NeverRefreshesItsOwnIp(crc: Crc, owner: Id, m: Buckets, node: Node, now: nat)
    requires TableInv(RulesFor(crc, owner), m) && TableAdd(RulesFor(crc, owner), m, node, now).1
    ensures forall existing :: InTable(m, existing) && existing.id == node.id ==>
              !SameIp(existing, node) && IsSecure(crc, node)
  {
    forall existing | InTable(m, existing) && existing.id == node.id
      ensures !SameIp(existing, node) && IsSecure(crc, node)
    {
      KnownIdAddedIff(crc, owner, m, existing, node, now);
    }
  }

  // === A node that keeps answering ===

  /** The node's id is only seen at its own IP and not removed, and the node is never stale when one is added. */
  ghost predicate AtHome(ops: seq<Op>, n: Node) { forall op <- ops :: StaysHome(op, n) }

  ghost predicate StaysHome(op: Op, n: Node) {
    match op
    case Add(node, now) => (node.id == n.id ==> SameIp(n, node)) && !IsStale(n, now)
    case Remove(id) => id != n.id
  }

  /** However often it is seen again, the table holds the node as it first was. */
  lemma {:induction false} FirstSightingStays(crc: Crc, owner: Id, m: Buckets, ops: seq<Op>, n: Node)
    requires TableInv(RulesFor(crc, owner), m) && InTable(m, n) && AtHome(ops, n)
    ensures var after := Run(RulesFor(crc, owner), m, ops);
            InTable(after, n) && forall x :: InTable(after, x) && x.id == n.id ==> x == n
    decreases |ops|
  {
    hide TableInv, InTable;
    var r := RulesFor(crc, owner);
    if ops == [] {
      forall x | InTable(m, x) && x.id == n.id ensures x == n {
        IdsUnique(r, m, x, n);
      }
    } else {
      assert ops[0] in ops && StaysHome(ops[0], n);
      assert forall op <- ops[1..] :: op in ops;
      match ops[0] {
        case Add(node, now) =>
          TableAddContents(r, m, node, now);
          AddKeepsInv(crc, owner, m, node, now);
          if node.id == n.id {
            KnownIdAddedIff(crc, owner, m, n, node, now);
          }
        case Remove(id) => RemoveKeepsTableInv(r, m, id);
      }
      FirstSightingStays(crc, owner, Apply(r, m, ops[0]), ops[1..], n);
    }
  }

  method RunAll(table: RoutingTable, ops: seq<Op>)
    requires table.Valid()
    modifies table
    ensures table.Valid() && table.buckets == Run(RulesFor(table.crc, table.id), old(table.buckets), ops)
  {
    ghost var r := RulesFor(table.crc, table.id);
    for i := 0 to |ops|
      invariant table.Valid() && Run(r, table.buckets, ops[i..]) == Run(r, old(table.buckets), ops)
    {
      assert ops[i..][1..] == ops[i + 1..];
      match ops[i] {
        case Add(node, now) => var _ := table.Add(node, now);
        case Remove(id) => table.Remove(id);
      }
    }
  }

  /** The first purge more than 15 minutes after a node was first seen drops it, however often it answered since. */
  method AnswerUntilPurged(table: RoutingTable, ops: seq<Op>, n: Node, now: nat)
    requires table.Valid() && InTable(table.buckets, n) && AtHome(ops, n) && now > n.lastSeen + STALE_TIME
    modifies table
    ensures table.Valid() && forall x :: InTable(table.buckets, x) ==> x.id != n.id
  {
    FirstSightingStays(table.crc, table.id, table.buckets, ops, n);
    RunAll(table, ops);
    ghost var before := table.buckets;
    var _ := PurgeAndPing(table, now);
    forall x | InTable(table.buckets, x) ensures x.id != n.id {
      assert InTable(before, x) && !IsStale(x, now);
    }
  }

  /**
   * A run from an empty table: a node is seen first at 0 and answers again ten minutes later; the
   * purge five minutes after that answer drops it, and nothing asked for it was left unanswered.
   */
  method DropAnAnsweringNode(crc: Crc, owner: Id, id: Id, addr: Addr) returns (table: RoutingTable, added: bool)
    requires id != owner
    ensures added && table.Valid() && forall n :: InTable(table.buckets, n) ==> n.id != id
    ensures !IsStale(Node(id, addr, None, 600_000), 900_001)
  {
    var first, again := Node(id, addr, None, 0), Node(id, addr, None, 600_000);
    DistanceZeroIff(owner, id);
    table := new RoutingTable(crc, owner);
    added := table.Add(first, 0);
    TableAddContents(RulesFor(crc, owner), map[], first, 0);
    AnswerUntilPurged(table, [Add(again, 600_000)], first, 900_001);
  }
}
