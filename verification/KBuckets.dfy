/** K-buckets and the table of buckets as values: what every add and remove keeps. */
module KBuckets {
  import opened Ids
  import opened Nodes

  /** What the table asks about nodes: their distance from its owner, their security, who keeps whom out. */
  datatype Rules = Rules(dist: Id -> nat, secure: Node -> bool, blocks: (Node, Node) -> bool)

  function DistanceFrom(owner: Id): Id -> nat { (id: Id) => Distance(owner, id) }

  function SecureFor(crc: Crc): Node -> bool { (n: Node) => IsSecure(crc, n) }

  function RulesFor(crc: Crc, owner: Id): Rules {
    Rules(DistanceFrom(owner), SecureFor(crc), BlocksFor(crc))
  }

  ghost predicate Bounded(r: Rules) {
    forall id :: r.dist(id) <= MAX_DISTANCE
  }

  // === One bucket ===

  /** The index of the first node with this id, or the length. */
  function Position(nodes: seq<Node>, id: Id): (index: nat)
    ensures index <= |nodes|
    ensures index < |nodes| ==> nodes[index].id == id
    ensures forall k :: 0 <= k < index ==> nodes[k].id != id
  {
    if nodes == [] then 0 else if nodes[0].id == id then 0 else 1 + Position(nodes[1..], id)
  }

  /** `Vec::remove`: everything but the element at `index`, in order. */
  function RemoveAt(nodes: seq<Node>, index: nat): seq<Node>
    requires index < |nodes|
  {
    nodes[..index] + nodes[index + 1..]
  }

  function BucketAdd(secure: Node -> bool, nodes: seq<Node>, incoming: Node, now: nat): (seq<Node>, bool) {
    var index := Position(nodes, incoming.id);
    if index < |nodes| then
      if secure(incoming) || (!secure(nodes[index]) && SameIp(nodes[index], incoming)) then
        (RemoveAt(nodes, index) + [incoming], true)
      else (nodes, false)
    else if |nodes| < MAX_BUCKET_SIZE_K then (nodes + [incoming], true)
    else if IsStale(nodes[0], now) then (nodes[1..] + [incoming], true)
    else (nodes, false)
  }

  function BucketRemove(nodes: seq<Node>, id: Id): seq<Node> {
    if nodes == [] then []
    else if nodes[0].id == id then BucketRemove(nodes[1..], id)
    else [nodes[0]] + BucketRemove(nodes[1..], id)
  }

  ghost predicate UniqueIds(nodes: seq<Node>) {
    forall i, j :: 0 <= i < j < |nodes| ==> nodes[i].id != nodes[j].id
  }

  /** Least recently seen first. */
  ghost predicate OrderedByLastSeen(nodes: seq<Node>) {
    forall i, j :: 0 <= i < j < |nodes| ==> nodes[i].lastSeen <= nodes[j].lastSeen
  }

  lemma RemoveAtKeeps(nodes: seq<Node>, index: nat)
    requires index < |nodes| && UniqueIds(nodes)
    ensures UniqueIds(RemoveAt(nodes, index))
    ensures forall n :: n in RemoveAt(nodes, index) <==> n in nodes && n != nodes[index]
    ensures forall n <- RemoveAt(nodes, index) :: n.id != nodes[index].id
  {
    var after := RemoveAt(nodes, index);
    assert forall k :: 0 <= k < |after| ==> after[k] == nodes[if k < index then k else k + 1];
    forall n | n in nodes && n != nodes[index] ensures n in after {
      var k :| 0 <= k < |nodes| && nodes[k] == n;
      assert after[if k < index then k else k - 1] == n;
    }
  }

  lemma PushKeeps(nodes: seq<Node>, n: Node)
    requires UniqueIds(nodes) && forall x <- nodes :: x.id != n.id
    ensures UniqueIds(nodes + [n])
  {
    assert forall k :: 0 <= k < |nodes| ==> nodes[k] in nodes;
  }

  /** Adding keeps ids unique and the size in bounds, and touches only the new node's id or one stale node. */
  lemma BucketAddKeeps(secure: Node -> bool, nodes: seq<Node>, incoming: Node, now: nat)
    requires UniqueIds(nodes) && |nodes| <= MAX_BUCKET_SIZE_K
    ensures var (after, added) := BucketAdd(secure, nodes, incoming, now);
            && UniqueIds(after) && |after| <= MAX_BUCKET_SIZE_K
            && (added ==> after != [] && after[|after| - 1] == incoming)
            && (!added ==> after == nodes)
            && (forall n <- after :: n == incoming || (n in nodes && (added ==> n.id != incoming.id)))
            && (forall n <- nodes :: n in after || n.id == incoming.id
                  || (|nodes| == MAX_BUCKET_SIZE_K && n == nodes[0] && IsStale(n, now)))
  {
    var (after, added) := BucketAdd(secure, nodes, incoming, now);
    var index := Position(nodes, incoming.id);
    if index < |nodes| {
      RemoveAtKeeps(nodes, index);
      PushKeeps(RemoveAt(nodes, index), incoming);
    } else if added && |nodes| == MAX_BUCKET_SIZE_K {
      RemoveAtKeeps(nodes, 0);
      assert RemoveAt(nodes, 0) == nodes[1..];
      PushKeeps(nodes[1..], incoming);
    } else if added {
      PushKeeps(nodes, incoming);
    }
  }

  /** A bucket that is fed in arrival order stays ordered by least recently seen. */
  lemma BucketAddKeepsOrder(secure: Node -> bool, nodes: seq<Node>, incoming: Node, now: nat)
    requires OrderedByLastSeen(nodes) && forall n <- nodes :: n.lastSeen <= incoming.lastSeen
    ensures OrderedByLastSeen(BucketAdd(secure, nodes, incoming, now).0)
  {
    assert forall i :: 0 <= i < |nodes| ==> nodes[i] in nodes;
  }

  /** In an ordered bucket, a new id is refused exactly when the bucket is full and holds no stale node. */
  lemma NewIdRefusedIff(secure: Node -> bool, nodes: seq<Node>, incoming: Node, now: nat)
    requires OrderedByLastSeen(nodes) && forall n <- nodes :: n.id != incoming.id
    ensures !BucketAdd(secure, nodes, incoming, now).1
       <==> |nodes| >= MAX_BUCKET_SIZE_K && forall n <- nodes :: !IsStale(n, now)
  {
    var index := Position(nodes, incoming.id);
    assert forall k :: 0 <= k < |nodes| ==> nodes[k] in nodes;
    if nodes != [] {
      assert nodes[0] in nodes;
      forall n <- nodes ensures IsStale(n, now) ==> IsStale(nodes[0], now) {
        var i :| 0 <= i < |nodes| && nodes[i] == n;
      }
    }
  }

  lemma {:induction false} BucketRemoveContents(nodes: seq<Node>, id: Id)
    ensures forall n :: n in BucketRemove(nodes, id) <==> n in nodes && n.id != id
    ensures |BucketRemove(nodes, id)| <= |nodes|
  {
    if nodes != [] {
      BucketRemoveContents(nodes[1..], id);
      assert nodes == [nodes[0]] + nodes[1..];
    }
  }

  ghost predicate Holds(rel: (Node, Node) -> bool, nodes: seq<Node>) {
    forall i, j :: 0 <= i < j < |nodes| ==> rel(nodes[i], nodes[j])
  }

  /** Whatever relates earlier nodes to later ones still does after a removal. */
  lemma {:induction false} BucketRemoveKeepsPairs(rel: (Node, Node) -> bool, nodes: seq<Node>, id: Id)
    requires Holds(rel, nodes)
    ensures Holds(rel, BucketRemove(nodes, id))
  {
    if nodes != [] {
      var rest := BucketRemove(nodes[1..], id);
      BucketRemoveKeepsPairs(rel, nodes[1..], id);
      BucketRemoveContents(nodes[1..], id);
      forall k | 0 <= k < |rest| ensures rel(nodes[0], rest[k]) {
        assert rest[k] in nodes[1..];
        var j :| 0 <= j < |nodes[1..]| && nodes[1..][j] == rest[k];
        assert nodes[j + 1] == rest[k];
      }
    }
  }

  lemma {:induction false} BucketRemoveKeeps(nodes: seq<Node>, id: Id)
    ensures forall n :: n in BucketRemove(nodes, id) <==> n in nodes && n.id != id
    ensures |BucketRemove(nodes, id)| <= |nodes|
    ensures UniqueIds(nodes) ==> UniqueIds(BucketRemove(nodes, id))
    ensures OrderedByLastSeen(nodes) ==> OrderedByLastSeen(BucketRemove(nodes, id))
  {
    BucketRemoveContents(nodes, id);
    var differ := (a: Node, b: Node) => a.id != b.id;
    var older := (a: Node, b: Node) => a.lastSeen <= b.lastSeen;
    if UniqueIds(nodes) {
      assert Holds(differ, nodes);
      BucketRemoveKeepsPairs(differ, nodes, id);
    }
    if OrderedByLastSeen(nodes) {
      assert Holds(older, nodes);
      BucketRemoveKeepsPairs(older, nodes, id);
    }
  }

  // === The table ===

  type Buckets = map<nat, seq<Node>>

  predicate SomeBucketBlocks(r: Rules, m: Buckets, node: Node) {
    exists d :: d in m && exists i :: 0 <= i < |m[d]| && r.blocks(m[d][i], node)
  }

  function BucketAt(m: Buckets, d: nat): seq<Node> { if d in m then m[d] else [] }

  function TableAdd(r: Rules, m: Buckets, node: Node, now: nat): (Buckets, bool) {
    var d := r.dist(node.id);
    if d == 0 || SomeBucketBlocks(r, m, node) then (m, false)
    else
      var (bucket, added) := BucketAdd(r.secure, BucketAt(m, d), node, now);
      (m[d := bucket], added)
  }

  function TableRemove(r: Rules, m: Buckets, id: Id): Buckets {
    var d := r.dist(id);
    if d in m then m[d := BucketRemove(m[d], id)] else m
  }

  ghost predicate InTable(m: Buckets, n: Node) {
    exists d :: d in m && n in m[d]
  }

  /** What holds of every table that was built by adds and removes. */
  ghost predicate TableInv(r: Rules, m: Buckets) {
    && (forall d <- m :: 1 <= d <= MAX_DISTANCE && |m[d]| <= MAX_BUCKET_SIZE_K && UniqueIds(m[d]))
    && (forall d <- m, n <- m[d] :: r.dist(n.id) == d)
    && (forall a, b :: InTable(m, a) && InTable(m, b) && a.id != b.id ==> !(r.blocks(a, b) && r.blocks(b, a)))
  }

  /** Ids are unique across the whole table, because the id decides the bucket. */
  lemma IdsUnique(r: Rules, m: Buckets, a: Node, b: Node)
    requires TableInv(r, m) && InTable(m, a) && InTable(m, b) && a.id == b.id
    ensures a == b
  {
    var d :| d in m && a in m[d];
    var e :| e in m && b in m[e];
    assert d == e;
    var i :| 0 <= i < |m[d]| && m[d][i] == a;
    var j :| 0 <= j < |m[d]| && m[d][j] == b;
  }

  lemma NotBlockedByAny(r: Rules, m: Buckets, node: Node, n: Node)
    requires !SomeBucketBlocks(r, m, node) && InTable(m, n)
    ensures !r.blocks(n, node)
  {
    var d :| d in m && n in m[d];
    var i :| 0 <= i < |m[d]| && m[d][i] == n;
  }

  /** What one add does to the table's contents. */
  lemma TableAddContents(r: Rules, m: Buckets, node: Node, now: nat)
    requires TableInv(r, m)
    ensures var (after, added) := TableAdd(r, m, node, now);
            && (added ==> InTable(after, node))
            && (forall n :: InTable(after, n) ==> n == node || InTable(m, n))
            && (added ==> forall n :: InTable(after, n) && n.id == node.id ==> n == node)
            && (!added ==> forall n :: InTable(after, n) <==> InTable(m, n))
            && (forall n :: InTable(m, n) && !InTable(after, n) ==>
                  added && (n.id == node.id || (r.dist(n.id) == r.dist(node.id) && IsStale(n, now))))
  {
    var (after, added) := TableAdd(r, m, node, now);
    var d := r.dist(node.id);
    if d != 0 && !SomeBucketBlocks(r, m, node) {
      var bucket := BucketAt(m, d);
      BucketAddKeeps(r.secure, bucket, node, now);
      assert after[d] == BucketAdd(r.secure, bucket, node, now).0;
      forall n ensures InTable(after, n) ==> n == node || (InTable(m, n) && (added ==> n.id != node.id)) {
        if InTable(after, n) {
          var e :| e in after && n in after[e];
          if e == d {
            assert n == node || (d in m && n in m[d]);
          } else {
            assert e in m && n in m[e] && r.dist(n.id) == e;
          }
        }
      }
      forall n | InTable(m, n)
        ensures InTable(after, n) || (added && (n.id == node.id || (r.dist(n.id) == d && IsStale(n, now))))
      {
        var e :| e in m && n in m[e];
        if e != d {
          assert e in after && after[e] == m[e];
        } else if n in after[d] {
          assert d in after;
        }
      }
    }
  }

  lemma AddKeepsTableInv(r: Rules, m: Buckets, node: Node, now: nat)
    requires Bounded(r) && TableInv(r, m)
    ensures TableInv(r, TableAdd(r, m, node, now).0)
  {
    var (after, added) := TableAdd(r, m, node, now);
    var d := r.dist(node.id);
    if d != 0 && !SomeBucketBlocks(r, m, node) {
      BucketAddKeeps(r.secure, BucketAt(m, d), node, now);
      TableAddContents(r, m, node, now);
      forall a, b | InTable(after, a) && InTable(after, b) && a.id != b.id
        ensures !(r.blocks(a, b) && r.blocks(b, a))
      {
        if a == node {
          NotBlockedByAny(r, m, node, b);
        } else if b == node {
          NotBlockedByAny(r, m, node, a);
        }
      }
    }
  }

  lemma RemoveKeepsTableInv(r: Rules, m: Buckets, id: Id)
    requires TableInv(r, m)
    ensures TableInv(r, TableRemove(r, m, id))
    ensures forall n :: InTable(TableRemove(r, m, id), n) <==> InTable(m, n) && n.id != id
  {
    var after, d := TableRemove(r, m, id), r.dist(id);
    if d in m {
      BucketRemoveKeeps(m[d], id);
    }
    forall n ensures InTable(after, n) <==> InTable(m, n) && n.id != id {
      if InTable(after, n) {
        var e :| e in after && n in after[e];
        assert e in m && n in m[e];
      }
      if InTable(m, n) && n.id != id {
        var e :| e in m && n in m[e];
        assert e in after && n in after[e];
      }
    }
  }

  // === Runs ===

  datatype Op = Add(node: Node, now: nat) | Remove(id: Id)

  function Apply(r: Rules, m: Buckets, op: Op): Buckets {
    match op
    case Add(node, now) => TableAdd(r, m, node, now).0
    case Remove(id) => TableRemove(r, m, id)
  }

  function Run(r: Rules, m: Buckets, ops: seq<Op>): Buckets
    decreases |ops|
  {
    if ops == [] then m else Run(r, Apply(r, m, ops[0]), ops[1..])
  }

  /** The table invariant holds after any run of adds and removes. */
  lemma {:induction false} RunKeepsTableInv(r: Rules, m: Buckets, ops: seq<Op>)
    requires Bounded(r) && TableInv(r, m)
    ensures TableInv(r, Run(r, m, ops))
    decreases |ops|
  {
    if ops != [] {
      match ops[0] {
        case Add(node, now) => AddKeepsTableInv(r, m, node, now);
        case Remove(id) => RemoveKeepsTableInv(r, m, id);
      }
      RunKeepsTableInv(r, Apply(r, m, ops[0]), ops[1..]);
    }
  }

  // === Eviction in reachable tables ===

  /** Every bucket is ordered by least recently seen, and nobody was seen after `t`. */
  ghost predicate OrderedUpTo(m: Buckets, t: nat) {
    && (forall d <- m :: OrderedByLastSeen(m[d]))
    && (forall d <- m, n <- m[d] :: n.lastSeen <= t)
  }

  /** Nodes arrive in the order in which they were seen; removals come at any time. */
  ghost predicate Arrivals(ops: seq<Op>, t: nat)
    decreases |ops|
  {
    if ops == [] then true
    else if ops[0].Add? then ops[0].node.lastSeen >= t && Arrivals(ops[1..], ops[0].node.lastSeen)
    else Arrivals(ops[1..], t)
  }

  lemma AddKeepsOrder(r: Rules, m: Buckets, node: Node, now: nat, t: nat)
    requires OrderedUpTo(m, t) && t <= node.lastSeen
    ensures OrderedUpTo(TableAdd(r, m, node, now).0, node.lastSeen)
  {
    var d := r.dist(node.id);
    var bucket := BucketAt(m, d);
    BucketAddKeepsOrder(r.secure, bucket, node, now);
    var (after, added) := BucketAdd(r.secure, bucket, node, now);
    forall n <- after ensures n.lastSeen <= node.lastSeen {
      BucketAddMembers(r.secure, bucket, node, now, n);
    }
  }

  lemma BucketAddMembers(secure: Node -> bool, nodes: seq<Node>, incoming: Node, now: nat, n: Node)
    requires n in BucketAdd(secure, nodes, incoming, now).0
    ensures n == incoming || n in nodes
  {
  }

  lemma RemoveKeepsOrder(r: Rules, m: Buckets, id: Id, t: nat)
    requires OrderedUpTo(m, t)
    ensures OrderedUpTo(TableRemove(r, m, id), t)
  {
    var d := r.dist(id);
    if d in m {
      BucketRemoveKeeps(m[d], id);
    }
  }

  /** Whatever adds and removes built a table, its buckets are ordered by least recently seen. */
  lemma {:induction false} RunKeepsOrder(r: Rules, m: Buckets, ops: seq<Op>, t: nat) returns (last: nat)
    requires OrderedUpTo(m, t) && Arrivals(ops, t)
    ensures last >= t && OrderedUpTo(Run(r, m, ops), last)
    decreases |ops|
  {
    last := t;
    if ops != [] {
      match ops[0] {
        case Add(node, now) =>
          AddKeepsOrder(r, m, node, now, t);
          last := RunKeepsOrder(r, Apply(r, m, ops[0]), ops[1..], node.lastSeen);
        case Remove(id) =>
          RemoveKeepsOrder(r, m, id, t);
          last := RunKeepsOrder(r, Apply(r, m, ops[0]), ops[1..], t);
      }
    }
  }

  /**
   * In every table that adds and removes can build, a new node that nothing blocks is refused
   * exactly when its bucket holds 20 nodes and none of them is stale.
   */
  lemma {:induction false} RefusedInReachableTable(r: Rules, ops: seq<Op>, node: Node, now: nat)
    requires Bounded(r) && Arrivals(ops, 0)
    requires r.dist(node.id) != 0 && !SomeBucketBlocks(r, Run(r, map[], ops), node)
    requires forall n :: InTable(Run(r, map[], ops), n) ==> n.id != node.id
    ensures var m := Run(r, map[], ops);
            var bucket := BucketAt(m, r.dist(node.id));
            !TableAdd(r, m, node, now).1
            <==> |bucket| == MAX_BUCKET_SIZE_K && forall n <- bucket :: !IsStale(n, now)
  {
    var m := Run(r, map[], ops);
    RunKeepsTableInv(r, map[], ops);
    var _ := RunKeepsOrder(r, map[], ops, 0);
    var bucket := BucketAt(m, r.dist(node.id));
    forall n <- bucket ensures n.id != node.id {
      assert InTable(m, n);
    }
    NewIdRefusedIff(r.secure, bucket, node, now);
  }

  // === What the invariant means for one IP ===

  /** Nodes with one IP differ in their first 21 bits, and at most one of them is insecure. */
  lemma SameIpNodesDiffer(crc: Crc, owner: Id, m: Buckets, a: Node, b: Node)
    requires TableInv(RulesFor(crc, owner), m)
    requires InTable(m, a) && InTable(m, b) && a != b && SameIp(a, b)
    ensures First21Bits(a.id) != First21Bits(b.id)
    ensures IsSecure(crc, a) || IsSecure(crc, b)
  {
    var r := RulesFor(crc, owner);
    if a.id == b.id {
      IdsUnique(r, m, a, b);
    }
    assert !(r.blocks(a, b) && r.blocks(b, a));
    assert r.blocks(a, b) == Blocks(crc, a, b) && r.blocks(b, a) == Blocks(crc, b, a);
  }

  lemma SecurePrefixIsKnown(crc: Crc, n: Node)
    requires IsSecure(crc, n) && !IsLocal(n.addr.ip)
    ensures First21Bits(n.id) in SecurePrefixes(crc, n.addr.ip)
  {
    hide IsValidForIp, SecurePrefixes, First21Bits, IsLocal;
    EightSecurePrefixes(crc, n.addr.ip);
  }

  lemma {:induction false} InjectiveImage(nodes: set<Node>, prefixes: set<Bytes>)
    requires forall n <- nodes :: First21Bits(n.id) in prefixes
    requires forall a <- nodes, b <- nodes :: a != b ==> First21Bits(a.id) != First21Bits(b.id)
    ensures |nodes| <= |prefixes|
  {
    if nodes != {} {
      var n :| n in nodes;
      InjectiveImage(nodes - {n}, prefixes - {First21Bits(n.id)});
    }
  }

  /** A public IP holds at most eight secure nodes and at most one insecure node. */
  lemma AtMostEightPlusOne(crc: Crc, owner: Id, m: Buckets, ip: bv32, nodes: set<Node>)
    requires TableInv(RulesFor(crc, owner), m) && !IsLocal(ip)
    requires forall n <- nodes :: InTable(m, n) && n.addr.ip == ip
    ensures |set n | n in nodes && IsSecure(crc, n)| <= 8
    ensures |set n | n in nodes && !IsSecure(crc, n)| <= 1
  {
    hide TableInv, IsSecure, First21Bits, SecurePrefixes, IsLocal, InTable;
    var secure := set n | n in nodes && IsSecure(crc, n);
    var insecure := set n | n in nodes && !IsSecure(crc, n);
    EightSecurePrefixes(crc, ip);
    forall a <- secure, b <- secure | a != b ensures First21Bits(a.id) != First21Bits(b.id) {
      SameIpNodesDiffer(crc, owner, m, a, b);
    }
    forall n <- secure ensures First21Bits(n.id) in SecurePrefixes(crc, ip) {
      SecurePrefixIsKnown(crc, n);
    }
    InjectiveImage(secure, SecurePrefixes(crc, ip));
    if insecure != {} {
      var a :| a in insecure;
      forall b <- insecure ensures b == a {
        if a != b {
          SameIpNodesDiffer(crc, owner, m, a, b);
        }
      }
      assert insecure == {a};
    }
  }
}
