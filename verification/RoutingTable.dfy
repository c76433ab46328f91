/** The routing table as the objects that hold it, and the iterator over its nodes. */
module RoutingTables {
  import opened Ids
  import opened Nodes
  import opened Options
  import opened Sets
  import opened SortedList
  import opened Closest
  import opened KBuckets

  class KBucket {
    var nodes: seq<Node>

    constructor (nodes: seq<Node>)
      ensures this.nodes == nodes
    {
      this.nodes := nodes;
    }

    method Add(crc: Crc, incoming: Node, now: nat) returns (added: bool)
      modifies this
      ensures (nodes, added) == BucketAdd(SecureFor(crc), old(nodes), incoming, now)
    {
      var index := 0;
      while index < |nodes| && nodes[index].id != incoming.id
        invariant index <= |nodes| && forall k :: 0 <= k < index ==> nodes[k].id != incoming.id
      {
        index := index + 1;
      }
      if index < |nodes| {
        var existing := nodes[index];
        if IsSecure(crc, incoming) || (!IsSecure(crc, existing) && SameIp(existing, incoming)) {
          nodes := RemoveAt(nodes, index);
          nodes := nodes + [incoming];
          return true;
        } else {
          return false;
        }
      } else if |nodes| < MAX_BUCKET_SIZE_K {
        nodes := nodes + [incoming];
        return true;
      } else if IsStale(nodes[0], now) {
        nodes := nodes[1..];
        nodes := nodes + [incoming];
        return true;
      } else {
        return false;
      }
    }

    method Remove(id: Id)
      modifies this
      ensures nodes == BucketRemove(old(nodes), id)
    {
      var kept, i := [], 0;
      while i < |nodes|
        invariant i <= |nodes| && nodes == old(nodes)
        invariant BucketRemove(nodes, id) == kept + BucketRemove(nodes[i..], id)
      {
        assert nodes[i..][1..] == nodes[i + 1..];
        if nodes[i].id != id {
          kept := kept + [nodes[i]];
        }
        i := i + 1;
      }
      nodes := kept;
    }
  }

  /**
   * The table owns its buckets, so they are values of its map; a bucket that changes is
   * moved out, changed and moved back.
   */
  class RoutingTable {
    const crc: Crc
    const id: Id
    var buckets: Buckets

    ghost predicate Valid()
      reads this
    {
      TableInv(RulesFor(crc, id), buckets)
    }

    constructor (crc: Crc, id: Id)
      ensures Valid() && this.crc == crc && this.id == id && buckets == map[]
    {
      this.crc, this.id, this.buckets := crc, id, map[];
    }

    /** Whether some bucket keeps the node out. */
    method ExistsSomewhere(node: Node) returns (exists_: bool)
      requires Valid()
      ensures exists_ == SomeBucketBlocks(RulesFor(crc, id), buckets, node)
    {
      var d := 0;
      while d <= MAX_DISTANCE
        invariant 0 <= d <= MAX_DISTANCE + 1
        invariant forall e :: 0 <= e < d && e in buckets ==> !Blocked(BlocksFor(crc), buckets[e], node)
      {
        if d in buckets && AlreadyExists(crc, node, buckets[d]) {
          return true;
        }
        d := d + 1;
      }
      return false;
    }

    method Add(node: Node, now: nat) returns (added: bool)
      requires Valid()
      modifies this
      ensures Valid() && (buckets, added) == TableAdd(RulesFor(crc, id), old(buckets), node, now)
    {
      AddKeepsInv(crc, id, buckets, node, now);
      var distance := Distance(id, node.id);
      if distance == 0 {
        return false;
      }
      var blocked := ExistsSomewhere(node);
      if blocked {
        return false;
      }
      var bucket := new KBucket(BucketAt(buckets, distance));
      added := bucket.Add(crc, node, now);
      buckets := buckets[distance := bucket.nodes];
    }

    method Remove(nodeId: Id)
      requires Valid()
      modifies this
      ensures Valid() && buckets == TableRemove(RulesFor(crc, id), old(buckets), nodeId)
    {
      RemoveKeepsTableInv(RulesFor(crc, id), buckets, nodeId);
      var distance := Distance(id, nodeId);
      if distance in buckets {
        var bucket := new KBucket(buckets[distance]);
        bucket.Remove(nodeId);
        buckets := buckets[distance := bucket.nodes];
      }
    }

    /** The least nodes for a target; the buckets in key order hold what the iterator yields. */
    method ClosestTo(target: Id) returns (closest: seq<Node>)
      requires Valid()
      ensures closest == FirstK(AllAdded(crc, target, NodesOf(buckets)))
    {
      var c := new ClosestNodes(crc, target);
      CollectAll(c);
      closest := c.nodes[..if |c.nodes| < MAX_BUCKET_SIZE_K then |c.nodes| else MAX_BUCKET_SIZE_K];
    }

    /** The nodes to seed a lookup with: the same order, cut where the secure walk stops. */
    method ClosestSecure(target: Id, estimate: nat, subnets: nat) returns (closest: seq<Node>)
      requires Valid()
      ensures exists stop ::
                FirstStop(target, AllAdded(crc, target, NodesOf(buckets)), ExpectedDk(estimate), subnets, stop)
                && closest == CutList(AllAdded(crc, target, NodesOf(buckets)), stop)
    {
      var c := new ClosestNodes(crc, target);
      CollectAll(c);
      closest := c.TakeUntilSecure(estimate, subnets);
    }

    /** Feeds every node that the iterator yields to `c`. */
    method CollectAll(c: ClosestNodes)
      requires c.Valid() && c.nodes == []
      modifies c`nodes
      ensures c.nodes == AllAdded(c.crc, c.target, NodesOf(buckets))
    {
      var nodes := new RoutingTableIterator(buckets);
      ghost var key, blocks := KeyFor(c.crc, c.target), BlocksFor(c.crc);
      ghost var total := AllAdded(c.crc, c.target, NodesOf(buckets));
      ghost var left := nodes.Remaining();
      var next := nodes.Next();
      while next.Some?
        invariant nodes.Valid() && fresh(nodes) && c.Valid()
        invariant left == Pending(next) + nodes.Remaining() && (next.None? ==> left == [])
        invariant AddAll(key, blocks, c.nodes, left) == total
        decreases |left|
      {
        AddAllAppend(key, blocks, c.nodes, [next.value], nodes.Remaining());
        AddEach(c, [next.value]);
        left := nodes.Remaining();
        next := nodes.Next();
      }
    }
  }

  function CutList(all: seq<Node>, stop: nat): seq<Node> { all[..CutAt(|all|, stop)] }

  ghost function Pending(next: Option<Node>): seq<Node> { if next.Some? then [next.value] else [] }

  method AddEach(c: ClosestNodes, incoming: seq<Node>)
    requires c.Valid()
    modifies c`nodes
    ensures c.Valid()
    ensures c.nodes == AddAll(KeyFor(c.crc, c.target), BlocksFor(c.crc), old(c.nodes), incoming)
  {
    for i := 0 to |incoming|
      invariant c.Valid()
      invariant c.nodes == AddAll(KeyFor(c.crc, c.target), BlocksFor(c.crc), old(c.nodes), incoming[..i])
    {
      c.Add(incoming[i]);
      assert incoming[..i + 1][..i] == incoming[..i];
    }
    assert incoming[..|incoming|] == incoming;
  }

  /** A cursor over a borrowed table: the bucket and the index in it of the node to return next. */
  class RoutingTableIterator {
    const table: Buckets
    var bucketIndex: nat
    var nodeIndex: nat

    ghost predicate Valid()
      reads this
    {
      bucketIndex <= MAX_DISTANCE + 1 && (nodeIndex == 0 || nodeIndex < |BucketAt(table, bucketIndex)|)
    }

    /** What the iterator has still to return, in order. */
    ghost function Remaining(): seq<Node>
      requires Valid()
      reads this
    {
      RemainingFrom(table, bucketIndex, nodeIndex)
    }

    constructor (table: Buckets)
      ensures Valid() && this.table == table && Remaining() == NodesOf(table)
    {
      this.table, bucketIndex, nodeIndex := table, 1, 0;
      new;
      assert BucketAt(table, 1)[0..] == BucketAt(table, 1);
    }

    method Next() returns (node: Option<Node>)
      requires Valid()
      modifies this
      ensures Valid()
      ensures node.None? ==> old(Remaining()) == [] && Remaining() == []
      ensures node.Some? ==> old(Remaining()) == [node.value] + Remaining()
    {
      ghost var remaining := RemainingFrom(table, bucketIndex, nodeIndex);
      while bucketIndex <= MAX_DISTANCE
        invariant Valid() && RemainingFrom(table, bucketIndex, nodeIndex) == remaining
        decreases MAX_DISTANCE + 1 - bucketIndex
      {
        var d, index := bucketIndex, nodeIndex;
        if d in table && index < |table[d]| {
          UnfoldNode(table, d, index);
          nodeIndex := index + 1;
          if nodeIndex == |table[d]| {
            UnfoldBucket(table, d);
            nodeIndex := 0;
            bucketIndex := d + 1;
          }
          return Some(table[d][index]);
        }
        UnfoldBucket(table, d);
        bucketIndex := d + 1;
      }
      return None;
    }
  }

  // === The nodes of a table, in bucket order ===

  ghost function NodesFrom(m: Buckets, d: nat): seq<Node>
    decreases MAX_DISTANCE + 1 - d, |m|
  {
    if d > MAX_DISTANCE then [] else BucketAt(m, d) + NodesFrom(m, d + 1)
  }

  ghost function NodesOf(m: Buckets): seq<Node> { NodesFrom(m, 1) }

  ghost function RemainingFrom(m: Buckets, d: nat, index: nat): seq<Node>
    requires index <= |BucketAt(m, d)|
  {
    if d > MAX_DISTANCE then [] else BucketAt(m, d)[index..] + NodesFrom(m, d + 1)
  }

  /** The list from a cursor inside a bucket starts with the node under it. */
  lemma UnfoldNode(m: Buckets, d: nat, index: nat)
    requires d <= MAX_DISTANCE && index < |BucketAt(m, d)|
    ensures RemainingFrom(m, d, index) == [BucketAt(m, d)[index]] + RemainingFrom(m, d, index + 1)
  {
    var bucket, later := BucketAt(m, d), NodesFrom(m, d + 1);
    assert bucket[index..] == [bucket[index]] + bucket[index + 1..];
    assert ([bucket[index]] + bucket[index + 1..]) + later == [bucket[index]] + (bucket[index + 1..] + later);
  }

  /** The list from the end of a bucket is the list from the next one. */
  lemma UnfoldBucket(m: Buckets, d: nat)
    requires d <= MAX_DISTANCE
    ensures RemainingFrom(m, d, |BucketAt(m, d)|) == RemainingFrom(m, d + 1, 0)
  {
    var later := NodesFrom(m, d + 1);
    assert BucketAt(m, d)[|BucketAt(m, d)|..] + later == later;
    if d < MAX_DISTANCE {
      assert BucketAt(m, d + 1)[0..] == BucketAt(m, d + 1);
    }
  }

  function AllAdded(crc: Crc, target: Id, incoming: seq<Node>): seq<Node> {
    AddAll(KeyFor(crc, target), BlocksFor(crc), [], incoming)
  }

  lemma AddKeepsInv(crc: Crc, id: Id, m: Buckets, node: Node, now: nat)
    requires TableInv(RulesFor(crc, id), m)
    ensures TableInv(RulesFor(crc, id), TableAdd(RulesFor(crc, id), m, node, now).0)
  {
    assert Bounded(RulesFor(crc, id));
    AddKeepsTableInv(RulesFor(crc, id), m, node, now);
  }

  lemma {:induction false} NodesFromContents(r: Rules, m: Buckets, d: nat)
    requires TableInv(r, m) && 1 <= d <= MAX_DISTANCE + 1
    ensures forall n :: n in NodesFrom(m, d) <==> InTable(m, n) && r.dist(n.id) >= d
    ensures UniqueIds(NodesFrom(m, d))
    decreases MAX_DISTANCE + 1 - d
  {
    if d <= MAX_DISTANCE {
      NodesFromContents(r, m, d + 1);
      var here, later := BucketAt(m, d), NodesFrom(m, d + 1);
      forall n ensures n in NodesFrom(m, d) <==> InTable(m, n) && r.dist(n.id) >= d {
        if InTable(m, n) && r.dist(n.id) == d {
          var e :| e in m && n in m[e];
        }
      }
      forall i, j | 0 <= i < |here| && 0 <= j < |later| ensures here[i].id != later[j].id {
        assert here[i] in m[d] && later[j] in later;
      }
    } else {
      forall n | InTable(m, n) ensures r.dist(n.id) < d {
        var e :| e in m && n in m[e];
      }
    }
  }

  /** The iterator's list holds every node of the table exactly once. */
  lemma NodesOfContents(crc: Crc, owner: Id, m: Buckets)
    requires TableInv(RulesFor(crc, owner), m)
    ensures forall n :: n in NodesOf(m) <==> InTable(m, n)
    ensures UniqueIds(NodesOf(m))
  {
    NodesFromContents(RulesFor(crc, owner), m, 1);
    forall n | InTable(m, n) ensures RulesFor(crc, owner).dist(n.id) >= 1 {
      var e :| e in m && n in m[e];
    }
  }

  // === Closest nodes ===

  /** An insecure node comes before another node of its IP, in bucket order. */
  ghost predicate InsecureFirst(crc: Crc, ns: seq<Node>) {
    exists i, j :: 0 <= i < j < |ns| && SameIp(ns[i], ns[j]) && !IsSecure(crc, ns[i])
  }

  lemma PairFacts(crc: Crc, owner: Id, m: Buckets, target: Id, a: Node, b: Node)
    requires TableInv(RulesFor(crc, owner), m) && InTable(m, a) && InTable(m, b) && a.id != b.id
    ensures KeyFor(crc, target)(a) != KeyFor(crc, target)(b)
    ensures BlocksFor(crc)(a, b) <==> SameIp(a, b) && !IsSecure(crc, a)
  {
    if KeyFor(crc, target)(a) == KeyFor(crc, target)(b) {
      KeysTellIdsApart(crc, target, a, b);
    }
    if SameIp(a, b) {
      SameIpNodesDiffer(crc, owner, m, a, b);
    }
  }

  lemma CompatibleIff(crc: Crc, owner: Id, m: Buckets, target: Id)
    requires TableInv(RulesFor(crc, owner), m)
    ensures Compatible(KeyFor(crc, target), BlocksFor(crc), NodesOf(m)) <==> !InsecureFirst(crc, NodesOf(m))
  {
    var key, blocks, ns := KeyFor(crc, target), BlocksFor(crc), NodesOf(m);
    NodesOfContents(crc, owner, m);
    forall i, j | 0 <= i < j < |ns|
      ensures key(ns[i]) != key(ns[j])
      ensures blocks(ns[i], ns[j]) <==> SameIp(ns[i], ns[j]) && !IsSecure(crc, ns[i])
    {
      assert ns[i] in ns && ns[j] in ns;
      PairFacts(crc, owner, m, target, ns[i], ns[j]);
    }
  }

  /** The walk keeps every node of the table exactly when no insecure node precedes another of its IP. */
  lemma NothingDroppedIff(crc: Crc, owner: Id, m: Buckets, target: Id)
    requires TableInv(RulesFor(crc, owner), m)
    ensures |AllAdded(crc, target, NodesOf(m))| == |NodesOf(m)| <==> !InsecureFirst(crc, NodesOf(m))
  {
    CompatibleIff(crc, owner, m, target);
    AllKeptIffCompatible(KeyFor(crc, target), BlocksFor(crc), NodesOf(m));
  }

  /** Then `closest` is exactly the least 20 nodes of the table, or all of them. */
  lemma ClosestIsLeast(crc: Crc, owner: Id, m: Buckets, target: Id)
    requires TableInv(RulesFor(crc, owner), m) && !InsecureFirst(crc, NodesOf(m))
    ensures var first := FirstK(AllAdded(crc, target, NodesOf(m)));
            var size := |NodesOf(m)|;
            && |first| == (if size < MAX_BUCKET_SIZE_K then size else MAX_BUCKET_SIZE_K)
            && Sorted(KeyFor(crc, target), first)
            && (forall a <- first :: InTable(m, a))
            && forall a, b :: a in first && InTable(m, b) && b !in first
                 ==> Before(KeyFor(crc, target)(a), KeyFor(crc, target)(b))
  {
    var key, blocks, ns := KeyFor(crc, target), BlocksFor(crc), NodesOf(m);
    CompatibleIff(crc, owner, m, target);
    NodesOfContents(crc, owner, m);
    AllKeptIffCompatible(key, blocks, ns);
    AddAllSorted(key, blocks, [], ns);
    var kept := AllAdded(crc, target, ns);
    var first := FirstK(kept);
    MultisetMembers(kept, ns);
    PrefixIsLeast(key, blocks, ns, |first|);
    assert first == kept[..|first|];
    forall a <- first ensures InTable(m, a) { assert a in kept; }
  }

  /** An insecure node of the same IP comes before this one, in bucket order. */
  ghost predicate KeptOut(crc: Crc, ns: seq<Node>, j: nat)
    requires j < |ns|
  {
    exists i: nat :: i < j && SameIp(ns[i], ns[j]) && !IsSecure(crc, ns[i])
  }

  /** Of the first `k` nodes exactly those stay that nobody keeps out. */
  ghost predicate KeptSoFar(crc: Crc, ns: seq<Node>, kept: seq<Node>, k: nat)
    requires k <= |ns|
  {
    && (forall n <- kept :: n in ns[..k])
    && (forall j: nat :: j < k ==> (ns[j] !in kept <==> KeptOut(crc, ns, j)))
  }

  /** The walk loses exactly the nodes that an earlier insecure node of their IP keeps out. */
  lemma {:induction false} DroppedIff(crc: Crc, owner: Id, m: Buckets, target: Id, k: nat)
    requires TableInv(RulesFor(crc, owner), m) && k <= |NodesOf(m)|
    ensures Sorted(KeyFor(crc, target), AllAdded(crc, target, NodesOf(m)[..k]))
    ensures KeptSoFar(crc, NodesOf(m), AllAdded(crc, target, NodesOf(m)[..k]), k)
  {
    hide NodesOf, TableInv, KeptOut, Sorted, Refused, AddOne;
    var key, blocks, ns := KeyFor(crc, target), BlocksFor(crc), NodesOf(m);
    if k == 0 {
      NothingAdded(crc, target, ns);
    } else {
      hide KeptSoFar, AllAdded;
      var last, before := ns[k - 1], AllAdded(crc, target, ns[..k - 1]);
      LastAdded(crc, target, ns, k - 1);
      DroppedIff(crc, owner, m, target, k - 1);
      AddKeepsSorted(key, blocks, before, last);
      LastRefusedIff(crc, owner, m, target, k - 1);
      OnceOnly(crc, owner, m, k - 1);
      KeptOneMore(crc, target, ns, before, k - 1);
    }
  }

  lemma NothingAdded(crc: Crc, target: Id, ns: seq<Node>)
    ensures AllAdded(crc, target, ns[..0]) == [] && Sorted(KeyFor(crc, target), [])
  {
  }

  lemma {:induction false} LastAdded(crc: Crc, target: Id, ns: seq<Node>, k: nat)
    requires k < |ns|
    ensures AllAdded(crc, target, ns[..k + 1])
         == AddOne(KeyFor(crc, target), BlocksFor(crc), AllAdded(crc, target, ns[..k]), ns[k])
  {
    assert ns[..k + 1][..k] == ns[..k];
  }

  lemma OnceOnly(crc: Crc, owner: Id, m: Buckets, k: nat)
    requires TableInv(RulesFor(crc, owner), m) && k < |NodesOf(m)|
    ensures forall j: nat :: j < k ==> NodesOf(m)[j] != NodesOf(m)[k]
  {
    hide NodesOf, TableInv;
    NodesOfContents(crc, owner, m);
  }

  /** What one more node does to the nodes kept so far. */
  lemma OneMoreKept<T>(key: T -> Key, blocks: (T, T) -> bool, seen: seq<T>, before: seq<T>, last: T)
    requires Sorted(key, before) && forall n <- before :: n in seen
    ensures var after := AddOne(key, blocks, before, last);
            && (forall n :: n in after ==> n in seen + [last])
            && (forall n :: n != last ==> (n in after <==> n in before))
            && (last !in before ==> (last in after <==> !Refused(key, blocks, before, last)))
  {
    hide Sorted, AddOne, Refused;
    var after := AddOne(key, blocks, before, last);
    forall n | n in after ensures n in seen + [last] {
      MemberAfter(key, blocks, before, last, n);
      assert n in before ==> n in seen;
      assert n in seen + [last] <==> n in seen || n == last;
    }
    assert forall n :: n in after ==> n in seen + [last];
    assert after == AddOne(key, blocks, before, last);
    forall n | n != last ensures n in after <==> n in before {
      MemberAfter(key, blocks, before, last, n);
    }
    MemberAfter(key, blocks, before, last, last);
  }

  lemma MemberAfter<T>(key: T -> Key, blocks: (T, T) -> bool, before: seq<T>, last: T, n: T)
    requires Sorted(key, before)
    ensures n in AddOne(key, blocks, before, last)
       <==> n in before || (n == last && !Refused(key, blocks, before, last))
  {
    hide Sorted, AddOne, Refused;
    AddKeepsSorted(key, blocks, before, last);
    assert n in AddOne(key, blocks, before, last) <==> n in multiset(AddOne(key, blocks, before, last));
    assert n in before <==> n in multiset(before);
  }

  lemma KeptOneMore(crc: Crc, target: Id, ns: seq<Node>, before: seq<Node>, k: nat)
    requires k < |ns| && KeptSoFar(crc, ns, before, k) && ns[k] !in before
    requires Sorted(KeyFor(crc, target), before) && forall j: nat :: j < k ==> ns[j] != ns[k]
    requires Refused(KeyFor(crc, target), BlocksFor(crc), before, ns[k]) <==> KeptOut(crc, ns, k)
    ensures KeptSoFar(crc, ns, AddOne(KeyFor(crc, target), BlocksFor(crc), before, ns[k]), k + 1)
  {
    hide Sorted, KeptOut, Refused, AddOne;
    assert ns[..k + 1] == ns[..k] + [ns[k]];
    OneMoreKept(KeyFor(crc, target), BlocksFor(crc), ns[..k], before, ns[k]);
  }

  /** Of the nodes kept before it, only an insecure one of its IP refuses a node, and none of those is ever lost. */
  lemma LastRefusedIff(crc: Crc, owner: Id, m: Buckets, target: Id, k: nat)
    requires TableInv(RulesFor(crc, owner), m) && k < |NodesOf(m)|
    requires KeptSoFar(crc, NodesOf(m), AllAdded(crc, target, NodesOf(m)[..k]), k)
    ensures var ns, kept := NodesOf(m), AllAdded(crc, target, NodesOf(m)[..k]);
            ns[k] !in kept
            && (Refused(KeyFor(crc, target), BlocksFor(crc), kept, ns[k]) <==> KeptOut(crc, ns, k))
  {
    hide NodesOf, TableInv, IsSecure, SameIp, AllAdded;
    var key, blocks, ns := KeyFor(crc, target), BlocksFor(crc), NodesOf(m);
    var kept := AllAdded(crc, target, ns[..k]);
    NodesOfContents(crc, owner, m);
    forall i: nat | i < k
      ensures key(ns[i]) != key(ns[k])
      ensures blocks(ns[i], ns[k]) <==> SameIp(ns[i], ns[k]) && !IsSecure(crc, ns[i])
    {
      assert ns[i] in ns && ns[k] in ns;
      PairFacts(crc, owner, m, target, ns[i], ns[k]);
    }
    forall c: nat | c < |kept| ensures exists i: nat :: i < k && ns[i] == kept[c] {
      assert kept[c] in ns[..k];
    }
    if KeptOut(crc, ns, k) {
      var i: nat :| i < k && SameIp(ns[i], ns[k]) && !IsSecure(crc, ns[i]);
      FirstInsecureStays(crc, owner, m, i);
      assert ns[i] in kept;
    }
  }

  /** An IP has one insecure node in the table, so nothing keeps it out. */
  lemma FirstInsecureStays(crc: Crc, owner: Id, m: Buckets, i: nat)
    requires TableInv(RulesFor(crc, owner), m) && i < |NodesOf(m)| && !IsSecure(crc, NodesOf(m)[i])
    ensures !KeptOut(crc, NodesOf(m), i)
  {
    hide NodesOf, TableInv, IsSecure;
    var ns := NodesOf(m);
    NodesOfContents(crc, owner, m);
    forall h: nat | h < i && SameIp(ns[h], ns[i]) ensures IsSecure(crc, ns[h]) {
      assert ns[h] in ns && ns[i] in ns;
      SameIpNodesDiffer(crc, owner, m, ns[h], ns[i]);
    }
  }

  /** The nodes of a list that are nearer to the target than this one. */
  function Nearer(crc: Crc, target: Id, ns: seq<Node>, n: Node): set<Node> {
    set x | x in ns && Before(KeyFor(crc, target)(x), KeyFor(crc, target)(n))
  }

  /** A node that belongs among the least 20 of the table, but that an earlier insecure one of its IP keeps out. */
  ghost predicate MissesOut(crc: Crc, m: Buckets, target: Id, j: nat) {
    var ns := NodesOf(m);
    j < |ns| && KeptOut(crc, ns, j) && |Nearer(crc, target, ns, ns[j])| < MAX_BUCKET_SIZE_K
  }

  /** `closest` comes before the whole rest of the table, and is short only when nothing is left. */
  ghost predicate IsLeast(crc: Crc, m: Buckets, target: Id) {
    var first := FirstK(AllAdded(crc, target, NodesOf(m)));
    forall b :: InTable(m, b) && b !in first ==>
      |first| == MAX_BUCKET_SIZE_K && forall a <- first :: Before(KeyFor(crc, target)(a), KeyFor(crc, target)(b))
  }

  /** The least nodes are `closest` exactly when no node of the table misses out. */
  lemma ClosestIsLeastIff(crc: Crc, owner: Id, m: Buckets, target: Id)
    requires TableInv(RulesFor(crc, owner), m)
    ensures IsLeast(crc, m, target) <==> !exists j: nat :: MissesOut(crc, m, target, j)
  {
    hide NodesOf, TableInv, AllAdded, IsSecure, InTable, KeptOut;
    var ns, kept := NodesOf(m), AllAdded(crc, target, NodesOf(m));
    NodesOfContents(crc, owner, m);
    DroppedIff(crc, owner, m, target, |ns|);
    assert ns[..|ns|] == ns;
    if IsLeast(crc, m, target) {
      forall j: nat ensures !MissesOut(crc, m, target, j) {
        if j < |ns| && KeptOut(crc, ns, j) {
          assert ns[j] in ns;
          LeastBeforeDropped(crc, target, ns, kept, ns[j]);
        }
      }
    }
    if !exists j: nat :: MissesOut(crc, m, target, j) {
      forall b | InTable(m, b) && b !in FirstK(kept)
        ensures |FirstK(kept)| == MAX_BUCKET_SIZE_K
        ensures forall a <- FirstK(kept) :: Before(KeyFor(crc, target)(a), KeyFor(crc, target)(b))
      {
        RestComesLater(crc, m, target, ns, kept, b);
      }
    }
  }

  /** When the least nodes all come before a dropped one, it has that many nearer ones. */
  lemma LeastBeforeDropped(crc: Crc, target: Id, ns: seq<Node>, kept: seq<Node>, b: Node)
    requires Sorted(KeyFor(crc, target), kept) && forall n <- kept :: n in ns
    requires var first := FirstK(kept);
             |first| == MAX_BUCKET_SIZE_K
             && forall a <- first :: Before(KeyFor(crc, target)(a), KeyFor(crc, target)(b))
    ensures |Nearer(crc, target, ns, b)| >= MAX_BUCKET_SIZE_K
  {
    hide KeyFor;
    var first := FirstK(kept);
    SortedCard(KeyFor(crc, target), first, |first|);
    var least := set i | 0 <= i < |first| :: first[i];
    forall n <- least ensures n in Nearer(crc, target, ns, b) {
      var i :| 0 <= i < |first| && first[i] == n;
      assert kept[i] in kept && first[i] in first;
    }
    SubsetCard(least, Nearer(crc, target, ns, b));
  }

  lemma {:induction false} SortedCard(key: Node -> Key, ns: seq<Node>, k: nat)
    requires Sorted(key, ns) && k <= |ns|
    ensures |set i | 0 <= i < k :: ns[i]| == k
  {
    if k > 0 {
      SortedCard(key, ns, k - 1);
      var fewer := set i | 0 <= i < k - 1 :: ns[i];
      assert (set i | 0 <= i < k :: ns[i]) == fewer + {ns[k - 1]};
      forall i | 0 <= i < k - 1 ensures ns[i] != ns[k - 1] {
        assert Before(key(ns[i]), key(ns[k - 1]));
      }
    }
  }

  /** If nobody misses out, a node with 20 nearer ones has 20 nearer ones that were kept. */
  lemma {:induction false} NearerAreKept(crc: Crc, m: Buckets, target: Id, ns: seq<Node>, kept: seq<Node>, b: Node)
    requires ns == NodesOf(m) && KeptSoFar(crc, ns, kept, |ns|) && !exists j: nat :: MissesOut(crc, m, target, j)
    requires |Nearer(crc, target, ns, b)| >= MAX_BUCKET_SIZE_K
    ensures |Nearer(crc, target, kept, b)| >= MAX_BUCKET_SIZE_K
    decreases |Nearer(crc, target, ns, b)|
  {
    hide NodesOf, KeyFor, KeptOut;
    var near, nearKept := Nearer(crc, target, ns, b), Nearer(crc, target, kept, b);
    if forall n <- near :: n in kept {
      SubsetCard(near, nearKept);
    } else {
      var s :| s in near && s !in kept;
      var j :| 0 <= j < |ns| && ns[j] == s;
      assert !MissesOut(crc, m, target, j);
      assert s !in Nearer(crc, target, ns, s);
      SubsetSmaller(Nearer(crc, target, ns, s), near);
      NearerAreKept(crc, m, target, ns, kept, s);
      SubsetCard(Nearer(crc, target, kept, s), nearKept);
    }
  }

  /** Then 20 kept nodes come before it, so it is not among the first 20. */
  lemma EnoughComeBefore(crc: Crc, target: Id, kept: seq<Node>, b: Node)
    requires Sorted(KeyFor(crc, target), kept) && |Nearer(crc, target, kept, b)| >= MAX_BUCKET_SIZE_K
    ensures |FirstK(kept)| == MAX_BUCKET_SIZE_K
    ensures forall a <- FirstK(kept) :: Before(KeyFor(crc, target)(a), KeyFor(crc, target)(b))
  {
    hide KeyFor;
    var key := KeyFor(crc, target);
    var few := MAX_BUCKET_SIZE_K - 1;
    if |kept| <= few || !Before(key(kept[few]), key(b)) {
      var n := if |kept| <= few then |kept| else few;
      var low := set i | 0 <= i < n :: kept[i];
      forall x <- Nearer(crc, target, kept, b) ensures x in low {
        var i :| 0 <= i < |kept| && kept[i] == x;
      }
      SubsetCard(Nearer(crc, target, kept, b), low);
      SortedCard(key, kept, n);
    }
    forall a <- FirstK(kept) ensures Before(key(a), key(b)) {
      var i :| 0 <= i < |FirstK(kept)| && FirstK(kept)[i] == a;
      assert i < few ==> Before(key(kept[i]), key(kept[few]));
    }
  }

  lemma RestComesLater(crc: Crc, m: Buckets, target: Id, ns: seq<Node>, kept: seq<Node>, b: Node)
    requires ns == NodesOf(m) && KeptSoFar(crc, ns, kept, |ns|) && !exists j: nat :: MissesOut(crc, m, target, j)
    requires Sorted(KeyFor(crc, target), kept) && b in ns && b !in FirstK(kept)
    ensures |FirstK(kept)| == MAX_BUCKET_SIZE_K
    ensures forall a <- FirstK(kept) :: Before(KeyFor(crc, target)(a), KeyFor(crc, target)(b))
  {
    hide NodesOf, KeyFor, KeptOut;
    if b in kept {
      var j :| 0 <= j < |kept| && kept[j] == b;
      assert j < |FirstK(kept)| ==> FirstK(kept)[j] == b;
    } else {
      var j :| 0 <= j < |ns| && ns[j] == b;
      assert !MissesOut(crc, m, target, j);
      NearerAreKept(crc, m, target, ns, kept, b);
      EnoughComeBefore(crc, target, kept, b);
    }
  }

  /** The index at which a walk that got to `k` stops. */
  ghost function StopFrom(target: Id, ns: seq<Node>, expectedDk: nat, subnets: nat, k: nat): (stop: nat)
    requires k <= |ns|
    ensures k <= stop <= |ns| && (forall j :: k <= j < stop ==> !StopsAt(target, ns, expectedDk, subnets, j))
    ensures stop < |ns| ==> StopsAt(target, ns, expectedDk, subnets, stop)
    decreases |ns| - k
  {
    if k == |ns| || StopsAt(target, ns, expectedDk, subnets, k) then k
    else StopFrom(target, ns, expectedDk, subnets, k + 1)
  }

  /** What a walk takes of these nodes. */
  ghost function Taken(target: Id, ns: seq<Node>, estimate: nat, subnets: nat): seq<Node> {
    CutList(ns, StopFrom(target, ns, ExpectedDk(estimate), subnets, 0))
  }

  /** There is one place where a walk first stops. */
  lemma TakenIs(target: Id, ns: seq<Node>, estimate: nat, subnets: nat, stop: nat)
    requires FirstStop(target, ns, ExpectedDk(estimate), subnets, stop)
    ensures CutList(ns, stop) == Taken(target, ns, estimate, subnets)
  {
    var other := StopFrom(target, ns, ExpectedDk(estimate), subnets, 0);
    assert stop < |ns| ==> StopsAt(target, ns, ExpectedDk(estimate), subnets, stop);
    assert other < |ns| ==> StopsAt(target, ns, ExpectedDk(estimate), subnets, other);
  }

  method TakeOf(crc: Crc, target: Id, ns: seq<Node>, estimate: nat, subnets: nat) returns (taken: seq<Node>)
    ensures taken == Taken(target, ns, estimate, subnets)
  {
    var c := new ClosestNodes(crc, target);
    c.nodes := ns;
    taken := c.TakeUntilSecure(estimate, subnets);
    ghost var stop :| FirstStop(target, ns, ExpectedDk(estimate), subnets, stop) && taken == ns[..CutAt(|ns|, stop)];
    TakenIs(target, ns, estimate, subnets, stop);
  }

  /** Nobody among the first 256 nodes of a list is where a walk may stop. */
  ghost predicate WalksTooFar(target: Id, ns: seq<Node>, estimate: nat, subnets: nat) {
    |ns| > 255 && forall k :: 0 <= k <= 255 ==> !StopsAt(target, ns, ExpectedDk(estimate), subnets, k)
  }

  lemma TooManyTakenIff(target: Id, ns: seq<Node>, estimate: nat, subnets: nat)
    ensures |Taken(target, ns, estimate, subnets)| > 255 <==> WalksTooFar(target, ns, estimate, subnets)
  {
    var stop := StopFrom(target, ns, ExpectedDk(estimate), subnets, 0);
    CutTooLongIff(target, ns, ExpectedDk(estimate), subnets, stop);
  }

  /**
   * Whoever stores at the nodes of a walk gets more than 255 of them, at which a put panics,
   * exactly when the walk does not stop at any of the first 256 responders.
   */
  lemma CutTooLongIff(target: Id, responders: seq<Node>, expectedDk: nat, subnets: nat, stop: nat)
    requires FirstStop(target, responders, expectedDk, subnets, stop)
    ensures |CutList(responders, stop)| > 255
        <==> |responders| > 255 && forall k :: 0 <= k <= 255 ==> !StopsAt(target, responders, expectedDk, subnets, k)
  {
  }

  /** The short list is a prefix of the secure one, whatever the estimates. */
  lemma ClosestIsPrefixOfSecure(target: Id, all: seq<Node>, expectedDk: nat, subnets: nat, stop: nat)
    requires FirstStop(target, all, expectedDk, subnets, stop)
    ensures FirstK(all) <= CutList(all, stop)
    ensures |CutList(all, stop)| > |FirstK(all)| ==> stop == |CutList(all, stop)|
  {
  }
}
