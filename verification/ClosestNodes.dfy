/** The nodes nearest to a target, kept sorted by (insecure, XOR distance). */
module Closest {
  import opened Ids
  import opened Nodes
  import opened SortedList

  const U128_MAX: nat := 0xffff_ffff_ffff_ffff_ffff_ffff_ffff_ffff

  // === The order ===

  function KeyOf(crc: Crc, target: Id, n: Node): Key {
    Key(!IsSecure(crc, n), XorValue(n.id, target))
  }

  /** Secure nodes first, then by XOR distance to the target. */
  function KeyFor(crc: Crc, target: Id): Node -> Key {
    n => KeyOf(crc, target, n)
  }

  /** The comparator that the binary search probes with. */
  function CompareProbe(crc: Crc, target: Id, probe: Node, node: Node): Ordering {
    if IsSecure(crc, probe) && !IsSecure(crc, node) then Less
    else if !IsSecure(crc, probe) && IsSecure(crc, node) then Greater
    else if probe.id == node.id then Equal
    else Compare(Xor(probe.id, target), Xor(node.id, target))
  }

  /** The four-way comparator is one total order, the order of the keys. */
  lemma ComparatorIsKeyOrder(crc: Crc, target: Id, probe: Node, node: Node)
    ensures var key := KeyFor(crc, target);
            && (CompareProbe(crc, target, probe, node) == Less <==> Before(key(probe), key(node)))
            && (CompareProbe(crc, target, probe, node) == Equal <==> key(probe) == key(node))
            && (CompareProbe(crc, target, probe, node) == Greater <==> Before(key(node), key(probe)))
  {
    CompareIsNumeric(Xor(probe.id, target), Xor(node.id, target));
    XorValueInjective(probe.id, node.id, target);
  }

  /** Nodes with one key have one id. */
  lemma KeysTellIdsApart(crc: Crc, target: Id, a: Node, b: Node)
    requires KeyFor(crc, target)(a) == KeyFor(crc, target)(b)
    ensures a.id == b.id
  {
    XorValueInjective(a.id, b.id, target);
  }

  // === The class ===

  class ClosestNodes {
    const crc: Crc
    const target: Id
    var nodes: seq<Node>

    ghost predicate Valid() reads this { Sorted(KeyFor(crc, target), nodes) }

    constructor (crc: Crc, target: Id)
      ensures Valid() && this.crc == crc && this.target == target && nodes == []
    {
      this.crc, this.target, this.nodes := crc, target, [];
    }

    /** Binary search for the node's key: its index, or where it belongs. */
    method Search(node: Node) returns (found: bool, pos: nat)
      requires Valid()
      ensures pos <= |nodes| && AllBefore(KeyFor(crc, target), nodes[..pos], node)
      ensures found ==> pos < |nodes| && KeyFor(crc, target)(nodes[pos]) == KeyFor(crc, target)(node)
      ensures !found ==> AllAfter(KeyFor(crc, target), nodes[pos..], node)
    {
      ghost var key := KeyFor(crc, target);
      var lo, hi := 0, |nodes|;
      while lo < hi
        invariant 0 <= lo <= hi <= |nodes|
        invariant AllBefore(key, nodes[..lo], node)
        invariant AllAfter(key, nodes[hi..], node)
      {
        var mid := (lo + hi) / 2;
        ComparatorIsKeyOrder(crc, target, nodes[mid], node);
        var order := CompareProbe(crc, target, nodes[mid], node);
        SortedHalves(key, nodes, mid, node);
        match order {
          case Equal =>
            return true, mid;
          case Less =>
            lo := mid + 1;
          case Greater =>
            hi := mid;
        }
      }
      return false, lo;
    }

    method Add(node: Node)
      requires Valid()
      modifies this`nodes
      ensures Valid() && nodes == AddOne(KeyFor(crc, target), BlocksFor(crc), old(nodes), node)
    {
      hide Sorted, AllBefore, AllAfter, Blocked, KeyFor;
      ghost var key := KeyFor(crc, target);
      AddKeepsSorted(key, BlocksFor(crc), nodes, node);
      if AlreadyExists(crc, node, nodes) {
        return;
      }
      var found, pos := Search(node);
      assert nodes == nodes[..pos] + nodes[pos..];
      if found {
        PlaceFound(key, nodes[..pos], nodes[pos..], node);
      } else {
        PlaceBetween(key, nodes[..pos], nodes[pos..], node);
        nodes := nodes[..pos] + [node] + nodes[pos..];
      }
    }

    /** The nodes to store at: at least 20, then up to the first that is far and diverse enough. */
    method TakeUntilSecure(previousEstimate: nat, averageSubnets: nat) returns (taken: seq<Node>)
      ensures exists stop :: FirstStop(target, nodes, ExpectedDk(previousEstimate), averageSubnets, stop)
                             && taken == nodes[..CutAt(|nodes|, stop)]
    {
      hide U128Distance, ExpectedDk, Subnet, Subnets;
      var expectedDk := ExpectedDk(previousEstimate);
      assert Subnets(nodes[..0]) == {} by {
        NoSubnets(nodes);
      }
      var subnets := {};
      var untilSecure := 0;
      for i := 0 to |nodes|
        invariant untilSecure == i && subnets == Subnets(nodes[..i])
        invariant forall k :: 0 <= k < i ==> !StopsAt(target, nodes, expectedDk, averageSubnets, k)
      {
        assert nodes[..i + 1] == nodes[..i] + [nodes[i]];
        SubnetsSnoc(nodes[..i], nodes[i]);
        subnets := subnets + {Subnet(nodes[i])};
        assert StopsAt(target, nodes, expectedDk, averageSubnets, i)
          <==> U128Distance(target, nodes[i]) >= expectedDk && |subnets| >= averageSubnets;
        if U128Distance(target, nodes[i]) >= expectedDk && |subnets| >= averageSubnets {
          break;
        }
        untilSecure := untilSecure + 1;
      }
      assert FirstStop(target, nodes, expectedDk, averageSubnets, untilSecure);
      var atLeastK := if untilSecure > MAX_BUCKET_SIZE_K then untilSecure else MAX_BUCKET_SIZE_K;
      taken := nodes[..if atLeastK < |nodes| then atLeastK else |nodes|];
    }

    /** How many subnets the first 20 nodes span. */
    method SubnetsCount() returns (count: nat)
      ensures count == SubnetCount(nodes)
      ensures 1 <= count <= MAX_BUCKET_SIZE_K
    {
      if nodes == [] {
        return 20;
      }
      var subnets := {};
      var n := if |nodes| < MAX_BUCKET_SIZE_K then |nodes| else MAX_BUCKET_SIZE_K;
      for i := 0 to n
        invariant subnets == Subnets(nodes[..i]) && |subnets| <= i && (i > 0 ==> subnets != {})
      {
        assert nodes[..i + 1] == nodes[..i] + [nodes[i]];
        SubnetsSnoc(nodes[..i], nodes[i]);
        subnets := subnets + {Subnet(nodes[i])};
      }
      count := |subnets|;
    }
  }

  // === How many nodes to take ===

  function Subnet(n: Node): bv32 { (n.addr.ip >> 26) & 0x3f }

  function Subnets(ns: seq<Node>): set<bv32> { set i | 0 <= i < |ns| :: Subnet(ns[i]) }

  function SubnetCount(ns: seq<Node>): nat {
    if ns == [] then 20 else |Subnets(FirstK(ns))|
  }

  function FirstK(ns: seq<Node>): seq<Node> {
    ns[..if |ns| < MAX_BUCKET_SIZE_K then |ns| else MAX_BUCKET_SIZE_K]
  }

  lemma NoSubnets(ns: seq<Node>)
    ensures Subnets(ns[..0]) == {}
  {
  }

  lemma SubnetsSnoc(ns: seq<Node>, n: Node)
    ensures Subnets(ns + [n]) == Subnets(ns) + {Subnet(n)}
  {
    forall x | x in Subnets(ns) + {Subnet(n)} ensures x in Subnets(ns + [n]) {
      if x == Subnet(n) {
        assert (ns + [n])[|ns|] == n;
      } else {
        var i :| 0 <= i < |ns| && x == Subnet(ns[i]);
        assert (ns + [n])[i] == ns[i];
      }
    }
  }

  /** The leading 128 bits of the XOR distance. */
  function U128Distance(target: Id, n: Node): nat { Value(Xor(n.id, target)[..16]) }

  // The quotient is computed in floating point and saturates when cast to 128 bits.
  function ExpectedDk(previousEstimate: nat): nat {
    var q := 20 * U128_MAX / (previousEstimate + 1);
    if q > U128_MAX then U128_MAX else q
  }

  ghost predicate StopsAt(target: Id, ns: seq<Node>, expectedDk: nat, averageSubnets: nat, k: nat) {
    k < |ns| && U128Distance(target, ns[k]) >= expectedDk && |Subnets(ns[..k + 1])| >= averageSubnets
  }

  /** `stop` is the first index at which the walk may end, or the length. */
  ghost predicate FirstStop(target: Id, ns: seq<Node>, expectedDk: nat, averageSubnets: nat, stop: nat) {
    stop <= |ns|
    && (forall k :: 0 <= k < stop ==> !StopsAt(target, ns, expectedDk, averageSubnets, k))
    && (stop < |ns| ==> StopsAt(target, ns, expectedDk, averageSubnets, stop))
  }

  /** With no better estimate than 20 nodes, the walk takes every node nearer than the largest distance. */
  lemma LowEstimateTakesAll(target: Id, ns: seq<Node>, previousEstimate: nat, averageSubnets: nat, stop: nat)
    requires previousEstimate < 20 && FirstStop(target, ns, ExpectedDk(previousEstimate), averageSubnets, stop)
    ensures stop < |ns| ==> U128Distance(target, ns[stop]) == U128_MAX
  {
    Saturates(previousEstimate + 1);
    if stop < |ns| {
      U128DistanceFits(target, ns[stop]);
    }
  }

  lemma Saturates(n: nat)
    requires 0 < n <= 20
    ensures 20 * U128_MAX / n >= U128_MAX
  {
  }

  function CutAt(length: nat, stop: nat): (cut: nat)
    ensures cut <= length && (cut >= MAX_BUCKET_SIZE_K || cut == length)
    ensures stop <= length ==> cut >= stop
  {
    var atLeastK := if stop > MAX_BUCKET_SIZE_K then stop else MAX_BUCKET_SIZE_K;
    if atLeastK < length then atLeastK else length
  }

  lemma LastByte(s: Bytes, n: nat)
    requires n < |s|
    ensures Value(s[..n + 1]) == 256 * Value(s[..n]) + ByteValue(s[n])
  {
    assert s[..n + 1][..n] == s[..n];
  }

  lemma {:induction false} LeadingSixteen(x: Id)
    ensures Value(x[..16]) == Value(x) / 0x1_0000_0000
  {
    hide Value, ByteValue;
    LastByte(x, 19);
    LastByte(x, 18);
    LastByte(x, 17);
    LastByte(x, 16);
    assert x[..20] == x;
    DropFourBytes(Value(x[..16]), ByteValue(x[16]), ByteValue(x[17]), ByteValue(x[18]), ByteValue(x[19]));
  }

  /** The truncated distance is the full one without its last 32 bits, so it keeps the order. */
  lemma U128DistanceIsTruncated(target: Id, n: Node)
    ensures U128Distance(target, n) == XorValue(n.id, target) / 0x1_0000_0000
  {
    LeadingSixteen(Xor(n.id, target));
  }

  lemma DropFourBytes(high: nat, b0: nat, b1: nat, b2: nat, b3: nat)
    requires b0 < 256 && b1 < 256 && b2 < 256 && b3 < 256
    ensures (256 * (256 * (256 * (256 * high + b0) + b1) + b2) + b3) / 0x1_0000_0000 == high
  {}

  lemma U128DistanceFits(target: Id, n: Node)
    ensures U128Distance(target, n) <= U128_MAX
  {
    ValueBelow(Xor(n.id, target)[..16]);
    assert Pow256(4) == 0x1_0000_0000;
    assert Pow256(8) == 0x1_0000_0000_0000_0000;
    assert Pow256(12) == 0x1_0000_0000_0000_0000_0000_0000;
    assert Pow256(16) == U128_MAX + 1;
  }

  function Pow256(n: nat): nat { if n == 0 then 1 else 256 * Pow256(n - 1) }

  lemma {:induction false} ValueBelow(s: Bytes)
    ensures Value(s) < Pow256(|s|)
  {
    if s != [] {
      ValueBelow(s[..|s| - 1]);
    }
  }

  // === What the walk expects ===

  /** The expected distance is that of the twentieth of so many evenly spread nodes, at most the largest one. */
  lemma ExpectedDkIsTwentieth(estimate: nat)
    ensures estimate >= 19 ==>
              ExpectedDk(estimate) * (estimate + 1) <= 20 * U128_MAX < (ExpectedDk(estimate) + 1) * (estimate + 1)
    ensures estimate < 19 ==> ExpectedDk(estimate) == U128_MAX
  {
    var n, q := estimate + 1, 20 * U128_MAX / (estimate + 1);
    TimesQuotient(20 * U128_MAX, n);
    if n >= 20 && q > U128_MAX {
      TimesMonotone(20, n, U128_MAX + 1);
      TimesMonotone(U128_MAX + 1, q, n);
    }
    if n < 20 {
      Saturates(n);
    }
  }

  lemma TimesQuotient(x: nat, d: nat)
    requires d > 0
    ensures (x / d) * d <= x < (x / d + 1) * d
  {
  }

  lemma TimesMonotone(a: nat, b: nat, c: nat)
    requires a <= b
    ensures a * c <= b * c && c * a <= c * b
  {
  }

  /** Two nodes are of one subnet when their IPs agree in the first six bits. */
  lemma SubnetIsSixBits(a: Node, b: Node)
    ensures Subnet(a) == Subnet(b) <==> a.addr.ip & 0xfc00_0000 == b.addr.ip & 0xfc00_0000
  {
    SixBits(a.addr.ip, b.addr.ip);
  }

  lemma SixBits(x: bv32, y: bv32)
    ensures (x >> 26) & 0x3f == (y >> 26) & 0x3f <==> x & 0xfc00_0000 == y & 0xfc00_0000
  {
  }

  /** Nodes of one subnet count once, nodes of different ones each, and only the first twenty count. */
  lemma SubnetCountIs(ns: seq<Node>)
    ensures SubnetCount([]) == 20
    ensures ns != [] && (forall i, j :: 0 <= i < j < |FirstK(ns)| ==> Subnet(ns[i]) == Subnet(ns[j])) ==>
              SubnetCount(ns) == 1
    ensures ns != [] && (forall i, j :: 0 <= i < j < |FirstK(ns)| ==> Subnet(ns[i]) != Subnet(ns[j])) ==>
              SubnetCount(ns) == if |ns| < 20 then |ns| else 20
  {
    if ns != [] {
      var first := FirstK(ns);
      assert forall i :: 0 <= i < |first| ==> first[i] == ns[i];
      if forall i, j :: 0 <= i < j < |FirstK(ns)| ==> Subnet(ns[i]) == Subnet(ns[j]) {
        assert Subnets(first) == {Subnet(ns[0])};
      }
      if forall i, j :: 0 <= i < j < |FirstK(ns)| ==> Subnet(ns[i]) != Subnet(ns[j]) {
        DistinctSubnets(first);
      }
    }
  }

  lemma {:induction false} DistinctSubnets(ns: seq<Node>)
    requires forall i, j :: 0 <= i < j < |ns| ==> Subnet(ns[i]) != Subnet(ns[j])
    ensures |Subnets(ns)| == |ns|
  {
    hide Subnet;
    if ns != [] {
      var init, last := ns[..|ns| - 1], ns[|ns| - 1];
      DistinctSubnets(init);
      assert ns == init + [last];
      SubnetsSnoc(init, last);
    } else {
      assert Subnets(ns) == {};
    }
  }

  /** Where a walk stops is far and diverse enough, and no node before it is both. */
  lemma StopIs(target: Id, ns: seq<Node>, expectedDk: nat, averageSubnets: nat, stop: nat)
    requires FirstStop(target, ns, expectedDk, averageSubnets, stop)
    ensures stop <= |ns|
    ensures stop < |ns| ==>
              U128Distance(target, ns[stop]) >= expectedDk && |Subnets(ns[..stop + 1])| >= averageSubnets
    ensures forall k :: 0 <= k < stop ==>
              U128Distance(target, ns[k]) < expectedDk || |Subnets(ns[..k + 1])| < averageSubnets
  {
    forall k | 0 <= k < stop
      ensures U128Distance(target, ns[k]) < expectedDk || |Subnets(ns[..k + 1])| < averageSubnets
    {
      assert !StopsAt(target, ns, expectedDk, averageSubnets, k);
    }
  }
}
