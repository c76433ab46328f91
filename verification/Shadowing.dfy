/** Tables in which an insecure node hides the secure node of its IP that is nearest to a target. */
module Shadowing {
  import opened Ids
  import opened Nodes
  import opened Options
  import opened SortedList
  import opened Closest
  import opened KBuckets
  import opened RoutingTables

  /** A table with one node in each of two buckets. */
  lemma {:induction false} TwoBuckets(m: Buckets, near: nat, far: nat, d: nat)
    requires m.Keys == {near, far} && 1 <= near < far <= MAX_DISTANCE && 1 <= d <= MAX_DISTANCE + 1
    ensures NodesFrom(m, d) == if d <= near then m[near] + m[far] else if d <= far then m[far] else []
    decreases MAX_DISTANCE + 1 - d
  {
    if d <= MAX_DISTANCE {
      TwoBuckets(m, near, far, d + 1);
      assert BucketAt(m, d) == if d == near then m[near] else if d == far then m[far] else [];
      assert m[far] + [] == m[far];
    }
  }

  /**
   * A secure node first, then an insecure one of its IP in a nearer bucket: both are added, and
   * then the table's nearest node for every target, the secure one, is not in `closest`.
   */
  lemma SecureNodeIsHidden(crc: Crc, owner: Id, a: Node, b: Node, target: Id, now: nat)
    requires SameIp(a, b) && IsSecure(crc, a) && !IsSecure(crc, b) && First21Bits(a.id) != First21Bits(b.id)
    requires 0 < Distance(owner, b.id) < Distance(owner, a.id)
    ensures var m := Run(RulesFor(crc, owner), map[], [Add(a, now), Add(b, now)]);
            && TableInv(RulesFor(crc, owner), m) && NodesOf(m) == [b, a] && AllAdded(crc, target, NodesOf(m)) == [b]
            && MissesOut(crc, m, target, 1) && !IsLeast(crc, m, target)
  {
    hide IsSecure, First21Bits, Distance, IsLeast, AllAdded, MissesOut, TableInv;
    var r, near, far := RulesFor(crc, owner), Distance(owner, b.id), Distance(owner, a.id);
    var m: Buckets := map[far := [a], near := [b]];
    BothAdded(crc, owner, a, b, now);
    RulesAreBounded(crc, owner);
    NothingIsInvariant(r);
    RunKeepsTableInv(r, map[], [Add(a, now), Add(b, now)]);
    TwoBuckets(m, near, far, 1);
    assert m[near] + m[far] == [b, a];
    SecondMissesOut(crc, m, target, a, b);
    ClosestIsLeastIff(crc, owner, m, target);
    OnlyTheFirst(crc, target, a, b);
  }

  lemma RulesAreBounded(crc: Crc, owner: Id)
    ensures Bounded(RulesFor(crc, owner))
  {
  }

  lemma NothingIsInvariant(r: Rules)
    ensures TableInv(r, map[])
  {
  }

  lemma SecondMissesOut(crc: Crc, m: Buckets, target: Id, a: Node, b: Node)
    requires NodesOf(m) == [b, a] && SameIp(a, b) && IsSecure(crc, a) && !IsSecure(crc, b)
    ensures MissesOut(crc, m, target, 1)
  {
    hide NodesOf, IsSecure;
    var ns := NodesOf(m);
    assert ns[0] == b && ns[1] == a;
    assert KeptOut(crc, ns, 1);
    assert Nearer(crc, target, ns, a) == {};
  }

  lemma BothAdded(crc: Crc, owner: Id, a: Node, b: Node, now: nat)
    requires IsSecure(crc, a) && First21Bits(a.id) != First21Bits(b.id)
    requires 0 < Distance(owner, b.id) < Distance(owner, a.id)
    ensures Run(RulesFor(crc, owner), map[], [Add(a, now), Add(b, now)])
         == map[Distance(owner, a.id) := [a], Distance(owner, b.id) := [b]]
  {
    hide IsSecure, First21Bits, Distance;
    var r, near, far := RulesFor(crc, owner), Distance(owner, b.id), Distance(owner, a.id);
    var ops := [Add(a, now), Add(b, now)];
    var one: Buckets := map[far := [a]];
    FirstInBucket(r.secure, a, now);
    FirstInBucket(r.secure, b, now);
    assert TableAdd(r, map[], a, now).0 == one;
    assert !SomeBucketBlocks(r, one, b);
    assert TableAdd(r, one, b, now).0 == one[near := [b]];
    assert ops[1..] == [Add(b, now)] && ops[1..][1..] == [];
    assert Run(r, one, ops[1..]) == Run(r, one[near := [b]], []);
  }

  lemma FirstInBucket(secure: Node -> bool, n: Node, now: nat)
    ensures BucketAdd(secure, [], n, now) == ([n], true)
  {
    assert [] + [n] == [n];
  }

  lemma OnlyTheFirst(crc: Crc, target: Id, a: Node, b: Node)
    requires SameIp(a, b) && !IsSecure(crc, b)
    ensures AllAdded(crc, target, [b, a]) == [b]
  {
    var key, blocks := KeyFor(crc, target), BlocksFor(crc);
    assert [b, a][..1] == [b] && [b][..0] == [];
    assert AddAll(key, blocks, [], [b]) == AddOne(key, blocks, AddAll(key, blocks, [], []), b);
    assert AddAll(key, blocks, [], [b]) == [b];
    assert blocks([b][0], a);
  }

  /** Whatever the checksum, every public IP has such nodes, for some owner of the table. */
  lemma HiddenAtEveryPublicIp(crc: Crc, addr: Addr, bytes: Id, r: bv8, target: Id, now: nat)
    returns (owner: Id, a: Node, b: Node)
    requires !IsLocal(addr.ip)
    ensures a.addr == b.addr == addr
    ensures !IsLeast(crc, Run(RulesFor(crc, owner), map[], [Add(a, now), Add(b, now)]), target)
  {
    hide IsLeast, FromIpv4AndR, IdPrefix, IsLocal;
    var id := FromIpv4AndR(crc, bytes, addr.ip, r);
    GeneratedIdIsValid(crc, bytes, addr.ip, r);
    owner := id[0 := id[0] ^ 0x80];
    var other := owner[1 := owner[1] ^ 0x80];
    a, b := Node(id, addr, None, now), Node(other, addr, None, now);
    ByteFlips(id[0]);
    ByteFlips(owner[1]);
    FirstBitDiffers(owner, id);
    NinthBitDiffers(owner, other);
    assert id[19] == other[19] && First21Bits(id)[0] != First21Bits(other)[0];
    SecureNodeIsHidden(crc, owner, a, b, target, now);
  }

  lemma ByteFlips(x: bv8)
    ensures (x ^ 0x80) ^ x == 0x80 && x ^ (x ^ 0x80) == 0x80 && x ^ x == 0 && x ^ 0x80 != x
  {
  }

  lemma FirstBitDiffers(a: Id, b: Id)
    requires a[0] ^ b[0] == 0x80
    ensures Distance(a, b) == MAX_DISTANCE
  {
    assert Xor(a, b)[0] == 0x80;
  }

  lemma NinthBitDiffers(a: Id, b: Id)
    requires a[0] == b[0] && a[1] ^ b[1] == 0x80
    ensures Distance(a, b) == MAX_DISTANCE - 8
  {
    ByteFlips(a[0]);
    var x := Xor(a, b);
    assert x[0] == 0 && x[1..][0] == 0x80;
    LeadingZerosStep(x);
    LeadingZerosStep(x[1..]);
  }
}
