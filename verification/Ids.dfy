/** Node ids, the XOR metric and the derivation of ids from IP addresses (BEP 42). */
module Ids {

  const ID_SIZE: nat := 20
  const MAX_DISTANCE: nat := 160
  const IPV4_MASK: bv32 := 0x030f3fff

  type Bytes = seq<bv8>
  type Id = s: Bytes | |s| == 20 witness seq(20, _ => 0 as bv8)

  // The CRC32C of the four big-endian bytes of its argument.
  type Crc = bv32 -> bv32

  datatype Ordering = Less | Equal | Greater

  // === Values of byte strings ===

  function Pow2(n: nat): (p: nat)
    ensures p > 0
  {
    if n == 0 then 1 else 2 * Pow2(n - 1)
  }

  function NibbleValue(b: bv8): (n: nat)
    requires b < 16
    ensures n <= 15
  {
    if b < 8 then
      if b < 4 then
        if b < 2 then if b < 1 then 0 else 1 else if b < 3 then 2 else 3
      else
        if b < 6 then if b < 5 then 4 else 5 else if b < 7 then 6 else 7
    else
      if b < 12 then
        if b < 10 then if b < 9 then 8 else 9 else if b < 11 then 10 else 11
      else
        if b < 14 then if b < 13 then 12 else 13 else if b < 15 then 14 else 15
  }

  lemma NibbleOrder(a: bv8, b: bv8)
    requires a < 16 && b < 16
    ensures a < b <==> NibbleValue(a) < NibbleValue(b)
    ensures a == b <==> NibbleValue(a) == NibbleValue(b)
  {}

  /** A byte as a number, from its two hexadecimal digits. */
  function ByteValue(b: bv8): (n: nat)
    ensures n <= 255
  {
    16 * NibbleValue(b >> 4) + NibbleValue(b & 15)
  }

  lemma NibblesDecide(a: bv8, b: bv8)
    ensures a < b <==> (a >> 4 < b >> 4 || (a >> 4 == b >> 4 && a & 15 < b & 15))
    ensures a == b <==> (a >> 4 == b >> 4 && a & 15 == b & 15)
    ensures a >> 4 < 16 && a & 15 < 16 && b >> 4 < 16 && b & 15 < 16
  {}

  lemma ByteValueOrder(a: bv8, b: bv8)
    ensures a < b <==> ByteValue(a) < ByteValue(b)
    ensures a == b <==> ByteValue(a) == ByteValue(b)
  {
    NibblesDecide(a, b);
    NibbleOrder(a >> 4, b >> 4);
    NibbleOrder(a & 15, b & 15);
  }

  /** The number that `s` writes in big-endian order. */
  function Value(s: Bytes): nat {
    if s == [] then 0 else 256 * Value(s[..|s| - 1]) + ByteValue(s[|s| - 1])
  }

  lemma {:induction false} Pow2Monotone(a: nat, b: nat)
    requires a <= b
    ensures Pow2(a) <= Pow2(b)
    decreases b
  {
    if a < b {
      Pow2Monotone(a, b - 1);
    }
  }

  // === The order on ids ===

  /** Lexicographic comparison, the derived order on fixed-size byte arrays. */
  function Compare(a: Bytes, b: Bytes): Ordering
    requires |a| == |b|
  {
    if a == [] then Equal
    else if a[0] < b[0] then Less
    else if a[0] > b[0] then Greater
    else Compare(a[1..], b[1..])
  }

  lemma {:induction false} CompareFromTheEnd(a: Bytes, b: Bytes, x: bv8, y: bv8)
    requires |a| == |b|
    ensures Compare(a + [x], b + [y]) ==
            match Compare(a, b) case Equal => Compare([x], [y]) case o => o
  {
    if a == [] {
      assert a + [x] == [x] && b + [y] == [y];
    } else {
      CompareFromTheEnd(a[1..], b[1..], x, y);
      assert (a + [x])[1..] == a[1..] + [x] && (b + [y])[1..] == b[1..] + [y];
    }
  }

  /** Lexicographic order is the order of the numbers the bytes write. */
  lemma {:induction false} CompareIsNumeric(a: Bytes, b: Bytes)
    requires |a| == |b|
    ensures Compare(a, b) == Less <==> Value(a) < Value(b)
    ensures Compare(a, b) == Equal <==> a == b
    ensures a == b <==> Value(a) == Value(b)
  {
    if a != [] {
      hide ByteValue;
      var n := |a| - 1;
      assert a == a[..n] + [a[n]] && b == b[..n] + [b[n]];
      CompareFromTheEnd(a[..n], b[..n], a[n], b[n]);
      CompareIsNumeric(a[..n], b[..n]);
      ByteValueOrder(a[n], b[n]);
    }
  }

  // === XOR ===

  function XorBytes(a: Bytes, b: Bytes): (r: Bytes)
    requires |a| == |b|
    ensures |r| == |a|
  {
    seq(|a|, i requires 0 <= i < |a| => a[i] ^ b[i])
  }

  function Xor(a: Id, b: Id): Id {
    XorBytes(a, b)
  }

  /** The loop that writes the XOR of two ids into a local array. */
  method ComputeXor(a: Id, b: Id) returns (r: Id)
    ensures r == Xor(a, b)
  {
    var result := new bv8[20](_ => 0);
    var i := 0;
    while i < 20
      invariant 0 <= i <= 20
      invariant forall k :: 0 <= k < i ==> result[k] == a[k] ^ b[k]
    {
      result[i] := a[i] ^ b[i];
      i := i + 1;
    }
    r := result[..];
  }

  lemma XorCancels(x: bv8, y: bv8, z: bv8)
    ensures (x ^ z) ^ (y ^ z) == x ^ y
    ensures x ^ z == y ^ z <==> x == y
    ensures x ^ y == 0 <==> x == y
    ensures x ^ y == y ^ x
  {}

  /** The XOR with a fixed target tells ids apart. */
  lemma XorInjective(a: Id, b: Id, t: Id)
    requires Xor(a, t) == Xor(b, t)
    ensures a == b
  {
    forall i | 0 <= i < 20 ensures a[i] == b[i] {
      assert Xor(a, t)[i] == Xor(b, t)[i];
      XorCancels(a[i], b[i], t[i]);
    }
  }

  /** How far an id is from a target, as a number: the quantity lookups sort by. */
  function XorValue(a: Id, t: Id): nat {
    Value(Xor(a, t))
  }

  lemma XorValueInjective(a: Id, b: Id, t: Id)
    ensures XorValue(a, t) == XorValue(b, t) <==> a == b
  {
    CompareIsNumeric(Xor(a, t), Xor(b, t));
    if XorValue(a, t) == XorValue(b, t) {
      XorInjective(a, b, t);
    }
  }

  // === Leading zeros and distance ===

  function ByteLeadingZeros(b: bv8): (n: nat)
    ensures n <= 8
    ensures n == 8 <==> b == 0
  {
    if b >= 128 then 0 else if b >= 64 then 1 else if b >= 32 then 2 else if b >= 16 then 3
    else if b >= 8 then 4 else if b >= 4 then 5 else if b >= 2 then 6 else if b >= 1 then 7 else 8
  }

  function LeadingZeros(s: Bytes): (n: nat)
    ensures n <= 8 * |s|
  {
    if s == [] then 0
    else if s[0] != 0 then ByteLeadingZeros(s[0])
    else 8 + LeadingZeros(s[1..])
  }

  /** The loop over the bytes, which returns at the first one that is not zero. */
  method ComputeLeadingZeros(x: Id) returns (n: nat)
    ensures n == LeadingZeros(x)
  {
    var i := 0;
    while i < 20
      invariant 0 <= i <= 20
      invariant LeadingZeros(x) == 8 * i + LeadingZeros(x[i..])
    {
      if x[i] != 0 {
        return i * 8 + ByteLeadingZeros(x[i]);
      }
      assert x[i..][1..] == x[i + 1..];
      i := i + 1;
    }
    return 160;
  }

  function Distance(a: Id, b: Id): (d: nat)
    ensures d <= MAX_DISTANCE
  {
    MAX_DISTANCE - LeadingZeros(Xor(a, b))
  }

  lemma ByteBitLength(b: bv8)
    ensures b != 0 ==> Pow2(7 - ByteLeadingZeros(b)) <= ByteValue(b) < Pow2(8 - ByteLeadingZeros(b))
    ensures b == 0 <==> ByteValue(b) == 0
  {
    assert Pow2(0) == 1 && Pow2(1) == 2 && Pow2(2) == 4 && Pow2(3) == 8;
    assert Pow2(4) == 16 && Pow2(5) == 32 && Pow2(6) == 64 && Pow2(7) == 128 && Pow2(8) == 256;
    assert b >> 4 == 0 <==> b < 16;
    assert b < 16 ==> b & 15 == b;
    assert (b >> 4 < 2 <==> b < 32) && (b >> 4 < 4 <==> b < 64) && (b >> 4 < 8 <==> b < 128);
  }

  lemma {:induction false} LeadingZerosFromTheEnd(s: Bytes, x: bv8)
    ensures LeadingZeros(s + [x]) ==
            if LeadingZeros(s) == 8 * |s| then 8 * |s| + ByteLeadingZeros(x) else LeadingZeros(s)
  {
    if s == [] {
      assert s + [x] == [x];
    } else {
      LeadingZerosFromTheEnd(s[1..], x);
      assert (s + [x])[1..] == s[1..] + [x];
    }
  }

  lemma Pow2Byte(n: nat)
    ensures Pow2(n + 8) == 256 * Pow2(n)
  {
    assert Pow2(n + 2) == 4 * Pow2(n);
    assert Pow2(n + 4) == 4 * Pow2(n + 2);
    assert Pow2(n + 6) == 4 * Pow2(n + 4);
  }

  /** The bits that are not leading zeros are the binary length of the number. */
  lemma {:induction false} BitLength(s: Bytes)
    ensures Value(s) < Pow2(8 * |s| - LeadingZeros(s))
    ensures Value(s) == 0 <==> LeadingZeros(s) == 8 * |s|
    ensures Value(s) > 0 ==> Pow2(8 * |s| - LeadingZeros(s) - 1) <= Value(s)
  {
    if s != [] {
      var n := |s| - 1;
      var init := s[..n];
      assert s == init + [s[n]];
      BitLength(init);
      LeadingZerosFromTheEnd(init, s[n]);
      ByteBitLength(s[n]);
      if LeadingZeros(init) < 8 * n {
        Pow2Byte(8 * n - LeadingZeros(init));
        Pow2Byte(8 * n - LeadingZeros(init) - 1);
      }
    }
  }

  /** `Distance` is the binary length of the XOR of the two ids. */
  lemma DistanceIsBitLength(a: Id, b: Id)
    ensures XorValue(a, b) < Pow2(Distance(a, b))
    ensures Distance(a, b) > 0 ==> Pow2(Distance(a, b) - 1) <= XorValue(a, b)
    ensures Distance(a, b) == 0 <==> XorValue(a, b) == 0
  {
    BitLength(Xor(a, b));
  }

  /** Only an id itself is at distance zero. */
  lemma DistanceZeroIff(a: Id, b: Id)
    ensures Distance(a, b) == 0 <==> a == b
  {
    DistanceIsBitLength(a, b);
    XorValueInjective(a, b, b);
    XorSelf(b);
    DistanceIsBitLength(b, b);
  }

  lemma {:induction false} AllZeros(s: Bytes)
    requires forall i :: 0 <= i < |s| ==> s[i] == 0
    ensures Value(s) == 0
  {
    if s != [] {
      AllZeros(s[..|s| - 1]);
      ByteBitLength(s[|s| - 1]);
    }
  }

  lemma XorSelf(a: Id)
    ensures XorValue(a, a) == 0
  {
    forall i | 0 <= i < 20 ensures Xor(a, a)[i] == 0 {
      XorCancels(a[i], a[i], 0);
    }
    AllZeros(Xor(a, a));
  }

  lemma DistanceSymmetric(a: Id, b: Id)
    ensures Xor(a, b) == Xor(b, a)
    ensures Distance(a, b) == Distance(b, a)
  {
    forall i | 0 <= i < 20 ensures Xor(a, b)[i] == Xor(b, a)[i] {
      XorCancels(a[i], b[i], 0);
    }
    assert Xor(a, b) == Xor(b, a);
  }

  lemma ByteXorLeadingZeros(x: bv8, y: bv8)
    ensures ByteLeadingZeros(x) <= ByteLeadingZeros(x ^ y) || ByteLeadingZeros(y) <= ByteLeadingZeros(x ^ y)
    ensures ByteLeadingZeros(x) == ByteLeadingZeros(y) < 8 ==> ByteLeadingZeros(x) < ByteLeadingZeros(x ^ y)
    ensures ByteLeadingZeros(x) == 8 ==> ByteLeadingZeros(x ^ y) == ByteLeadingZeros(y)
    ensures ByteLeadingZeros(y) == 8 ==> ByteLeadingZeros(x ^ y) == ByteLeadingZeros(x)
  {}

  lemma {:induction false} LeadingZerosStep(s: Bytes)
    requires s != []
    ensures LeadingZeros(s) ==
            if ByteLeadingZeros(s[0]) < 8 then ByteLeadingZeros(s[0]) else 8 + LeadingZeros(s[1..])
  {}

  lemma {:induction false} XorLeadingZeros(x: Bytes, y: Bytes, z: Bytes)
    requires |x| == |y| && z == XorBytes(x, y)
    ensures LeadingZeros(x) <= LeadingZeros(z) || LeadingZeros(y) <= LeadingZeros(z)
    ensures LeadingZeros(x) == LeadingZeros(y) < 8 * |x| ==> LeadingZeros(x) < LeadingZeros(z)
  {
    if x != [] {
      LeadingZerosStep(x);
      LeadingZerosStep(y);
      LeadingZerosStep(z);
      ByteXorLeadingZeros(x[0], y[0]);
      XorLeadingZeros(x[1..], y[1..], z[1..]);
    }
  }

  lemma XorThrough(a: Id, b: Id, c: Id)
    ensures XorBytes(Xor(a, b), Xor(c, b)) == Xor(a, c)
  {
    forall i | 0 <= i < 20 ensures XorBytes(Xor(a, b), Xor(c, b))[i] == Xor(a, c)[i] {
      XorCancels(a[i], c[i], b[i]);
    }
  }

  /** The distance is an ultrametric: a detour through `b` does not shorten the longer leg. */
  lemma DistanceUltrametric(a: Id, b: Id, c: Id)
    ensures Distance(a, c) <= Distance(a, b) || Distance(a, c) <= Distance(b, c)
  {
    DistanceSymmetric(c, b);
    XorThrough(a, b, c);
    XorLeadingZeros(Xor(a, b), Xor(c, b), Xor(a, c));
  }

  /** Two ids in the same bucket are closer to each other than to the table's owner. */
  lemma BucketMatesAreCloser(owner: Id, a: Id, b: Id)
    requires Distance(owner, a) == Distance(owner, b) > 0
    ensures Distance(a, b) < Distance(owner, a)
  {
    DistanceSymmetric(owner, a);
    DistanceSymmetric(owner, b);
    XorThrough(a, owner, b);
    XorLeadingZeros(Xor(a, owner), Xor(b, owner), Xor(a, b));
  }

  /** Ids in two different buckets are as far apart as the farther one is from the owner. */
  lemma BucketsAreSeparated(owner: Id, a: Id, b: Id)
    requires Distance(owner, a) < Distance(owner, b)
    ensures Distance(a, b) == Distance(owner, b)
  {
    DistanceSymmetric(owner, a);
    DistanceUltrametric(a, owner, b);
    DistanceUltrametric(owner, a, b);
  }

  /** The XOR order that lookups sort by never contradicts the bucket distance. */
  lemma XorOrderRefinesDistance(a: Id, b: Id, t: Id)
    requires Compare(Xor(a, t), Xor(b, t)) == Less
    ensures Distance(a, t) <= Distance(b, t)
  {
    CompareIsNumeric(Xor(a, t), Xor(b, t));
    DistanceIsBitLength(a, t);
    DistanceIsBitLength(b, t);
    if Distance(a, t) > Distance(b, t) {
      Pow2Monotone(Distance(b, t), Distance(a, t) - 1);
    }
  }

  // === Ids derived from IP addresses (BEP 42) ===

  predicate IsPrivate(ip: bv32) {
    ip & 0xff000000 == 0x0a000000 || ip & 0xfff00000 == 0xac100000 || ip & 0xffff0000 == 0xc0a80000
  }

  predicate IsLinkLocal(ip: bv32) { ip & 0xffff0000 == 0xa9fe0000 }

  predicate IsLoopback(ip: bv32) { ip & 0xff000000 == 0x7f000000 }

  predicate IsLocal(ip: bv32) { IsPrivate(ip) || IsLinkLocal(ip) || IsLoopback(ip) }

  function First21Bits(id: Bytes): (r: Bytes)
    requires |id| >= 3
    ensures |r| == 3
  {
    [id[0], id[1], id[2] & 0xf8]
  }

  function IdPrefix(crc: Crc, ip: bv32, r: bv8): (p: Bytes)
    ensures |p| == 3
  {
    var c := crc((ip & IPV4_MASK) | ((r as bv32) << 29));
    [((c >> 24) & 0xff) as bv8, ((c >> 16) & 0xff) as bv8, ((c >> 8) & 0xff) as bv8]
  }

  predicate IsValidForIp(crc: Crc, id: Id, ip: bv32) {
    IsLocal(ip) || First21Bits(id) == First21Bits(IdPrefix(crc, ip, id[ID_SIZE - 1]))
  }

  function FromIpv4AndR(crc: Crc, bytes: Id, ip: bv32, r: bv8): Id {
    var prefix := IdPrefix(crc, ip, r);
    bytes[0 := prefix[0]][1 := prefix[1]][2 := (prefix[2] & 0xf8) | (bytes[2] & 0x7)][ID_SIZE - 1 := r]
  }

  /** An id generated for an IP passes the check for that IP, keeping the random bits elsewhere. */
  lemma GeneratedIdIsValid(crc: Crc, bytes: Id, ip: bv32, r: bv8)
    ensures IsValidForIp(crc, FromIpv4AndR(crc, bytes, ip, r), ip)
    ensures FromIpv4AndR(crc, bytes, ip, r)[2] & 0x7 == bytes[2] & 0x7
    ensures FromIpv4AndR(crc, bytes, ip, r)[3..19] == bytes[3..19]
  {
    var id := FromIpv4AndR(crc, bytes, ip, r);
    var p := IdPrefix(crc, ip, r)[2];
    assert ((p & 0xf8) | (bytes[2] & 0x7)) & 0xf8 == p & 0xf8;
    assert id[19] == r;
    assert First21Bits(id) == First21Bits(IdPrefix(crc, ip, id[19]));
  }

  /** Only three bits of `r` reach the prefix. */
  lemma PrefixUsesThreeBits(crc: Crc, ip: bv32, r: bv8)
    ensures IdPrefix(crc, ip, r) == IdPrefix(crc, ip, r & 7)
  {
    assert (r as bv32) << 29 == ((r & 7) as bv32) << 29;
  }

  /** The prefixes that secure ids of a public IP can have. */
  function SecurePrefixes(crc: Crc, ip: bv32): set<Bytes> {
    {First21Bits(IdPrefix(crc, ip, 0)), First21Bits(IdPrefix(crc, ip, 1)),
     First21Bits(IdPrefix(crc, ip, 2)), First21Bits(IdPrefix(crc, ip, 3)),
     First21Bits(IdPrefix(crc, ip, 4)), First21Bits(IdPrefix(crc, ip, 5)),
     First21Bits(IdPrefix(crc, ip, 6)), First21Bits(IdPrefix(crc, ip, 7))}
  }

  /** A public IP has at most eight secure prefixes, and every secure id for it has one of them. */
  lemma EightSecurePrefixes(crc: Crc, ip: bv32)
    ensures |SecurePrefixes(crc, ip)| <= 8
    ensures !IsLocal(ip) ==>
              forall id: Id :: IsValidForIp(crc, id, ip) ==> First21Bits(id) in SecurePrefixes(crc, ip)
  {
    forall id: Id | !IsLocal(ip) && IsValidForIp(crc, id, ip)
      ensures First21Bits(id) in SecurePrefixes(crc, ip)
    {
      PrefixUsesThreeBits(crc, ip, id[19]);
      ThreeBits(id[19]);
    }
  }

  lemma ThreeBits(r: bv8)
    ensures r & 7 == 0 || r & 7 == 1 || r & 7 == 2 || r & 7 == 3
         || r & 7 == 4 || r & 7 == 5 || r & 7 == 6 || r & 7 == 7
  {}

  // === Local addresses, and where a prefix comes from ===

  /** The ranges 10/8, 172.16/12, 192.168/16, 169.254/16 and 127/8, and no other address, are local. */
  lemma LocalRanges(ip: bv32)
    ensures IsLocal(ip) <==>
              0x0a00_0000 <= ip <= 0x0aff_ffff || 0xac10_0000 <= ip <= 0xac1f_ffff
              || 0xc0a8_0000 <= ip <= 0xc0a8_ffff || 0xa9fe_0000 <= ip <= 0xa9fe_ffff
              || 0x7f00_0000 <= ip <= 0x7fff_ffff
  {
  }

  /**
   * The first example of BEP 42, 124.31.75.21 with 1: when the checksum of its masked bytes begins
   * with 5f bf bf, so does the id.
   */
  lemma PrefixExample(crc: Crc)
    requires crc(0x200f_0b15) >> 8 == 0x5f_bfbf
    ensures IdPrefix(crc, 0x7c1f_4b15, 1) == [0x5f, 0xbf, 0xbf]
  {
    MaskedExample();
    TopBytes(crc(0x200f_0b15));
  }

  lemma MaskedExample()
    ensures (0x7c1f_4b15 & IPV4_MASK) | ((1 as bv8 as bv32) << 29) == 0x200f_0b15
  {
  }

  /** All three low bits of `r` are in what is summed, above the bits of the IP. */
  lemma PrefixSums(crc: Crc)
    requires crc(0xa30f_3fff) == 0x0102_0304
    ensures IdPrefix(crc, 0xffff_ffff, 5) == [1, 2, 3]
  {
    FullMask();
  }

  lemma FullMask()
    ensures (0xffff_ffff & IPV4_MASK) | ((5 as bv8 as bv32) << 29) == 0xa30f_3fff
  {
  }

  lemma TopBytes(c: bv32)
    ensures c >> 8 == 0x5f_bfbf ==> (c >> 24) & 0xff == 0x5f && (c >> 16) & 0xff == 0xbf && (c >> 8) & 0xff == 0xbf
  {
  }

  /** The first 21 bits: two ids share them exactly when they share two bytes and the top five bits of the third. */
  lemma First21BitsIff(a: Id, b: Id)
    ensures First21Bits(a) == First21Bits(b) <==> a[0] == b[0] && a[1] == b[1] && a[2] >> 3 == b[2] >> 3
  {
    assert a[2] & 0xf8 == b[2] & 0xf8 <==> a[2] >> 3 == b[2] >> 3;
  }
}
