/** Announced peers, and the selection sampling that answers a request for them. */
module Peers {
  import opened Ids
  import opened Nodes
  import opened Options
  import opened Lru

  const U32_MAX: nat := 0xffff_ffff
  const TARGET_SIZE: nat := 10

  type PeerCache = Cache<Id, Addr>

  /** `(slots / items) * 2^32`, cast to 32 bits, which saturates. */
  function Chance(slots: nat, items: nat): nat
    requires items > 0
  {
    var c := (slots * 0x1_0000_0000) / items;
    if c > U32_MAX then U32_MAX else c
  }

  /** The little-endian number in four bytes at an index. */
  function Draw(chunk: Bytes, index: nat): nat
    requires index + 4 <= |chunk|
  {
    ByteValue(chunk[index]) + 256 * (ByteValue(chunk[index + 1])
      + 256 * (ByteValue(chunk[index + 2]) + 256 * ByteValue(chunk[index + 3])))
  }

  function Addresses(es: seq<Entry<Id, Addr>>): (r: seq<Addr>)
    ensures |r| == |es|
  {
    seq(|es|, i requires 0 <= i < |es| => es[i].value)
  }

  function DrawsOf(chunk: Bytes): nat -> nat {
    (index: nat) => if index + 4 <= |chunk| then Draw(chunk, index) else 0
  }

  function Chances(): (nat, nat) -> nat {
    (slots: nat, items: nat) => if items > 0 then Chance(slots, items) else 0
  }

  /** Selection sampling from `index` on, with `slots` places left. */
  function Sample<T>(addrs: seq<T>, draw: nat -> nat, chance: (nat, nat) -> nat, index: nat, slots: nat): seq<T>
    requires index <= |addrs|
    decreases |addrs| - index
  {
    if index == |addrs| || slots == 0 then []
    else if draw(index) < chance(slots, |addrs| - index) then
      [addrs[index]] + Sample(addrs, draw, chance, index + 1, slots - 1)
    else Sample(addrs, draw, chance, index + 1, slots)
  }

  lemma DrawFits(chunk: Bytes, index: nat)
    requires index + 4 <= |chunk|
    ensures Draw(chunk, index) <= U32_MAX
  {
  }

  /** `picks` are increasing indices at which `s` holds the elements of `r`. */
  ghost predicate PickedAt<T>(r: seq<T>, s: seq<T>, picks: seq<nat>) {
    && |picks| == |r|
    && (forall i :: 0 <= i < |picks| ==> picks[i] < |s| && r[i] == s[picks[i]])
    && forall i, j :: 0 <= i < j < |picks| ==> picks[i] < picks[j]
  }

  /** When every remaining item is needed, the chance is the largest number. */
  ghost predicate CertainWhenNeeded(chance: (nat, nat) -> nat) {
    forall slots, items :: 0 < items <= slots ==> chance(slots, items) == U32_MAX
  }

  lemma ChancesAreCertain()
    ensures CertainWhenNeeded(Chances())
  {
    forall slots: nat, items: nat | 0 < items <= slots ensures Chances()(slots, items) == U32_MAX {
      QuotientAtLeast(slots, items, 0x1_0000_0000);
    }
  }

  lemma QuotientAtLeast(slots: nat, items: nat, scale: nat)
    requires 0 < items <= slots
    ensures slots * scale / items >= scale
  {
    var x := slots * scale;
    assert x >= items * scale;
    var r := x / items;
    assert x < r * items + items;
    if r < scale {
      OneMore(r, scale, items);
    }
  }

  lemma OneMore(r: nat, q: nat, d: nat)
    requires r < q
    ensures r * d + d <= q * d
  {
    assert (r + 1) * d <= q * d;
  }

  /** A sample is a subsequence. */
  lemma {:induction false} SamplePicks<T>(addrs: seq<T>, draw: nat -> nat, chance: (nat, nat) -> nat,
                                          index: nat, slots: nat) returns (picks: seq<nat>)
    requires index <= |addrs|
    ensures PickedAt(Sample(addrs, draw, chance, index, slots), addrs, picks)
    ensures forall i :: 0 <= i < |picks| ==> index <= picks[i]
    decreases |addrs| - index
  {
    if index == |addrs| || slots == 0 {
      picks := [];
    } else if draw(index) < chance(slots, |addrs| - index) {
      var rest := SamplePicks(addrs, draw, chance, index + 1, slots - 1);
      picks := [index] + rest;
    } else {
      picks := SamplePicks(addrs, draw, chance, index + 1, slots);
    }
  }

  /** A sample is never too long, and short only if some draw was the largest number. */
  lemma {:induction false} SampleLength<T>(addrs: seq<T>, draw: nat -> nat, chance: (nat, nat) -> nat,
                                           index: nat, slots: nat)
    requires index <= |addrs| && CertainWhenNeeded(chance)
    ensures |Sample(addrs, draw, chance, index, slots)| <= slots
    ensures slots <= |addrs| - index && (forall k :: index <= k < |addrs| ==> draw(k) < U32_MAX)
        ==> |Sample(addrs, draw, chance, index, slots)| == slots
    decreases |addrs| - index
  {
    if index < |addrs| && slots > 0 {
      if draw(index) < chance(slots, |addrs| - index) {
        SampleLength(addrs, draw, chance, index + 1, slots - 1);
      } else {
        SampleLength(addrs, draw, chance, index + 1, slots);
      }
    }
  }

  /** The places left when the walk reaches `k`. */
  ghost function SlotsAt(total: nat, draw: nat -> nat, chance: (nat, nat) -> nat, index: nat, slots: nat, k: nat): nat
    requires index <= k <= total
    decreases k - index
  {
    if k == index then slots
    else
      var picked := slots > 0 && draw(index) < chance(slots, total - index);
      SlotsAt(total, draw, chance, index + 1, if picked then slots - 1 else slots, k)
  }

  /** At `k` every remaining peer is needed, and the draw is the one number that selects nobody. */
  ghost predicate Missed(total: nat, draw: nat -> nat, chance: (nat, nat) -> nat, index: nat, slots: nat, k: nat) {
    index <= k < total && SlotsAt(total, draw, chance, index, slots, k) == total - k && draw(k) == U32_MAX
  }

  /** A sample is short exactly when such a draw comes at a peer that is needed. */
  lemma {:induction false} SampleShortIff<T>(addrs: seq<T>, draw: nat -> nat, chance: (nat, nat) -> nat,
                                             index: nat, slots: nat)
    requires index <= |addrs| && slots <= |addrs| - index && CertainWhenNeeded(chance)
    requires forall k :: draw(k) <= U32_MAX
    ensures |Sample(addrs, draw, chance, index, slots)| < slots
        <==> exists k: nat :: Missed(|addrs|, draw, chance, index, slots, k)
    decreases |addrs| - index
  {
    var total := |addrs|;
    if index < total && slots > 0 {
      var picked := draw(index) < chance(slots, total - index);
      var left, next := if picked then slots - 1 else slots, index + 1;
      assert forall k: nat :: next <= k < total ==>
        (Missed(total, draw, chance, index, slots, k) <==> Missed(total, draw, chance, next, left, k));
      if picked || slots < total - index {
        SampleShortIff(addrs, draw, chance, next, left);
        assert !Missed(total, draw, chance, index, slots, index);
      } else {
        assert Missed(total, draw, chance, index, slots, index);
        SampleFits(addrs, draw, chance, index + 1, slots);
      }
    } else if slots == 0 {
      forall k: nat ensures !Missed(total, draw, chance, index, slots, k) {
        if index <= k < total {
          NoSlotsLeft(total, draw, chance, index, k);
        }
      }
    }
  }

  lemma {:induction false} SampleFits<T>(addrs: seq<T>, draw: nat -> nat, chance: (nat, nat) -> nat,
                                         index: nat, slots: nat)
    requires index <= |addrs|
    ensures |Sample(addrs, draw, chance, index, slots)| <= |addrs| - index
    decreases |addrs| - index
  {
    if index < |addrs| && slots > 0 {
      SampleFits(addrs, draw, chance, index + 1,
                 if draw(index) < chance(slots, |addrs| - index) then slots - 1 else slots);
    }
  }

  lemma {:induction false} NoSlotsLeft(total: nat, draw: nat -> nat, chance: (nat, nat) -> nat, index: nat, k: nat)
    requires index <= k <= total
    ensures SlotsAt(total, draw, chance, index, 0, k) == 0
    decreases k - index
  {
    if index < k {
      NoSlotsLeft(total, draw, chance, index + 1, k);
    }
  }

  /** Chances never exceed the largest number, so the largest draws select nobody. */
  lemma {:induction false} LargestDrawsSelectNobody<T>(addrs: seq<T>, draw: nat -> nat, index: nat, slots: nat)
    requires index <= |addrs|
    requires forall k :: index <= k < |addrs| ==> draw(k) == U32_MAX
    ensures Sample(addrs, draw, Chances(), index, slots) == []
    decreases |addrs| - index
  {
    if index < |addrs| {
      assert Chances()(slots, |addrs| - index) <= U32_MAX;
      LargestDrawsSelectNobody(addrs, draw, index + 1, slots);
    }
  }

  class PeersStore {
    var infoHashes: Cache<Id, PeerCache>
    const maxPeers: nat

    ghost predicate Valid()
      reads this
    {
      && maxPeers > 0 && Lru.Valid(infoHashes)
      && forall e <- infoHashes.entries :: Lru.Valid(e.value) && e.value.capacity == maxPeers
                                           && e.value.entries != []
    }

    constructor (maxInfoHashes: nat, maxPeers: nat)
      requires maxInfoHashes > 0 && maxPeers > 0
      ensures Valid() && this.maxPeers == maxPeers && infoHashes == Cache(maxInfoHashes, [])
    {
      this.infoHashes, this.maxPeers := Cache(maxInfoHashes, []), maxPeers;
    }

    method AddPeer(infoHash: Id, peerId: Id, addr: Addr)
      requires Valid()
      modifies this
      ensures Valid()
      ensures infoHashes
           == Put(old(infoHashes), infoHash, Put(PeersOf(old(infoHashes), infoHash, maxPeers), peerId, addr))
      ensures Peek(infoHashes, infoHash)
           == Some(Put(PeersOf(old(infoHashes), infoHash, maxPeers), peerId, addr))
      ensures forall h :: h != infoHash && Contains(infoHashes, h) ==>
                            Peek(infoHashes, h) == Peek(old(infoHashes), h)
    {
      ghost var before := infoHashes;
      var peers := PeersOf(infoHashes, infoHash, maxPeers);
      PeersOfValid(infoHashes, infoHash, maxPeers);
      PutKeeps(peers, peerId, addr);
      // A hit is promoted and changed in place; a miss inserts a new cache. Both are one `put`.
      infoHashes := Put(infoHashes, infoHash, Put(peers, peerId, addr));
      PutKeeps(before, infoHash, Put(peers, peerId, addr));
      PutEntries(before, infoHash, Put(peers, peerId, addr));
    }

    /** At most ten of the stored peers; a `get` also promotes the info hash. */
    method GetRandomPeers(infoHash: Id, chunk: Bytes) returns (peers: Option<seq<Addr>>)
      requires Valid()
      requires Contains(infoHashes, infoHash) ==> |chunk| == 4 * |Peek(infoHashes, infoHash).value.entries|
      modifies this
      ensures Valid() && infoHashes == Touch(old(infoHashes), infoHash)
      ensures peers == Answer(Peek(old(infoHashes), infoHash), chunk)
    {
      TouchEntries(infoHashes, infoHash);
      TouchKeeps(infoHashes, infoHash);
      var found := Peek(infoHashes, infoHash);
      infoHashes := Touch(infoHashes, infoHash);
      if found.None? {
        return None;
      }
      var addrs := Addresses(found.value.entries);
      var size := |addrs|;
      if size == 0 {
        return None;
      }
      if size < TARGET_SIZE {
        return Some(addrs);
      }
      var results := SampleLoop(addrs, DrawsOf(chunk), Chances(), TARGET_SIZE);
      return Some(results);
    }
  }

  /** The loop over the stored peers, which stops when no slot is left. */
  method SampleLoop<T>(addrs: seq<T>, draw: nat -> nat, chance: (nat, nat) -> nat, targetSize: nat)
    returns (results: seq<T>)
    requires targetSize > 0
    ensures results == Sample(addrs, draw, chance, 0, targetSize)
  {
    hide Sample;
    results := [];
    var index := 0;
    assert results + Sample(addrs, draw, chance, 0, targetSize) == Sample(addrs, draw, chance, 0, targetSize);
    while index < |addrs|
      invariant index <= |addrs| && |results| < targetSize
      invariant Sample(addrs, draw, chance, 0, targetSize)
             == results + Sample(addrs, draw, chance, index, targetSize - |results|)
    {
      var remainingSlots := targetSize - |results|;
      var remainingItems := |addrs| - index;
      SampleStep(addrs, draw, chance, index, remainingSlots, results);
      if draw(index) < chance(remainingSlots, remainingItems) {
        results := results + [addrs[index]];
        if |results| == targetSize {
          SampleEnds(addrs, draw, chance, index + 1, 0, results);
          break;
        }
      }
      index := index + 1;
    }
    if index == |addrs| {
      SampleEnds(addrs, draw, chance, index, targetSize - |results|, results);
    }
  }

  lemma {:induction false} SampleEnds<T>(addrs: seq<T>, draw: nat -> nat, chance: (nat, nat) -> nat, index: nat,
                                         slots: nat, done: seq<T>)
    requires index <= |addrs| && (index == |addrs| || slots == 0)
    ensures done + Sample(addrs, draw, chance, index, slots) == done
  {
  }

  lemma SampleStep<T>(addrs: seq<T>, draw: nat -> nat, chance: (nat, nat) -> nat, index: nat, slots: nat, done: seq<T>)
    requires index < |addrs| && slots > 0
    ensures done + Sample(addrs, draw, chance, index, slots) ==
            if draw(index) < chance(slots, |addrs| - index)
            then (done + [addrs[index]]) + Sample(addrs, draw, chance, index + 1, slots - 1)
            else done + Sample(addrs, draw, chance, index + 1, slots)
  {
    var rest := Sample(addrs, draw, chance, index + 1, slots - 1);
    assert done + ([addrs[index]] + rest) == (done + [addrs[index]]) + rest;
  }

  function PeersOf(c: Cache<Id, PeerCache>, infoHash: Id, maxPeers: nat): PeerCache {
    match Peek(c, infoHash)
    case Some(peers) => peers
    case None => Cache(maxPeers, [])
  }

  function Answer(found: Option<PeerCache>, chunk: Bytes): Option<seq<Addr>>
    requires found.Some? ==> |chunk| == 4 * |found.value.entries|
  {
    if found.None? || found.value.entries == [] then None
    else
      var addrs := Addresses(found.value.entries);
      if |addrs| < TARGET_SIZE then Some(addrs) else Some(Sample(addrs, DrawsOf(chunk), Chances(), 0, TARGET_SIZE))
  }

  /** What a requester gets: some of the peers in their order, all of them if few, else ten. */
  lemma AnswerSpec(found: PeerCache, chunk: Bytes) returns (picks: seq<nat>)
    requires found.entries != [] && |chunk| == 4 * |found.entries|
    ensures Answer(Some(found), chunk).Some?
    ensures var peers, addrs := Answer(Some(found), chunk).value, Addresses(found.entries);
            && PickedAt(peers, addrs, picks) && |peers| <= TARGET_SIZE
            && (|addrs| >= TARGET_SIZE ==> |addrs| + 3 <= |chunk|)
            && (|addrs| < TARGET_SIZE ==> peers == addrs)
            && (|addrs| >= TARGET_SIZE ==>
                  (|peers| < TARGET_SIZE
                   <==> exists k: nat :: Missed(|addrs|, DrawsOf(chunk), Chances(), 0, TARGET_SIZE, k)))
            && (|addrs| >= TARGET_SIZE && (forall k :: 0 <= k < |addrs| ==> Draw(chunk, k) != U32_MAX)
                ==> |peers| == TARGET_SIZE)
  {
    var addrs := Addresses(found.entries);
    if |addrs| < TARGET_SIZE {
      picks := seq(|addrs|, i => i);
    } else {
      ChancesAreCertain();
      picks := SamplePicks(addrs, DrawsOf(chunk), Chances(), 0, TARGET_SIZE);
      SampleLength(addrs, DrawsOf(chunk), Chances(), 0, TARGET_SIZE);
      forall k: nat ensures DrawsOf(chunk)(k) <= U32_MAX {
        if k + 4 <= |chunk| {
          DrawFits(chunk, k);
        }
      }
      SampleShortIff(addrs, DrawsOf(chunk), Chances(), 0, TARGET_SIZE);
      if forall k :: 0 <= k < |addrs| ==> Draw(chunk, k) != U32_MAX {
        forall k | 0 <= k < |addrs| ensures DrawsOf(chunk)(k) < U32_MAX {
          DrawFits(chunk, k);
        }
      }
    }
  }

  lemma PeersOfValid(c: Cache<Id, PeerCache>, infoHash: Id, maxPeers: nat)
    requires maxPeers > 0
    requires forall e <- c.entries :: Lru.Valid(e.value) && e.value.capacity == maxPeers
    ensures Lru.Valid(PeersOf(c, infoHash, maxPeers)) && PeersOf(c, infoHash, maxPeers).capacity == maxPeers
  {
    var i := IndexOf(c.entries, infoHash);
    if i < |c.entries| {
      assert c.entries[i] in c.entries;
    }
  }

  lemma PutEntries<V>(c: Cache<Id, V>, k: Id, v: V)
    requires Lru.Valid(c)
    ensures forall e <- Put(c, k, v).entries :: e == Entry(k, v) || e in c.entries
  {
  }

  lemma TouchEntries<V>(c: Cache<Id, V>, k: Id)
    ensures forall e <- Touch(c, k).entries :: e in c.entries
  {
  }

  // === The chance of a peer ===

  /** Below certainty the chance is the exact quotient, rounded down: `slots` out of `items`, in 2^32ths. */
  lemma ChanceIsQuotient(slots: nat, items: nat)
    requires slots < items
    ensures Chance(slots, items) * items <= slots * 0x1_0000_0000 < (Chance(slots, items) + 1) * items
  {
    QuotientBounds(slots * 0x1_0000_0000, items);
    QuotientBelow(slots * 0x1_0000_0000, items, 0x1_0000_0000);
  }

  lemma QuotientBelow(x: nat, d: nat, n: nat)
    requires x < n * d
    ensures d > 0 && x / d < n
  {
    QuotientBounds(x, d);
    if x / d >= n {
      OneMore(n, x / d + 1, d);
    }
  }

  lemma QuotientBounds(x: nat, d: nat)
    requires d > 0
    ensures (x / d) * d <= x < (x / d + 1) * d
  {
  }

  /** The number that four bytes write, the least significant first. */
  lemma DrawIsLittleEndian(chunk: Bytes, index: nat)
    requires index + 4 <= |chunk|
    ensures Draw(chunk, index) == Value([chunk[index + 3], chunk[index + 2], chunk[index + 1], chunk[index]])
  {
    ValueOfFour(chunk[index + 3], chunk[index + 2], chunk[index + 1], chunk[index]);
  }

  lemma ValueOfFour(a: bv8, b: bv8, c: bv8, d: bv8)
    ensures Value([a, b, c, d]) == ByteValue(d) + 256 * (ByteValue(c) + 256 * (ByteValue(b) + 256 * ByteValue(a)))
  {
    hide ByteValue;
    assert [a, b, c, d][..3] == [a, b, c] && [a, b, c][..2] == [a, b] && [a, b][..1] == [a] && [a][..0] == [];
    assert Value([a]) == ByteValue(a);
    assert Value([a, b]) == 256 * Value([a]) + ByteValue(b);
    assert Value([a, b, c]) == 256 * Value([a, b]) + ByteValue(c);
  }

  /** The draw at an index is that of the four bytes there, as long as there are four. */
  lemma DrawsAre(chunk: Bytes, index: nat)
    ensures index + 4 <= |chunk| ==>
              DrawsOf(chunk)(index) == Value([chunk[index + 3], chunk[index + 2], chunk[index + 1], chunk[index]])
  {
    if index + 4 <= |chunk| {
      DrawIsLittleEndian(chunk, index);
    }
  }
}
