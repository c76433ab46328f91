/** Node entries, their age and their admission rule. Times are milliseconds on a monotonic clock. */
module Nodes {
  import opened Ids
  import opened Options
  import opened SortedList

  const STALE_TIME: nat := 15 * 60 * 1000
  const MIN_PING_BACKOFF_INTERVAL: nat := 10 * 1000
  const TOKEN_ROTATE_INTERVAL: nat := 5 * 60 * 1000
  const MAX_BUCKET_SIZE_K: nat := 20

  datatype Addr = Addr(ip: bv32, port: bv16)

  datatype Node = Node(id: Id, addr: Addr, token: Option<Bytes>, lastSeen: nat)

  // `Instant::elapsed` is zero for a time that has not come yet.
  function Elapsed(now: nat, since: nat): nat {
    if now >= since then now - since else 0
  }

  predicate IsStale(n: Node, now: nat) { Elapsed(now, n.lastSeen) > STALE_TIME }

  predicate ValidToken(n: Node, now: nat) { Elapsed(now, n.lastSeen) <= TOKEN_ROTATE_INTERVAL }

  predicate ShouldPing(n: Node, now: nat) { Elapsed(now, n.lastSeen) > MIN_PING_BACKOFF_INTERVAL }

  predicate SameIp(a: Node, b: Node) { a.addr.ip == b.addr.ip }

  predicate IsSecure(crc: Crc, n: Node) { IsValidForIp(crc, n.id, n.addr.ip) }

  /** `existing` keeps `incoming` out: same IP, and insecure or with the same first 21 bits. */
  predicate Blocks(crc: Crc, existing: Node, incoming: Node) {
    SameIp(incoming, existing)
    && (!IsSecure(crc, existing) || First21Bits(incoming.id) == First21Bits(existing.id))
  }

  function BlocksFor(crc: Crc): (Node, Node) -> bool {
    (existing, incoming) => Blocks(crc, existing, incoming)
  }

  predicate AlreadyExists(crc: Crc, node: Node, nodes: seq<Node>) {
    Blocked(BlocksFor(crc), nodes, node)
  }

  // === Ages ===

  /** Stale after fifteen minutes, worth a ping after ten seconds, good for a token for five minutes; exactly. */
  lemma AgesIff(n: Node, now: nat)
    ensures IsStale(n, now) <==> now > n.lastSeen + 900_000
    ensures ShouldPing(n, now) <==> now > n.lastSeen + 10_000
    ensures ValidToken(n, now) <==> now <= n.lastSeen + 300_000
  {
  }

  /** A node keeps others of its IP out when it is insecure there or shares their first 21 bits, and no other node. */
  lemma BlocksIff(crc: Crc, existing: Node, incoming: Node)
    ensures BlocksFor(crc)(existing, incoming) <==>
              existing.addr.ip == incoming.addr.ip
              && (IsValidForIp(crc, existing.id, existing.addr.ip) ==>
                    First21Bits(existing.id) == First21Bits(incoming.id))
  {
  }
}
