/** Outgoing requests in flight, their transaction ids, and which responses are expected. */
module Socket {
  import opened Nodes
  import opened Options

  const TID_COUNT: nat := 0x1_0000_0000
  const INFLIGHT_CLEANUP_INTERVAL: nat := 200

  datatype Inflight = Inflight(to: Addr, sentAt: nat)

  type Table = map<nat, Inflight>

  /** The reply must come from the port that was asked and, unless none was given, from its IP. */
  predicate DoesMatch(r: Inflight, from: Addr) {
    r.to.port == from.port && (r.to.ip == 0 || r.to.ip == from.ip)
  }

  predicate IsLive(r: Inflight, now: nat, timeout: nat) { Elapsed(now, r.sentAt) < timeout }

  /** The requests that can still be answered at `now`: all that a table means. */
  ghost function Live(t: Table, now: nat, timeout: nat): Table {
    map tid | tid in t && IsLive(t[tid], now, timeout) :: t[tid]
  }

  /** Two tables that no later lookup can tell apart. */
  ghost predicate SameFrom(t: Table, u: Table, now: nat, timeout: nat) {
    forall later: nat :: later >= now ==> Live(t, later, timeout) == Live(u, later, timeout)
  }

  function AddRequest(t: Table, tid: nat, to: Addr, now: nat): Table { t[tid := Inflight(to, now)] }

  predicate ContainsTid(t: Table, tid: nat, now: nat, timeout: nat) {
    tid in t && IsLive(t[tid], now, timeout)
  }

  function RemoveRequest(t: Table, tid: nat, from: Addr, now: nat, timeout: nat): (Table, Option<Inflight>) {
    if tid !in t then (t, None)
    else if !IsLive(t[tid], now, timeout) then (t - {tid}, None)
    else if !DoesMatch(t[tid], from) then (t, None)
    else (t - {tid}, Some(t[tid]))
  }

  // `sent_at > now - timeout`, on a clock that has run for longer than the timeout.
  function CleanedUp(t: Table, now: nat, timeout: nat): Table {
    map tid | tid in t && t[tid].sentAt > now - timeout :: t[tid]
  }

  // === The lazy cleanup cannot be observed ===

  lemma LiveShrinks(r: Inflight, now: nat, later: nat, timeout: nat)
    requires now <= later && IsLive(r, later, timeout)
    ensures IsLive(r, now, timeout)
  {
  }

  /** Dropping the expired requests changes no later answer. */
  lemma CleanupInvisible(t: Table, now: nat, timeout: nat)
    requires forall tid <- t :: t[tid].sentAt <= now
    ensures SameFrom(t, CleanedUp(t, now, timeout), now, timeout)
  {
    forall later: nat | later >= now
      ensures Live(t, later, timeout) == Live(CleanedUp(t, now, timeout), later, timeout)
    {
      assert forall tid <- t :: IsLive(t[tid], later, timeout) ==> t[tid].sentAt > now - timeout;
    }
  }

  /** Tables that look the same answer the same and keep looking the same, whatever is done to both. */
  lemma SameTablesBehaveAlike(t: Table, u: Table, tid: nat, addr: Addr, now: nat, timeout: nat)
    requires SameFrom(t, u, now, timeout)
    ensures ContainsTid(t, tid, now, timeout) == ContainsTid(u, tid, now, timeout)
    ensures RemoveRequest(t, tid, addr, now, timeout).1 == RemoveRequest(u, tid, addr, now, timeout).1
    ensures SameFrom(RemoveRequest(t, tid, addr, now, timeout).0, RemoveRequest(u, tid, addr, now, timeout).0, now,
                     timeout)
    ensures SameFrom(AddRequest(t, tid, addr, now), AddRequest(u, tid, addr, now), now, timeout)
  {
    LiveAgree(t, u, tid, now, timeout);
    forall later: nat | later >= now
      ensures Live(RemoveRequest(t, tid, addr, now, timeout).0, later, timeout)
           == Live(RemoveRequest(u, tid, addr, now, timeout).0, later, timeout)
      ensures Live(AddRequest(t, tid, addr, now), later, timeout) == Live(AddRequest(u, tid, addr, now), later, timeout)
    {
      LiveRemove(t, tid, addr, now, later, timeout);
      LiveRemove(u, tid, addr, now, later, timeout);
      LiveAdd(t, tid, addr, now, later, timeout);
      LiveAdd(u, tid, addr, now, later, timeout);
      assert Live(t, later, timeout) == Live(u, later, timeout);
    }
  }

  lemma LiveAgree(t: Table, u: Table, tid: nat, now: nat, timeout: nat)
    requires SameFrom(t, u, now, timeout)
    ensures ContainsTid(t, tid, now, timeout) == ContainsTid(u, tid, now, timeout)
    ensures ContainsTid(t, tid, now, timeout) ==> t[tid] == u[tid]
  {
    var a, b := Live(t, now, timeout), Live(u, now, timeout);
    assert a == b;
    assert tid in a <==> ContainsTid(t, tid, now, timeout);
    assert tid in b <==> ContainsTid(u, tid, now, timeout);
  }

  /** A removal that is accepted takes exactly its request out of the live ones; any other takes none. */
  lemma LiveRemove(t: Table, tid: nat, from: Addr, now: nat, later: nat, timeout: nat)
    requires now <= later
    ensures var (after, got) := RemoveRequest(t, tid, from, now, timeout);
            && (got.Some? <==> ContainsTid(t, tid, now, timeout) && DoesMatch(t[tid], from))
            && (got.Some? ==> got.value == t[tid] && tid !in after)
            && Live(after, later, timeout) == Live(t, later, timeout) - (if got.Some? then {tid} else {})
  {
    if tid in t && IsLive(t[tid], later, timeout) {
      LiveShrinks(t[tid], now, later, timeout);
    }
  }

  lemma LiveAdd(t: Table, tid: nat, to: Addr, now: nat, later: nat, timeout: nat)
    requires now <= later
    ensures Live(AddRequest(t, tid, to, now), later, timeout)
         == if IsLive(Inflight(to, now), later, timeout) then Live(t, later, timeout)[tid := Inflight(to, now)]
            else Live(t, later, timeout) - {tid}
  {
  }

  // === The table as an object ===

  class InflightRequests {
    var requests: Table
    const timeout: nat

    constructor (timeout: nat)
      ensures requests == map[] && this.timeout == timeout
    {
      this.timeout, requests := timeout, map[];
    }

    method Add(tid: nat, to: Addr, now: nat)
      modifies this
      ensures requests == AddRequest(old(requests), tid, to, now)
    {
      requests := requests[tid := Inflight(to, now)];
    }

    predicate Contains(tid: nat, now: nat)
      reads this
    {
      ContainsTid(requests, tid, now, timeout)
    }

    method Remove(tid: nat, from: Addr, now: nat) returns (request: Option<Inflight>)
      modifies this
      ensures (requests, request) == RemoveRequest(old(requests), tid, from, now, timeout)
      ensures request.Some? <==> old(Contains(tid, now)) && DoesMatch(old(requests)[tid], from)
      ensures forall later: nat :: later >= now ==>
                Live(requests, later, timeout)
                == Live(old(requests), later, timeout) - (if request.Some? then {tid} else {})
    {
      forall later: nat | later >= now
        ensures Live(RemoveRequest(requests, tid, from, now, timeout).0, later, timeout)
             == Live(requests, later, timeout)
                - (if RemoveRequest(requests, tid, from, now, timeout).1.Some? then {tid} else {})
      {
        LiveRemove(requests, tid, from, now, later, timeout);
      }
      if tid !in requests {
        return None;
      }
      var r := requests[tid];
      if Elapsed(now, r.sentAt) >= timeout {
        requests := requests - {tid};
        return None;
      }
      if !DoesMatch(r, from) {
        return None;
      }
      requests := requests - {tid};
      return Some(r);
    }

    method Cleanup(now: nat)
      requires forall tid <- requests :: requests[tid].sentAt <= now
      modifies this
      ensures requests == CleanedUp(old(requests), now, timeout)
      ensures SameFrom(old(requests), requests, now, timeout)
    {
      CleanupInvisible(requests, now, timeout);
      var cutoff := now - timeout;
      requests := map tid | tid in requests && requests[tid].sentAt > cutoff :: requests[tid];
    }
  }

  // === Sending ===

  /** The sending side of the socket: how many requests were ever issued, and those in flight. */
  datatype Sock = Sock(issued: nat, table: Table)

  function NextTid(s: Sock): nat { s.issued % TID_COUNT }

  function Send(s: Sock, to: Addr, now: nat): (Sock, nat) {
    (Sock(s.issued + 1, AddRequest(s.table, NextTid(s), to, now)), NextTid(s))
  }

  function SendAll(s: Sock, tos: seq<Addr>, now: nat): (Sock, seq<nat>) {
    if tos == [] then (s, [])
    else
      var (t, tids) := SendAll(s, tos[..|tos| - 1], now);
      var (u, tid) := Send(t, tos[|tos| - 1], now);
      (u, tids + [tid])
  }

  /** Until 2^32 requests were issued, requests get consecutive ids and leave every other entry alone. */
  lemma {:induction false} SendAllSpec(s: Sock, tos: seq<Addr>, now: nat)
    requires s.issued + |tos| <= TID_COUNT
    ensures var (u, tids) := SendAll(s, tos, now);
            && u.issued == s.issued + |tos| && |tids| == |tos|
            && (forall i :: 0 <= i < |tids| ==> tids[i] == s.issued + i)
            && (forall i :: 0 <= i < |tids| ==> tids[i] in u.table && u.table[tids[i]] == Inflight(tos[i], now))
            && (forall tid :: !(s.issued <= tid < u.issued) ==>
                  (tid in u.table <==> tid in s.table) && (tid in s.table ==> u.table[tid] == s.table[tid]))
  {
    if tos != [] {
      SendAllSpec(s, tos[..|tos| - 1], now);
    }
  }

  /** With or without a wrap-around, every id that was used is now in flight, sent at `now`. */
  lemma {:induction false} SendAllSent(s: Sock, tos: seq<Addr>, now: nat)
    ensures var (u, tids) := SendAll(s, tos, now);
            && |tids| == |tos| && u.issued == s.issued + |tos|
            && (forall tid <- tids :: tid in u.table && u.table[tid].sentAt == now)
            && (forall tid <- u.table :: tid in tids || (tid in s.table && u.table[tid] == s.table[tid]))
            && (forall tid <- s.table :: tid in u.table)
  {
    if tos != [] {
      SendAllSent(s, tos[..|tos| - 1], now);
    }
  }

  /**
   * What a socket holds later, at `now`: old requests as they were, and requests sent since, which
   * have new ids until 2^32 requests were issued.
   */
  ghost predicate Later(s: Sock, t: Sock, now: nat) {
    && s.issued <= t.issued
    && forall tid <- t.table :: (tid in s.table && t.table[tid] == s.table[tid]) || SentSince(s, t, tid, now)
  }

  ghost predicate SentSince(s: Sock, t: Sock, tid: nat, now: nat)
    requires tid in t.table
  {
    t.table[tid].sentAt == now && (t.issued <= TID_COUNT ==> tid >= s.issued)
  }

  lemma LaterTrans(s: Sock, t: Sock, u: Sock, now: nat)
    requires Later(s, t, now) && Later(t, u, now)
    ensures Later(s, u, now)
  {
    forall tid <- u.table ensures (tid in s.table && u.table[tid] == s.table[tid]) || SentSince(s, u, tid, now) {
      if tid in t.table && u.table[tid] == t.table[tid] {
        assert (tid in s.table && t.table[tid] == s.table[tid]) || SentSince(s, t, tid, now);
      }
    }
  }

  lemma LaterKeepsOld(s: Sock, t: Sock, tid: nat, now: nat)
    requires Later(s, t, now) && tid in t.table && tid < s.issued && t.issued <= TID_COUNT
    ensures tid in s.table && t.table[tid] == s.table[tid]
  {
    assert !SentSince(s, t, tid, now);
  }

  lemma LaterGrows(s: Sock, t: Sock, now: nat)
    requires Later(s, t, now)
    ensures s.issued <= t.issued
  {
  }

  lemma FewerIsLater(s: Sock, t: Table, now: nat)
    requires forall tid <- t :: tid in s.table && t[tid] == s.table[tid]
    ensures Later(s, s.(table := t), now)
  {
  }

  lemma LaterItself(s: Sock, now: nat)
    ensures Later(s, s, now)
  {
  }

  lemma SendIsLater(s: Sock, to: Addr, now: nat)
    ensures Later(s, Send(s, to, now).0, now)
  {
  }

  lemma {:induction false} SendAllIsLater(s: Sock, tos: seq<Addr>, now: nat)
    ensures Later(s, SendAll(s, tos, now).0, now)
  {
    if tos == [] {
      FewerIsLater(s, s.table, now);
    } else {
      hide Later;
      var t := SendAll(s, tos[..|tos| - 1], now).0;
      SendAllIsLater(s, tos[..|tos| - 1], now);
      SendIsLater(t, tos[|tos| - 1], now);
      LaterTrans(s, t, SendAll(s, tos, now).0, now);
    }
  }

  // === The socket ===

  lemma WrapStep(n: nat)
    ensures (n + 1) % TID_COUNT == (if n % TID_COUNT + 1 == TID_COUNT then 0 else n % TID_COUNT + 1)
  {
  }

  /** Kinds of packets as far as acceptance goes. */
  datatype Packet = RequestPacket | ReplyPacket(tid: nat)

  class KrpcSocket {
    var nextTid: nat
    var lastCleanup: nat
    const inflightRequests: InflightRequests
    ghost var issued: nat

    ghost predicate Valid()
      reads this
    {
      nextTid == issued % TID_COUNT
    }

    ghost function State(): Sock
      reads this, inflightRequests
    {
      Sock(issued, inflightRequests.requests)
    }

    constructor (timeout: nat, now: nat)
      ensures Valid() && issued == 0 && lastCleanup == now && fresh(inflightRequests)
      ensures inflightRequests.requests == map[] && inflightRequests.timeout == timeout
    {
      inflightRequests := new InflightRequests(timeout);
      nextTid, lastCleanup, issued := 0, now, 0;
    }

    /** The current id; the next one wraps around after 32 bits. */
    method Tid() returns (tid: nat)
      requires Valid()
      modifies this`nextTid, this`issued
      ensures Valid() && issued == old(issued) + 1 && tid == old(nextTid)
    {
      tid := nextTid;
      nextTid := if nextTid + 1 == TID_COUNT then 0 else nextTid + 1;
      issued := issued + 1;
      WrapStep(issued - 1);
    }

    method Request(to: Addr, now: nat) returns (tid: nat)
      requires Valid()
      modifies this`nextTid, this`issued, inflightRequests
      ensures Valid() && (State(), tid) == Send(old(State()), to, now)
    {
      tid := Tid();
      inflightRequests.Add(tid, to, now);
    }

    /**
     * Whether a packet is passed on. Requests always are, unless they come from port 0; a
     * reply is when its request is live and was sent to this address, and then only once.
     */
    method RecvFrom(packet: Packet, from: Addr, now: nat) returns (accepted: bool)
      requires Valid() && forall tid <- inflightRequests.requests :: inflightRequests.requests[tid].sentAt <= now
      modifies this`lastCleanup, inflightRequests
      ensures Valid()
      ensures accepted <==>
                from.port != 0 && (packet.ReplyPacket? ==>
                  old(inflightRequests.Contains(packet.tid, now))
                  && DoesMatch(old(inflightRequests.requests)[packet.tid], from))
      ensures forall tid <- inflightRequests.requests ::
                tid in old(inflightRequests.requests)
                && inflightRequests.requests[tid] == old(inflightRequests.requests)[tid]
      ensures forall later: nat :: later >= now ==>
                Live(inflightRequests.requests, later, inflightRequests.timeout)
                == Live(old(inflightRequests.requests), later, inflightRequests.timeout)
                   - (if accepted && packet.ReplyPacket? then {packet.tid} else {})
    {
      ghost var before, timeout := inflightRequests.requests, inflightRequests.timeout;
      if Elapsed(now, lastCleanup) > INFLIGHT_CLEANUP_INTERVAL {
        lastCleanup := now;
        inflightRequests.Cleanup(now);
      }
      assert SameFrom(before, inflightRequests.requests, now, timeout);
      if from.port == 0 {
        return false;
      }
      match packet {
        case RequestPacket =>
          return true;
        case ReplyPacket(tid) =>
          LiveAgree(before, inflightRequests.requests, tid, now, timeout);
          var request := inflightRequests.Remove(tid, from, now);
          return request.Some?;
      }
    }
  }

  // === Replies from whom was asked ===

  /** A reply matches a request from the address asked, or from its port when no IP was given, and no other. */
  lemma MatchesIff(r: Inflight, from: Addr)
    ensures DoesMatch(r, from) <==> r.to == from || r.to == Addr(0, from.port)
  {
  }

  /** The address asked gets its reply through, at any time before the timeout, and any other address does not. */
  lemma AskedGetsThrough(t: Table, tid: nat, to: Addr, now: nat, from: Addr, later: nat, timeout: nat)
    requires now <= later
    ensures RemoveRequest(AddRequest(t, tid, to, now), tid, to, later, timeout).1
         == if later < now + timeout then Some(Inflight(to, now)) else None
    ensures from != to && to.ip != 0 ==> RemoveRequest(AddRequest(t, tid, to, now), tid, from, later, timeout).1 == None
  {
    MatchesIff(Inflight(to, now), to);
    MatchesIff(Inflight(to, now), from);
  }

  /** At the socket: the reply of whom was asked is passed on the first time, and only the first time. */
  method AskAndHear(socket: KrpcSocket, to: Addr, now: nat, later: nat) returns (first: bool, second: bool)
    requires socket.Valid() && to.port != 0 && now <= later < now + socket.inflightRequests.timeout
    requires forall tid <- socket.inflightRequests.requests :: socket.inflightRequests.requests[tid].sentAt <= now
    modifies socket, socket.inflightRequests
    ensures first && !second
  {
    var tid := socket.Request(to, now);
    ghost var asked, timeout := socket.inflightRequests.requests, socket.inflightRequests.timeout;
    first := socket.RecvFrom(ReplyPacket(tid), to, later);
    assert tid in asked && asked[tid] == Inflight(to, now);
    ghost var left := socket.inflightRequests.requests;
    assert Live(left, later, timeout) == Live(asked, later, timeout) - {tid};
    assert tid !in Live(left, later, timeout);
    second := HearAgain(socket, tid, to, later);
  }

  method HearAgain(socket: KrpcSocket, tid: nat, to: Addr, now: nat) returns (accepted: bool)
    requires socket.Valid()
    requires tid !in Live(socket.inflightRequests.requests, now, socket.inflightRequests.timeout)
    requires forall tid <- socket.inflightRequests.requests :: socket.inflightRequests.requests[tid].sentAt <= now
    modifies socket, socket.inflightRequests
    ensures !accepted
  {
    accepted := socket.RecvFrom(ReplyPacket(tid), to, now);
  }

  // === Old requests ===

  /** A cleanup leaves exactly the requests younger than the timeout. */
  lemma CleanedUpIs(t: Table, now: nat, timeout: nat, tid: nat)
    ensures tid in CleanedUp(t, now, timeout) <==> tid in t && now < t[tid].sentAt + timeout
    ensures tid in CleanedUp(t, now, timeout) ==> CleanedUp(t, now, timeout)[tid] == t[tid]
  {
  }
}
