/** What readers get from the server after a write, for each of its stores, and why a write is refused. */
module ReadBack {
  import opened Ids
  import opened Nodes
  import opened Options
  import opened Lru
  import opened Tokens
  import opened Peers
  import opened Mutable
  import opened Servers
  import opened ServerTokens

  // === Immutable values ===

  /** An immutable value that was acknowledged is what the next reader of its target gets. */
  lemma ImmutableReadsBack(rules: Rules, s: ServerState, put: Call, get: Call)
    requires Sound(rules, s) && put.request.PutImmutable? && ChunkFits(s.peers, put)
    requires Handle(rules, s, put).1 == Some(PingReply)
    requires get.allowed && get.request == GetValue(put.request.target, None)
    ensures var reply := Handle(rules, Handle(rules, s, put).0, get).1;
            reply.Some? && reply.value.ImmutableReply? && reply.value.v == put.request.v
            && reply.value.nodes == get.nodes
  {
    PutKeeps(s.immutables, put.request.target, put.request.v);
  }

  /** It is acknowledged exactly when its sender has a token and it is small enough and hashes to its target. */
  lemma ImmutableAcknowledgedIff(rules: Rules, s: ServerState, call: Call)
    requires call.allowed && call.request.PutImmutable? && ChunkFits(s.peers, call)
    ensures var r := call.request;
            var ok := Validates(rules.hash, BeforeRequest(s.tokens, ToRequest(call)), call.from.ip, r.token);
            var (after, reply) := Handle(rules, s, call);
            && (reply == Some(PingReply) <==> ok && |r.v| <= 1000 && rules.crypto.sha1(Hashable(r.v)) == r.target)
            && (reply != Some(PingReply) ==>
                  after.immutables == s.immutables
                  && reply == Some(ErrorReply(if ok && |r.v| > 1000 then 205 else 203)))
  {
  }

  /** A write to one target disturbs no other that stays cached. */
  lemma OtherImmutablesStay(rules: Rules, s: ServerState, call: Call, target: Id)
    requires Sound(rules, s) && ChunkFits(s.peers, call)
    requires call.request.PutImmutable? ==> call.request.target != target
    ensures var after := Handle(rules, s, call).0.immutables;
            Contains(after, target) ==> Peek(after, target) == Peek(s.immutables, target)
  {
    match call.request {
      case GetValue(t, sequence) => TouchKeeps(s.immutables, t);
      case PutImmutable(given, t, v) => PutKeeps(s.immutables, t, v);
      case _ =>
    }
  }

  // === Mutable items ===

  /** A reader who names a seq gets only a newer item, and otherwise learns how new the stored one is. */
  lemma NewerItemIsSent(rules: Rules, s: ServerState, get: Call)
    requires get.allowed && get.request.GetValue? && ChunkFits(s.peers, get)
    requires get.request.sequence.None? ==> !Contains(s.immutables, get.request.target)
    ensures var stored, reply := Peek(s.mutables, get.request.target), Handle(rules, s, get).1;
            && reply.Some?
            && (reply.value.NoValuesReply? <==> stored.None?)
            && (stored.Some? ==>
                  var newer := get.request.sequence.None? || get.request.sequence.value < stored.value.sequence;
                  if newer then
                    reply.value.MutableReply? && reply.value.v == stored.value.value
                    && reply.value.k == stored.value.key && reply.value.sequence == stored.value.sequence
                    && reply.value.sig == stored.value.signature
                  else reply.value.NoMoreRecentReply? && reply.value.sequence == stored.value.sequence)
  {
  }

  /** What a reader gets passes the reader's own check, whatever was written before. */
  lemma ReaderCanVerify(rules: Rules, s: ServerState, get: Call)
    requires Sound(rules, s) && get.allowed && get.request.GetValue? && ChunkFits(s.peers, get)
    ensures var reply, target := Handle(rules, s, get).1, get.request.target;
            && (reply.value.ImmutableReply? ==> ValidateImmutable(rules.crypto, reply.value.v, target))
            && (reply.value.MutableReply? ==>
                  exists salt :: rules.crypto.verify(reply.value.k,
                                                     Signable(reply.value.sequence, reply.value.v, salt),
                                                     reply.value.sig))
  {
    var reply, target := Handle(rules, s, get).1, get.request.target;
    if reply.value.ImmutableReply? {
      var i := IndexOf(s.immutables.entries, target);
      assert s.immutables.entries[i] in s.immutables.entries;
    }
    if reply.value.MutableReply? {
      var i := IndexOf(s.mutables.entries, target);
      assert s.mutables.entries[i] in s.mutables.entries;
      var item := s.mutables.entries[i].value;
      assert rules.crypto.verify(item.key, Signable(item.sequence, item.value, item.salt), item.signature);
    }
  }

  /** Why a mutable put is refused: the first of these that applies, and nothing else. */
  lemma MutableRefusals(crypto: Crypto, c: Cache<Id, MutableItem>, r: PutMutable)
    ensures var reply, stored := PutMutableStep(crypto, c, r).1, Peek(c, r.target);
            var large, salted := |r.v| > 1000, r.salt.Some? && |r.salt.value| > 64;
            var stale := stored.Some? && r.cas.Some? && r.cas.value != stored.value.sequence;
            var older := stored.Some? && r.sequence < stored.value.sequence;
            && (reply == ErrorReply(205) <==> large)
            && (reply == ErrorReply(207) <==> !large && salted)
            && (reply == ErrorReply(301) <==> !large && !salted && stale)
            && (reply == ErrorReply(302) <==> !large && !salted && !stale && older)
            && (reply == ErrorReply(206) <==>
                  !large && !salted && !stale && !older
                  && !crypto.verify(r.k, Signable(r.sequence, r.v, r.salt), r.sig))
            && (reply.ErrorReply? || reply == PingReply)
  {
  }

  // === Peers ===

  /** The address under which an announcing peer is stored: its own, or its IP with the port it names. */
  function Announced(call: Call): Addr
    requires call.request.AnnouncePeer?
  {
    match call.request.impliedPort
    case Some(true) => call.from
    case _ => Addr(call.from.ip, call.request.port)
  }

  /** A peer that was acknowledged is stored under its id, and while there are fewer than ten every reader gets it. */
  lemma PeerReadsBack(rules: Rules, s: ServerState, put: Call, get: Call)
    requires Sound(rules, s) && put.request.AnnouncePeer? && rules.maxPeers > 0 && ChunkFits(s.peers, put)
    requires forall e <- s.peers.entries :: Lru.Valid(e.value) && e.value.capacity == rules.maxPeers
    requires Handle(rules, s, put).1 == Some(PingReply)
    requires get.allowed && get.request == GetPeers(put.request.infoHash)
    requires ChunkFits(Handle(rules, s, put).0.peers, get)
    ensures var peers := Peek(Handle(rules, s, put).0.peers, put.request.infoHash);
            && peers.Some? && Peek(peers.value, put.requesterId) == Some(Announced(put))
            && (|peers.value.entries| < 10 ==>
                  var reply := Handle(rules, Handle(rules, s, put).0, get).1;
                  reply.Some? && reply.value.GetPeersReply? && Announced(put) in reply.value.values)
  {
    hide Validates, BeforeRequest;
    var infoHash := put.request.infoHash;
    var known := PeersOf(s.peers, infoHash, rules.maxPeers);
    var peers := Put(known, put.requesterId, Announced(put));
    PeersOfValid(s.peers, infoHash, rules.maxPeers);
    PutKeeps(known, put.requesterId, Announced(put));
    PutKeeps(s.peers, infoHash, peers);
    assert peers.entries[0] == Entry(put.requesterId, Announced(put));
    assert Addresses(peers.entries)[0] == Announced(put);
  }

  /** A peer is acknowledged exactly when it brings a token for its IP. */
  lemma PeerAcknowledgedIff(rules: Rules, s: ServerState, call: Call)
    requires call.allowed && call.request.AnnouncePeer? && ChunkFits(s.peers, call)
    ensures Handle(rules, s, call).1 == Some(PingReply)
       <==> Validates(rules.hash, BeforeRequest(s.tokens, ToRequest(call)), call.from.ip, call.request.token)
  {
  }

  // === Everything else ===

  /** A filtered request has no effect and no reply; reads and pings are always answered, with the nodes known. */
  lemma ReadsAreAnswered(rules: Rules, s: ServerState, call: Call)
    requires ChunkFits(s.peers, call)
    ensures !call.allowed ==> Handle(rules, s, call) == (s, None)
    ensures call.allowed ==> Handle(rules, s, call).1.Some?
    ensures call.allowed && call.request.Ping? ==> Handle(rules, s, call).1 == Some(PingReply)
    ensures call.allowed && call.request.FindNode? ==> Handle(rules, s, call).1 == Some(FindNodeReply(call.nodes))
    ensures call.allowed && (call.request.GetPeers? || call.request.GetValue?) ==>
              TokenIn(Handle(rules, s, call).1).Some? && Handle(rules, s, call).1.value.nodes == call.nodes
  {
  }

  /** Where nothing is stored, exactly the well-formed puts are accepted. */
  lemma WellFormedIff(crypto: Crypto, c: Cache<Id, MutableItem>, r: PutMutable)
    requires Peek(c, r.target).None?
    ensures PutMutableStep(crypto, c, r).1 == PingReply <==> WellFormed(crypto, r)
  {
  }

  /** The writes are the requests that bring a token. */
  lemma WritesBringTokens(r: ServerRequest)
    ensures TokenGiven(r).Some? <==> r.AnnouncePeer? || r.PutImmutable? || r.PutMutableItem?
    ensures TokenGiven(r).Some? ==> TokenGiven(r).value == r.token
  {
  }
}
