/** The server side: tokens, stored values, and the seq and cas rules of mutable items (BEP 44). */
module Servers {
  import opened Ids
  import opened Nodes
  import opened Options
  import opened Lru
  import opened Tokens
  import opened Peers
  import opened Mutable

  const MAX_VALUE_SIZE: nat := 1000
  const MAX_SALT_SIZE: nat := 64

  datatype ServerRequest =
    | Ping
    | FindNode(target: Id)
    | GetPeers(infoHash: Id)
    | GetValue(target: Id, sequence: Option<int>)
    | AnnouncePeer(token: Bytes, infoHash: Id, port: bv16, impliedPort: Option<bool>)
    | PutImmutable(token: Bytes, target: Id, v: Bytes)
    | PutMutableItem(token: Bytes, put: PutMutable)

  datatype Reply =
    | PingReply
    | FindNodeReply(nodes: seq<Node>)
    | GetPeersReply(token: Bytes, nodes: seq<Node>, values: seq<Addr>)
    | NoValuesReply(token: Bytes, nodes: seq<Node>)
    | ImmutableReply(token: Bytes, nodes: seq<Node>, v: Bytes)
    | MutableReply(token: Bytes, nodes: seq<Node>, v: Bytes, k: Bytes, sequence: int, sig: Bytes)
    | NoMoreRecentReply(token: Bytes, nodes: seq<Node>, sequence: int)
    | ErrorReply(code: int)

  /**
   * One request as it reaches the server: who sent it and when, whether the filter lets it
   * pass, the random bytes it may consume, and the closest nodes the routing table knows.
   */
  datatype Call = Call(from: Addr, requesterId: Id, now: nat, allowed: bool, secret: Bytes, chunk: Bytes,
                       nodes: seq<Node>, request: ServerRequest)

  datatype Rules = Rules(crypto: Crypto, hash: TokenHash, maxPeers: nat)

  datatype ServerState =
    ServerState(tokens: Secrets, peers: Cache<Id, PeerCache>, immutables: Cache<Id, Bytes>,
                mutables: Cache<Id, MutableItem>)

  // === Mutable items ===

  /** The size, cas, seq and signature checks, in their order; a stored item is promoted once it is looked at. */
  function PutMutableStep(crypto: Crypto, c: Cache<Id, MutableItem>, r: PutMutable): (Cache<Id, MutableItem>, Reply) {
    if |r.v| > MAX_VALUE_SIZE then (c, ErrorReply(205))
    else if r.salt.Some? && |r.salt.value| > MAX_SALT_SIZE then (c, ErrorReply(207))
    else
      var previous := Peek(c, r.target);
      var touched := Touch(c, r.target);
      if previous.Some? && r.cas.Some? && previous.value.sequence != r.cas.value then (touched, ErrorReply(301))
      else if previous.Some? && r.sequence < previous.value.sequence then (touched, ErrorReply(302))
      else
        match FromDhtMessage(crypto, r)
        case Some(item) => (Put(touched, r.target, item), PingReply)
        case None => (touched, ErrorReply(206))
  }

  function GetMutableReply(c: Cache<Id, MutableItem>, target: Id, sequence: Option<int>, token: Bytes,
                           nodes: seq<Node>): Reply {
    match Peek(c, target)
    case None => NoValuesReply(token, nodes)
    case Some(item) =>
      if sequence.Some? && item.sequence <= sequence.value then NoMoreRecentReply(token, nodes, item.sequence)
      else MutableReply(token, nodes, item.value, item.key, item.sequence, item.signature)
  }

  function PutImmutableStep(crypto: Crypto, c: Cache<Id, Bytes>, target: Id, v: Bytes): (Cache<Id, Bytes>, Reply) {
    if |v| > MAX_VALUE_SIZE then (c, ErrorReply(205))
    else if !ValidateImmutable(crypto, v, target) then (c, ErrorReply(203))
    else (Put(c, target, v), PingReply)
  }

  // === One request ===

  // The random bytes are drawn to fit the peers that are sampled.
  predicate ChunkFits(c: Cache<Id, PeerCache>, call: Call) {
    call.request.GetPeers? && Contains(c, call.request.infoHash) ==>
      |call.chunk| == 4 * |Peek(c, call.request.infoHash).value.entries|
  }

  function Handle(rules: Rules, s: ServerState, call: Call): (ServerState, Option<Reply>)
    requires ChunkFits(s.peers, call)
  {
    if !call.allowed then (s, None)
    else
      var s := s.(tokens := BeforeRequest(s.tokens, Request(call.now, call.secret)));
      var token := rules.hash(call.from.ip, s.tokens.curr);
      match call.request
      case Ping => (s, Some(PingReply))
      case FindNode(target) => (s, Some(FindNodeReply(call.nodes)))
      case GetPeers(infoHash) =>
        var answer := Answer(Peek(s.peers, infoHash), call.chunk);
        var s' := s.(peers := Touch(s.peers, infoHash));
        if answer.Some? then (s', Some(GetPeersReply(token, call.nodes, answer.value)))
        else (s', Some(NoValuesReply(token, call.nodes)))
      case GetValue(target, sequence) =>
        if sequence.None? && Contains(s.immutables, target) then
          (s.(immutables := Touch(s.immutables, target)),
           Some(ImmutableReply(token, call.nodes, Peek(s.immutables, target).value)))
        else
          (s.(mutables := Touch(s.mutables, target)),
           Some(GetMutableReply(s.mutables, target, sequence, token, call.nodes)))
      case AnnouncePeer(given, infoHash, port, impliedPort) =>
        if !Validates(rules.hash, s.tokens, call.from.ip, given) then (s, Some(ErrorReply(203)))
        else
          var peer := if impliedPort == Some(true) then call.from else Addr(call.from.ip, port);
          var peers := Put(PeersOf(s.peers, infoHash, rules.maxPeers), call.requesterId, peer);
          (s.(peers := Put(s.peers, infoHash, peers)), Some(PingReply))
      case PutImmutable(given, target, v) =>
        if !Validates(rules.hash, s.tokens, call.from.ip, given) then (s, Some(ErrorReply(203)))
        else
          var (immutables, reply) := PutImmutableStep(rules.crypto, s.immutables, target, v);
          (s.(immutables := immutables), Some(reply))
      case PutMutableItem(given, put) =>
        if !Validates(rules.hash, s.tokens, call.from.ip, given) then (s, Some(ErrorReply(203)))
        else
          var (mutables, reply) := PutMutableStep(rules.crypto, s.mutables, put);
          (s.(mutables := mutables), Some(reply))
  }

  // === Runs ===

  /** The mutable store and the token secrets after a run; the parts other stores play no role in. */
  datatype Core = Core(tokens: Secrets, mutables: Cache<Id, MutableItem>)

  /** What a call does to the mutable store, as uses of the cache. */
  function UsesOf(rules: Rules, core: Core, immutableHit: bool, call: Call): seq<Use<Id, MutableItem>> {
    if !call.allowed then []
    else
      match call.request
      case GetValue(target, sequence) => if sequence.None? && immutableHit then [] else [Got(target)]
      case PutMutableItem(given, put) =>
        var tokens := BeforeRequest(core.tokens, Request(call.now, call.secret));
        if !Validates(rules.hash, tokens, call.from.ip, given) || |put.v| > MAX_VALUE_SIZE
           || (put.salt.Some? && |put.salt.value| > MAX_SALT_SIZE) then []
        else if Accepts(rules.crypto, core.mutables, put) then [Got(put.target), Stored(put.target, ItemOf(put))]
        else [Got(put.target)]
      case _ => []
  }

  /** When a put with a valid token and sizes is accepted. */
  predicate Accepts(crypto: Crypto, c: Cache<Id, MutableItem>, r: PutMutable) {
    var previous := Peek(c, r.target);
    && (previous.Some? ==> r.sequence >= previous.value.sequence
                           && (r.cas.Some? ==> r.cas.value == previous.value.sequence))
    && crypto.verify(r.k, Signable(r.sequence, r.v, r.salt), r.sig)
  }

  /** A call changes the mutable store only through those uses. */
  lemma HandleIsUses(rules: Rules, s: ServerState, call: Call)
    requires ChunkFits(s.peers, call)
    ensures Handle(rules, s, call).0.mutables
         == Run(s.mutables, UsesOf(rules, Core(s.tokens, s.mutables),
              call.request.GetValue? && Contains(s.immutables, call.request.target), call))
  {
    var hit := call.request.GetValue? && Contains(s.immutables, call.request.target);
    var us := UsesOf(rules, Core(s.tokens, s.mutables), hit, call);
    RunShort(s.mutables, us);
    if call.allowed && call.request.PutMutableItem? {
      PutIsUses(rules.crypto, s.mutables, call.request.put);
    }
  }

  /** A put that passes the size checks promotes its target, and stores the item if it is accepted. */
  lemma PutIsUses(crypto: Crypto, c: Cache<Id, MutableItem>, r: PutMutable)
    ensures PutMutableStep(crypto, c, r).0 ==
            if |r.v| > MAX_VALUE_SIZE || (r.salt.Some? && |r.salt.value| > MAX_SALT_SIZE) then c
            else if Accepts(crypto, c, r) then Put(Touch(c, r.target), r.target, ItemOf(r))
            else Touch(c, r.target)
  {
  }

  lemma {:induction false} RunShort<V>(c: Cache<Id, V>, us: seq<Use<Id, V>>)
    ensures us == [] ==> Run(c, us) == c
    ensures |us| == 1 ==> Run(c, us) == Apply(c, us[0])
    ensures |us| == 2 ==> Run(c, us) == Apply(Apply(c, us[0]), us[1])
  {
    if |us| == 1 {
      assert us[..0] == [];
    } else if |us| == 2 {
      assert us[..1][..0] == [];
      assert Run(c, us[..1]) == Apply(c, us[0]);
    }
  }

  // === What is stored ===

  ghost predicate StoredMutable(crypto: Crypto, e: Entry<Id, MutableItem>) {
    && e.key == e.value.target && |e.value.value| <= MAX_VALUE_SIZE
    && (e.value.salt.Some? ==> |e.value.salt.value| <= MAX_SALT_SIZE)
    && crypto.verify(e.value.key, Signable(e.value.sequence, e.value.value, e.value.salt), e.value.signature)
  }

  ghost predicate StoredImmutable(crypto: Crypto, e: Entry<Id, Bytes>) {
    |e.value| <= MAX_VALUE_SIZE && crypto.sha1(Hashable(e.value)) == e.key
  }

  /** Everything in the stores passed its checks. */
  ghost predicate Sound(rules: Rules, s: ServerState) {
    && Lru.Valid(s.peers) && Lru.Valid(s.immutables) && Lru.Valid(s.mutables)
    && (forall e <- s.immutables.entries :: StoredImmutable(rules.crypto, e))
    && (forall e <- s.mutables.entries :: StoredMutable(rules.crypto, e))
  }

  lemma PutMutableKeepsSound(crypto: Crypto, c: Cache<Id, MutableItem>, r: PutMutable)
    requires Lru.Valid(c) && forall e <- c.entries :: StoredMutable(crypto, e)
    ensures var after := PutMutableStep(crypto, c, r).0;
            Lru.Valid(after) && forall e <- after.entries :: StoredMutable(crypto, e)
  {
    TouchKeeps(c, r.target);
    TouchEntries(c, r.target);
    PutKeeps(Touch(c, r.target), r.target, ItemOf(r));
    PutEntries(Touch(c, r.target), r.target, ItemOf(r));
  }

  lemma PutImmutableKeepsSound(crypto: Crypto, c: Cache<Id, Bytes>, target: Id, v: Bytes)
    requires Lru.Valid(c) && forall e <- c.entries :: StoredImmutable(crypto, e)
    ensures var after := PutImmutableStep(crypto, c, target, v).0;
            Lru.Valid(after) && forall e <- after.entries :: StoredImmutable(crypto, e)
  {
    PutKeeps(c, target, v);
    PutEntries(c, target, v);
  }

  /** Every stored value passed its size check and its hash or signature check, after any request. */
  lemma HandleKeepsSound(rules: Rules, s: ServerState, call: Call)
    requires Sound(rules, s) && ChunkFits(s.peers, call)
    ensures Sound(rules, Handle(rules, s, call).0)
  {
    match call.request {
      case GetPeers(infoHash) => TouchKeeps(s.peers, infoHash);
      case GetValue(target, sequence) =>
        TouchKeeps(s.immutables, target);
        TouchEntries(s.immutables, target);
        TouchKeeps(s.mutables, target);
        TouchEntries(s.mutables, target);
      case AnnouncePeer(given, infoHash, port, impliedPort) =>
        var peer := if impliedPort == Some(true) then call.from else Addr(call.from.ip, port);
        PutKeeps(s.peers, infoHash, Put(PeersOf(s.peers, infoHash, rules.maxPeers), call.requesterId, peer));
      case PutImmutable(given, target, v) => PutImmutableKeepsSound(rules.crypto, s.immutables, target, v);
      case PutMutableItem(given, put) => PutMutableKeepsSound(rules.crypto, s.mutables, put);
      case _ =>
    }
  }

  // === Lost updates ===

  /** A put is stored exactly when it is accepted; otherwise every stored item stays as it was. */
  lemma PutMutableOutcome(crypto: Crypto, c: Cache<Id, MutableItem>, r: PutMutable)
    requires Lru.Valid(c) && |r.v| <= MAX_VALUE_SIZE && (r.salt.Some? ==> |r.salt.value| <= MAX_SALT_SIZE)
    ensures var (after, reply) := PutMutableStep(crypto, c, r);
            && (reply == PingReply <==> Accepts(crypto, c, r))
            && (reply == PingReply ==> Peek(after, r.target) == Some(ItemOf(r)))
            && (reply != PingReply ==> forall t :: Peek(after, t) == Peek(c, t))
            && (forall t :: t != r.target && Contains(after, t) ==> Peek(after, t) == Peek(c, t))
  {
    TouchKeeps(c, r.target);
    PutKeeps(Touch(c, r.target), r.target, ItemOf(r));
  }

  /** The stored seq of a target, while it is cached. */
  function SeqOf(c: Cache<Id, MutableItem>, target: Id): Option<int> {
    match Peek(c, target)
    case Some(item) => Some(item.sequence)
    case None => None
  }

  /** The write to `target` that a call makes, if it is accepted. */
  function AcceptedWrite(rules: Rules, s: ServerState, call: Call, target: Id): Option<PutMutable>
    requires ChunkFits(s.peers, call)
  {
    if call.request.PutMutableItem? && call.request.put.target == target
       && Handle(rules, s, call).1 == Some(PingReply) then Some(call.request.put)
    else None
  }

  /** What one request can do to a cached target: nothing, or one accepted write that respects seq and cas. */
  lemma HandleOnTarget(rules: Rules, s: ServerState, call: Call, target: Id)
    requires Sound(rules, s) && ChunkFits(s.peers, call)
    requires Contains(s.mutables, target) && Contains(Handle(rules, s, call).0.mutables, target)
    ensures var after := Handle(rules, s, call).0.mutables;
            var write := AcceptedWrite(rules, s, call, target);
            && (write.None? ==> Peek(after, target) == Peek(s.mutables, target))
            && (write.Some? ==>
                  && Peek(after, target) == Some(ItemOf(write.value))
                  && write.value.sequence >= Peek(s.mutables, target).value.sequence
                  && (write.value.cas.Some? ==> write.value.cas.value == Peek(s.mutables, target).value.sequence))
  {
    match call.request {
      case GetValue(t, sequence) => TouchKeeps(s.mutables, t);
      case PutMutableItem(given, put) =>
        if |put.v| <= MAX_VALUE_SIZE && (put.salt.Some? ==> |put.salt.value| <= MAX_SALT_SIZE) {
          PutMutableOutcome(rules.crypto, s.mutables, put);
        }
      case _ =>
    }
  }

  /** The states of a run: after no call, one call, and so on. */
  ghost predicate IsRun(rules: Rules, states: seq<ServerState>, calls: seq<Call>) {
    && |states| == |calls| + 1
    && forall i :: 0 <= i < |calls| ==>
         ChunkFits(states[i].peers, calls[i]) && states[i + 1] == Handle(rules, states[i], calls[i]).0
  }

  ghost predicate StaysCached(states: seq<ServerState>, target: Id) {
    forall i :: 0 <= i < |states| ==> Contains(states[i].mutables, target)
  }

  /** The accepted writes to a target along a run, in order. */
  ghost function Writes(rules: Rules, states: seq<ServerState>, calls: seq<Call>, target: Id): seq<PutMutable>
    requires IsRun(rules, states, calls)
    decreases |calls|
  {
    if calls == [] then []
    else
      var n := |calls| - 1;
      assert IsRun(rules, states[..n + 1], calls[..n]);
      var last := AcceptedWrite(rules, states[n], calls[n], target);
      Writes(rules, states[..n + 1], calls[..n], target) + if last.Some? then [last.value] else []
  }

  lemma {:induction false} RunKeepsSound(rules: Rules, states: seq<ServerState>, calls: seq<Call>)
    requires IsRun(rules, states, calls) && Sound(rules, states[0])
    ensures Sound(rules, states[|calls|])
    decreases |calls|
  {
    if calls != [] {
      var n := |calls| - 1;
      assert IsRun(rules, states[..n + 1], calls[..n]);
      RunKeepsSound(rules, states[..n + 1], calls[..n]);
      HandleKeepsSound(rules, states[n], calls[n]);
    }
  }

  /** While a target stays cached, its stored seq never decreases. */
  lemma {:induction false} SeqNeverDecreases(rules: Rules, states: seq<ServerState>, calls: seq<Call>, target: Id)
    requires IsRun(rules, states, calls) && Sound(rules, states[0]) && StaysCached(states, target)
    ensures SeqOf(states[|calls|].mutables, target).value >= SeqOf(states[0].mutables, target).value
    decreases |calls|
  {
    if calls != [] {
      var n := |calls| - 1;
      var prefix := states[..n + 1];
      assert IsRun(rules, prefix, calls[..n]) && StaysCached(prefix, target);
      SeqNeverDecreases(rules, prefix, calls[..n], target);
      RunKeepsSound(rules, prefix, calls[..n]);
      assert states[n + 1] == Handle(rules, states[n], calls[n]).0;
      assert Contains(states[n + 1].mutables, target);
      HandleOnTarget(rules, states[n], calls[n], target);
    }
  }

  /** The write at `i` names the version that it overwrites: the start, or what the write before it left. */
  ghost predicate Follows(start: int, writes: seq<PutMutable>, i: nat)
    requires i < |writes|
  {
    if i == 0 then writes[i].cas == Some(start) else writes[i].cas == Some(writes[i - 1].sequence)
  }

  /** Each write overwrote exactly the version that its cas names. */
  ghost predicate Chain(start: int, writes: seq<PutMutable>) {
    forall i :: 0 <= i < |writes| ==> Follows(start, writes, i)
  }

  /** Every writer to the target names the version it read and writes a later one. */
  ghost predicate Disciplined(calls: seq<Call>, target: Id) {
    forall i :: 0 <= i < |calls| && calls[i].request.PutMutableItem? && calls[i].request.put.target == target ==>
      calls[i].request.put.cas.Some? && calls[i].request.put.sequence > calls[i].request.put.cas.value
  }

  /** No version is written twice, so that a version names one write. */
  ghost predicate Rising(start: int, writes: seq<PutMutable>) {
    forall i :: 0 <= i < |writes| ==> Rises(start, writes, i)
  }

  ghost predicate Rises(start: int, writes: seq<PutMutable>, i: nat)
    requires i < |writes|
  {
    writes[i].sequence > if i == 0 then start else writes[i - 1].sequence
  }

  /** From `first` to `last`, the writes form one chain of rising versions with nothing in between. */
  ghost predicate NothingLost(first: MutableItem, last: MutableItem, writes: seq<PutMutable>) {
    && Chain(first.sequence, writes) && Rising(first.sequence, writes)
    && last == if writes == [] then first else ItemOf(writes[|writes| - 1])
  }

  lemma NothingLostGrows(first: MutableItem, last: MutableItem, writes: seq<PutMutable>, w: PutMutable)
    requires NothingLost(first, last, writes)
    requires w.cas == Some(last.sequence) && w.sequence > last.sequence
    ensures NothingLost(first, ItemOf(w), writes + [w])
  {
    var more := writes + [w];
    forall i | 0 <= i < |more|
      ensures Follows(first.sequence, more, i)
      ensures Rises(first.sequence, more, i)
    {
      if i < |writes| {
        assert Follows(first.sequence, writes, i) && Rises(first.sequence, writes, i) && more[i] == writes[i];
        assert i > 0 ==> more[i - 1] == writes[i - 1];
      } else if i > 0 {
        assert more[i - 1] == writes[i - 1];
      }
    }
  }

  /** One more call: the shorter run, and the write it adds if any. */
  lemma {:induction false} LastCall(rules: Rules, states: seq<ServerState>, calls: seq<Call>, target: Id)
    requires IsRun(rules, states, calls) && Sound(rules, states[0]) && StaysCached(states, target) && calls != []
    ensures var n := |calls| - 1;
            && IsRun(rules, states[..n + 1], calls[..n]) && StaysCached(states[..n + 1], target)
            && Peek(states[0].mutables, target).Some?
            && Peek(states[n].mutables, target).Some? && Peek(states[n + 1].mutables, target).Some?
            && var write := AcceptedWrite(rules, states[n], calls[n], target);
               var before := Writes(rules, states[..n + 1], calls[..n], target);
               && Writes(rules, states, calls, target) == (if write.Some? then before + [write.value] else before)
               && (write.None? ==> Peek(states[n + 1].mutables, target) == Peek(states[n].mutables, target))
               && (write.Some? ==>
                     && Peek(states[n + 1].mutables, target) == Some(ItemOf(write.value))
                     && calls[n].request.PutMutableItem? && calls[n].request.put == write.value
                     && write.value.target == target
                     && (write.value.cas.Some? ==>
                           write.value.cas.value == Peek(states[n].mutables, target).value.sequence))
  {
    hide Handle, Sound;
    var n := |calls| - 1;
    assert IsRun(rules, states[..n + 1], calls[..n]);
    RunKeepsSound(rules, states[..n + 1], calls[..n]);
    assert states[n + 1] == Handle(rules, states[n], calls[n]).0;
    HandleOnTarget(rules, states[n], calls[n], target);
  }

  /**
   * If every writer names the version it read and writes a later one, no update is lost: the
   * accepted writes form one chain of rising versions, each over exactly the version its cas
   * names, and the final item is the last of them.
   */
  lemma {:induction false} NoLostUpdates(rules: Rules, states: seq<ServerState>, calls: seq<Call>, target: Id)
    requires IsRun(rules, states, calls) && Sound(rules, states[0])
    requires StaysCached(states, target) && Disciplined(calls, target)
    ensures NothingLost(Peek(states[0].mutables, target).value, Peek(states[|calls|].mutables, target).value,
                        Writes(rules, states, calls, target))
    decreases |calls|
  {
    hide NothingLost, Handle, Sound;
    if calls == [] {
      NothingLostYet(Peek(states[0].mutables, target).value);
    } else {
      var n := |calls| - 1;
      LastCall(rules, states, calls, target);
      hide Contains, Peek, AcceptedWrite;
      assert states[..n + 1][0] == states[0] && states[..n + 1][n] == states[n];
      assert Disciplined(calls[..n], target);
      NoLostUpdates(rules, states[..n + 1], calls[..n], target);
      NothingLostInLast(rules, states, calls, target);
    }
  }

  lemma NothingLostYet(first: MutableItem)
    ensures NothingLost(first, first, [])
  {
  }

  lemma {:induction false} NothingLostInLast(rules: Rules, states: seq<ServerState>, calls: seq<Call>, target: Id)
    requires IsRun(rules, states, calls) && Sound(rules, states[0]) && calls != []
    requires StaysCached(states, target) && Disciplined(calls, target)
    requires IsRun(rules, states[..|calls|], calls[..|calls| - 1])
    requires NothingLost(Peek(states[0].mutables, target).value, Peek(states[|calls| - 1].mutables, target).value,
                         Writes(rules, states[..|calls|], calls[..|calls| - 1], target))
    ensures NothingLost(Peek(states[0].mutables, target).value, Peek(states[|calls|].mutables, target).value,
                        Writes(rules, states, calls, target))
  {
    hide NothingLost, Handle, Sound, AcceptedWrite, Peek, Contains, Writes, StaysCached, ItemOf;
    var n := |calls| - 1;
    LastCall(rules, states, calls, target);
    LastLink(Peek(states[0].mutables, target).value, Peek(states[n].mutables, target).value,
             Peek(states[n + 1].mutables, target).value, Writes(rules, states[..n + 1], calls[..n], target),
             AcceptedWrite(rules, states[n], calls[n], target));
  }

  lemma LastLink(first: MutableItem, before: MutableItem, after: MutableItem, writes: seq<PutMutable>,
                 write: Option<PutMutable>)
    requires NothingLost(first, before, writes)
    requires write.None? ==> after == before
    requires write.Some? ==> after == ItemOf(write.value) && write.value.sequence > before.sequence
    requires write.Some? ==> write.value.cas == Some(before.sequence)
    ensures NothingLost(first, after, if write.Some? then writes + [write.value] else writes)
  {
    if write.Some? {
      NothingLostGrows(first, before, writes, write.value);
    }
  }

  /** A write that passes its size and signature checks. */
  predicate WellFormed(crypto: Crypto, r: PutMutable) {
    && |r.v| <= MAX_VALUE_SIZE && (r.salt.Some? ==> |r.salt.value| <= MAX_SALT_SIZE)
    && crypto.verify(r.k, Signable(r.sequence, r.v, r.salt), r.sig)
  }

  /**
   * After an accepted write, a second one replaces it exactly when its seq is at least the
   * first's and its cas is absent or names the first; otherwise the first stays.
   */
  lemma SecondReplacesIff(crypto: Crypto, c: Cache<Id, MutableItem>, first: PutMutable, second: PutMutable)
    requires Lru.Valid(c) && first.target == second.target && WellFormed(crypto, first) && WellFormed(crypto, second)
    requires Accepts(crypto, c, first)
    ensures var (after, reply) := PutMutableStep(crypto, PutMutableStep(crypto, c, first).0, second);
            && (reply == PingReply <==>
                  second.sequence >= first.sequence && (second.cas.Some? ==> second.cas.value == first.sequence))
            && Peek(after, first.target) == Some(ItemOf(if reply == PingReply then second else first))
  {
    PutMutableOutcome(crypto, c, first);
    PutMutableKeeps(crypto, c, first);
    PutMutableOutcome(crypto, PutMutableStep(crypto, c, first).0, second);
  }

  /**
   * Two writers who read one version, and whose writes would each be accepted: when both name it,
   * the first write is lost exactly when it did not move the seq on, that is when its seq equals its cas.
   */
  lemma FirstIsLostIff(crypto: Crypto, c: Cache<Id, MutableItem>, read: MutableItem, first: PutMutable,
                       second: PutMutable)
    requires Lru.Valid(c) && first.target == second.target && WellFormed(crypto, first) && WellFormed(crypto, second)
    requires Peek(c, first.target) == Some(read) && first.cas == second.cas == Some(read.sequence)
    requires Accepts(crypto, c, first) && Accepts(crypto, c, second)
    ensures var (after, reply) := PutMutableStep(crypto, PutMutableStep(crypto, c, first).0, second);
            Peek(after, first.target) == Some(ItemOf(second)) && reply == PingReply
            <==> first.sequence == first.cas.value
  {
    SecondReplacesIff(crypto, c, first, second);
  }

  lemma PutMutableKeeps(crypto: Crypto, c: Cache<Id, MutableItem>, r: PutMutable)
    requires Lru.Valid(c)
    ensures Lru.Valid(PutMutableStep(crypto, c, r).0)
  {
    TouchKeeps(c, r.target);
    PutKeeps(Touch(c, r.target), r.target, ItemOf(r));
  }

  // === Eviction ===

  /** The uses of the mutable store along a run. */
  ghost function UsesAlong(rules: Rules, states: seq<ServerState>, calls: seq<Call>): seq<Use<Id, MutableItem>>
    requires IsRun(rules, states, calls)
    decreases |calls|
  {
    if calls == [] then []
    else
      var n := |calls| - 1;
      assert IsRun(rules, states[..n + 1], calls[..n]);
      UsesAlong(rules, states[..n + 1], calls[..n])
      + UsesOf(rules, Core(states[n].tokens, states[n].mutables),
               calls[n].request.GetValue? && Contains(states[n].immutables, calls[n].request.target), calls[n])
  }

  lemma {:induction false} RunAppend<V>(c: Cache<Id, V>, us: seq<Use<Id, V>>, more: seq<Use<Id, V>>)
    ensures Run(c, us + more) == Run(Run(c, us), more)
  {
    if more == [] {
      assert us + more == us;
    } else {
      assert (us + more)[..|us + more| - 1] == us + more[..|more| - 1];
      RunAppend(c, us, more[..|more| - 1]);
    }
  }

  lemma {:induction false} RunIsUses(rules: Rules, states: seq<ServerState>, calls: seq<Call>)
    requires IsRun(rules, states, calls)
    ensures states[|calls|].mutables == Run(states[0].mutables, UsesAlong(rules, states, calls))
    decreases |calls|
  {
    if calls != [] {
      var n := |calls| - 1;
      assert IsRun(rules, states[..n + 1], calls[..n]);
      RunIsUses(rules, states[..n + 1], calls[..n]);
      HandleIsUses(rules, states[n], calls[n]);
      RunAppend(states[0].mutables, UsesAlong(rules, states[..n + 1], calls[..n]),
                UsesOf(rules, Core(states[n].tokens, states[n].mutables),
                       calls[n].request.GetValue? && Contains(states[n].immutables, calls[n].request.target),
                       calls[n]));
    }
  }

  /**
   * A mutable item that was just used leaves the store, without being used again, only after
   * as many distinct other targets as the capacity were read or written.
   */
  lemma {:induction false} ItemLeavesOnlyWhenOutnumbered(rules: Rules, states: seq<ServerState>, calls: seq<Call>,
                                                         target: Id)
    requires IsRun(rules, states, calls) && Lru.Valid(states[0].mutables)
    requires Contains(states[0].mutables, target) && states[0].mutables.entries[0].key == target
    requires target !in KeysOf(UsesAlong(rules, states, calls))
    ensures !Contains(states[|calls|].mutables, target)
        ==> |KeysOf(UsesAlong(rules, states, calls))| >= states[0].mutables.capacity
  {
    RunIsUses(rules, states, calls);
    LeavesOnlyWhenOutnumbered(states[0].mutables, UsesAlong(rules, states, calls), target);
  }

  // === Reading back ===

  /** Right after an accepted write, a reader who does not know a newer seq gets exactly what was written. */
  lemma ReadsBackWhatWasPut(rules: Rules, s: ServerState, put: Call, get: Call)
    requires Sound(rules, s) && put.allowed && put.request.PutMutableItem? && ChunkFits(s.peers, put)
    requires Handle(rules, s, put).1 == Some(PingReply)
    requires get.allowed && get.request.GetValue? && get.request.target == put.request.put.target
    requires get.request.sequence.Some? ==> get.request.sequence.value < put.request.put.sequence
    requires get.request.sequence.None? ==> !Contains(s.immutables, get.request.target)
    ensures var r := put.request.put;
            var reply := Handle(rules, Handle(rules, s, put).0, get).1;
            && reply.Some? && reply.value.MutableReply?
            && reply.value.v == r.v && reply.value.k == r.k
            && reply.value.sequence == r.sequence && reply.value.sig == r.sig
  {
    var r := put.request.put;
    if |r.v| <= MAX_VALUE_SIZE && (r.salt.Some? ==> |r.salt.value| <= MAX_SALT_SIZE) {
      PutMutableOutcome(rules.crypto, s.mutables, r);
    }
  }

  /** The stores change only for a writer with a token that is valid for its IP. */
  lemma WritesNeedAToken(rules: Rules, s: ServerState, call: Call, given: Bytes)
    requires Sound(rules, s) && ChunkFits(s.peers, call)
    requires call.request.AnnouncePeer? || call.request.PutImmutable? || call.request.PutMutableItem?
    requires given == call.request.token
    ensures var (after, reply) := Handle(rules, s, call);
            !Validates(rules.hash, BeforeRequest(s.tokens, Request(call.now, call.secret)), call.from.ip, given) ==>
              after.peers == s.peers && after.immutables == s.immutables && after.mutables == s.mutables
              && (call.allowed ==> reply == Some(ErrorReply(203)))
  {
  }

  // === The server as an object ===

  class Server {
    const crypto: Crypto
    const tokens: Tokens
    const peers: PeersStore
    var immutableValues: Cache<Id, Bytes>
    var mutableValues: Cache<Id, MutableItem>

    ghost function State(): ServerState
      reads this, tokens, peers
    {
      ServerState(tokens.State(), peers.infoHashes, immutableValues, mutableValues)
    }

    ghost function TheRules(): Rules { Rules(crypto, tokens.hash, peers.maxPeers) }

    ghost predicate Valid()
      reads this, tokens, peers
    {
      peers.Valid() && Sound(TheRules(), State())
    }

    constructor (crypto: Crypto, hash: TokenHash, prev: Bytes, curr: Bytes, now: nat,
                 maxInfoHashes: nat, maxPeers: nat, maxImmutable: nat, maxMutable: nat)
      requires maxInfoHashes > 0 && maxPeers > 0 && maxImmutable > 0 && maxMutable > 0
      ensures Valid() && fresh(tokens) && fresh(peers)
      ensures State() == ServerState(Secrets(prev, curr, now), Cache(maxInfoHashes, []),
                                     Cache(maxImmutable, []), Cache(maxMutable, []))
    {
      this.crypto := crypto;
      tokens := new Tokens(hash, prev, curr, now);
      peers := new PeersStore(maxInfoHashes, maxPeers);
      immutableValues, mutableValues := Cache(maxImmutable, []), Cache(maxMutable, []);
    }

    method HandleRequest(call: Call) returns (reply: Option<Reply>)
      requires Valid() && ChunkFits(State().peers, call)
      modifies this, tokens, peers
      ensures Valid() && (State(), reply) == Handle(TheRules(), old(State()), call)
    {
      HandleKeepsSound(TheRules(), State(), call);
      reply := Dispatch(call);
    }

    method Dispatch(call: Call) returns (reply: Option<Reply>)
      requires peers.Valid() && ChunkFits(State().peers, call)
      modifies this, tokens, peers
      ensures peers.Valid() && (State(), reply) == Handle(TheRules(), old(State()), call)
    {
      if !call.allowed {
        return None;
      }
      tokens.RotateIfDue(call.secret, call.now);
      match call.request {
        case Ping =>
          return Some(PingReply);
        case FindNode(target) =>
          return Some(FindNodeReply(call.nodes));
        case GetPeers(infoHash) =>
          var found := peers.GetRandomPeers(infoHash, call.chunk);
          var token := tokens.GenerateToken(call.from.ip);
          return Some(if found.Some? then GetPeersReply(token, call.nodes, found.value)
                      else NoValuesReply(token, call.nodes));
        case GetValue(target, sequence) =>
          var token := tokens.GenerateToken(call.from.ip);
          reply := HandleGetValue(token, call.nodes, target, sequence);
        case AnnouncePeer(given, infoHash, port, impliedPort) =>
          var ok := tokens.Validate(call.from.ip, given);
          if !ok {
            return Some(ErrorReply(203));
          }
          var peer := if impliedPort == Some(true) then call.from else Addr(call.from.ip, port);
          peers.AddPeer(infoHash, call.requesterId, peer);
          return Some(PingReply);
        case PutImmutable(given, target, v) =>
          var ok := tokens.Validate(call.from.ip, given);
          if !ok {
            return Some(ErrorReply(203));
          }
          reply := HandlePutImmutable(target, v);
        case PutMutableItem(given, put) =>
          var ok := tokens.Validate(call.from.ip, given);
          if !ok {
            return Some(ErrorReply(203));
          }
          reply := HandlePutMutable(put);
      }
    }

    method HandlePutImmutable(target: Id, v: Bytes) returns (reply: Option<Reply>)
      modifies this`immutableValues
      ensures (immutableValues, reply) ==
              (PutImmutableStep(crypto, old(immutableValues), target, v).0,
               Some(PutImmutableStep(crypto, old(immutableValues), target, v).1))
    {
      if |v| > MAX_VALUE_SIZE {
        return Some(ErrorReply(205));
      }
      if !ValidateImmutable(crypto, v, target) {
        return Some(ErrorReply(203));
      }
      immutableValues := Put(immutableValues, target, v);
      return Some(PingReply);
    }

    /** Immutable values come first, unless the reader names a seq. */
    method HandleGetValue(token: Bytes, nodes: seq<Node>, target: Id, sequence: Option<int>)
      returns (reply: Option<Reply>)
      modifies this`immutableValues, this`mutableValues
      ensures var hit := sequence.None? && Contains(old(immutableValues), target);
              && immutableValues == (if hit then Touch(old(immutableValues), target) else old(immutableValues))
              && mutableValues == (if hit then old(mutableValues) else Touch(old(mutableValues), target))
              && reply == Some(if hit then ImmutableReply(token, nodes, Peek(old(immutableValues), target).value)
                               else GetMutableReply(old(mutableValues), target, sequence, token, nodes))
    {
      if sequence.None? {
        var v := Peek(immutableValues, target);
        immutableValues := Touch(immutableValues, target);
        if v.Some? {
          return Some(ImmutableReply(token, nodes, v.value));
        }
      }
      reply := HandleGetMutable(token, nodes, target, sequence);
    }

    method HandleGetMutable(token: Bytes, nodes: seq<Node>, target: Id, sequence: Option<int>)
      returns (reply: Option<Reply>)
      modifies this`mutableValues
      ensures mutableValues == Touch(old(mutableValues), target)
      ensures reply == Some(GetMutableReply(old(mutableValues), target, sequence, token, nodes))
    {
      var found := Peek(mutableValues, target);
      mutableValues := Touch(mutableValues, target);
      if found.None? {
        return Some(NoValuesReply(token, nodes));
      }
      var item := found.value;
      if sequence.Some? && item.sequence <= sequence.value {
        return Some(NoMoreRecentReply(token, nodes, item.sequence));
      }
      return Some(MutableReply(token, nodes, item.value, item.key, item.sequence, item.signature));
    }

    method HandlePutMutable(put: PutMutable) returns (reply: Option<Reply>)
      modifies this`mutableValues
      ensures (mutableValues, reply) ==
              (PutMutableStep(crypto, old(mutableValues), put).0,
               Some(PutMutableStep(crypto, old(mutableValues), put).1))
    {
      if |put.v| > MAX_VALUE_SIZE {
        return Some(ErrorReply(205));
      }
      if put.salt.Some? && |put.salt.value| > MAX_SALT_SIZE {
        return Some(ErrorReply(207));
      }
      var previous := Peek(mutableValues, put.target);
      mutableValues := Touch(mutableValues, put.target);
      if previous.Some? {
        if put.cas.Some? && previous.value.sequence != put.cas.value {
          return Some(ErrorReply(301));
        }
        if put.sequence < previous.value.sequence {
          return Some(ErrorReply(302));
        }
      }
      var item := FromDhtMessage(crypto, put);
      if item.None? {
        return Some(ErrorReply(206));
      }
      mutableValues := Put(mutableValues, put.target, item.value);
      return Some(PingReply);
    }
  }
}
