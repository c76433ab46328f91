/** How long the server accepts the tokens it hands out, over whole runs of requests. */
module ServerTokens {
  import opened Ids
  import opened Nodes
  import opened Options
  import opened Tokens
  import opened Servers

  /** The token in a reply, if it carries one. */
  function TokenIn(reply: Option<Reply>): Option<Bytes> {
    match reply
    case Some(GetPeersReply(token, _, _)) => Some(token)
    case Some(NoValuesReply(token, _)) => Some(token)
    case Some(ImmutableReply(token, _, _)) => Some(token)
    case Some(MutableReply(token, _, _, _, _, _)) => Some(token)
    case Some(NoMoreRecentReply(token, _, _)) => Some(token)
    case _ => None
  }

  /** The token that a write brings along. */
  function TokenGiven(r: ServerRequest): Option<Bytes> {
    match r
    case AnnouncePeer(token, _, _, _) => Some(token)
    case PutImmutable(token, _, _) => Some(token)
    case PutMutableItem(token, _) => Some(token)
    case _ => None
  }

  function ToRequest(call: Call): Request { Request(call.now, call.secret) }

  /** The requests of a run that pass the filter: only they can rotate the secrets. */
  function Passing(calls: seq<Call>): seq<Request> {
    if calls == [] then []
    else
      var last := calls[|calls| - 1];
      Passing(calls[..|calls| - 1]) + if last.allowed then [ToRequest(last)] else []
  }

  lemma HandleTokens(rules: Rules, s: ServerState, call: Call)
    requires ChunkFits(s.peers, call)
    ensures var (after, reply) := Handle(rules, s, call);
            && after.tokens == (if call.allowed then BeforeRequest(s.tokens, ToRequest(call)) else s.tokens)
            && (TokenIn(reply).Some? ==>
                  call.allowed && TokenIn(reply).value == rules.hash(call.from.ip, after.tokens.curr))
  {
    hide BeforeRequest, Validates;
  }

  /** The secrets after a run are those after its passing requests. */
  lemma {:induction false} SecretsAlong(rules: Rules, states: seq<ServerState>, calls: seq<Call>)
    requires IsRun(rules, states, calls)
    ensures states[|calls|].tokens == After(states[0].tokens, Passing(calls))
    decreases |calls|
  {
    if calls != [] {
      hide Handle, BeforeRequest, ChunkFits;
      var n := |calls| - 1;
      var init := Passing(calls[..n]);
      assert IsRun(rules, states[..n + 1], calls[..n]);
      SecretsAlong(rules, states[..n + 1], calls[..n]);
      HandleTokens(rules, states[n], calls[n]);
      assert states[n + 1] == Handle(rules, states[n], calls[n]).0;
      assert calls[n].allowed ==> (init + [ToRequest(calls[n])])[..|init|] == init;
      assert init + [] == init;
    }
  }

  lemma {:induction false} PassingWithin(calls: seq<Call>, from: nat, to: nat)
    requires forall i :: 0 <= i < |calls| ==> from <= calls[i].now <= to
    ensures Within(Passing(calls), from, to)
  {
    if calls != [] {
      PassingWithin(calls[..|calls| - 1], from, to);
    }
  }

  /** What a write comes to when its token is accepted: only the checks of its own store can turn it down. */
  ghost predicate PassesTokenCheck(rules: Rules, s: ServerState, call: Call)
    requires ChunkFits(s.peers, call)
  {
    var reply := Handle(rules, s, call).1;
    match call.request
    case AnnouncePeer(_, _, _, _) => reply == Some(PingReply)
    case PutImmutable(_, target, v) => reply == Some(PutImmutableStep(rules.crypto, s.immutables, target, v).1)
    case PutMutableItem(_, put) => reply == Some(PutMutableStep(rules.crypto, s.mutables, put).1)
    case _ => true
  }

  /**
   * Whoever got a token in any reply can write with it from the same IP to any store for the whole
   * rotation interval, whatever else the server is asked meanwhile, filtered requests included.
   */
  lemma TokenInReplyIsAccepted(rules: Rules, states: seq<ServerState>, calls: seq<Call>, i: nat, j: nat)
    requires IsRun(rules, states, calls) && i < j < |calls|
    requires forall m :: i <= m <= j ==> calls[i].now <= calls[m].now <= calls[i].now + TOKEN_ROTATE_INTERVAL
    requires TokenIn(Handle(rules, states[i], calls[i]).1).Some?
    requires TokenGiven(calls[j].request) == TokenIn(Handle(rules, states[i], calls[i]).1)
    requires calls[j].allowed && calls[j].from.ip == calls[i].from.ip
    ensures PassesTokenCheck(rules, states[j], calls[j])
  {
    hide Handle, PassesTokenCheck, TokenIn, TokenGiven, ChunkFits;
    var later, between := states[i + 1..j + 1], calls[i + 1..j];
    var ip, issued := calls[i].from.ip, calls[i].now;
    assert IsRun(rules, later, between) by {
      forall m | 0 <= m < |between|
        ensures ChunkFits(later[m].peers, between[m]) && later[m + 1] == Handle(rules, later[m], between[m]).0
      {
        assert later[m] == states[i + 1 + m] && between[m] == calls[i + 1 + m];
        assert later[m + 1] == states[i + 1 + m + 1];
      }
    }
    HandleTokens(rules, states[i], calls[i]);
    SecretsAlong(rules, later, between);
    var rs := Passing(between) + [ToRequest(calls[j])];
    assert rs[..|rs| - 1] == Passing(between);
    PassingWithin(between, issued, issued + TOKEN_ROTATE_INTERVAL);
    TokenLifetime(rules.hash, later[0].tokens, ip, rs, issued);
    AcceptedMeansPasses(rules, states[j], calls[j]);
  }

  lemma AcceptedMeansPasses(rules: Rules, s: ServerState, call: Call)
    requires ChunkFits(s.peers, call) && call.allowed && TokenGiven(call.request).Some?
    requires Validates(rules.hash, BeforeRequest(s.tokens, ToRequest(call)), call.from.ip,
                       TokenGiven(call.request).value)
    ensures PassesTokenCheck(rules, s, call)
  {
    hide BeforeRequest, Validates;
  }

  // === Old tokens ===

  /** The index among the passing requests of a call that passes. */
  lemma {:induction false} PassingAt(calls: seq<Call>, k: nat) returns (m: nat)
    requires k < |calls| && calls[k].allowed
    ensures m < |Passing(calls)| && Passing(calls)[m] == ToRequest(calls[k])
    ensures Passing(calls[..k + 1]) == Passing(calls)[..m + 1]
  {
    var n := |calls| - 1;
    var init := Passing(calls[..n]);
    if k < n {
      m := PassingAt(calls[..n], k);
      assert calls[..n][..k + 1] == calls[..k + 1];
      assert Passing(calls)[..m + 1] == init[..m + 1];
    } else {
      m := |init|;
      assert calls[..k + 1] == calls;
    }
  }

  lemma {:induction false} PassingFacts(calls: seq<Call>, hash: TokenHash, ip: bv32, token: Bytes, latest: nat)
    requires forall m :: 0 <= m < |calls| ==> calls[m].now <= latest && hash(ip, calls[m].secret) != token
    ensures forall m :: 0 <= m < |Passing(calls)| ==>
              Passing(calls)[m].now <= latest && hash(ip, Passing(calls)[m].secret) != token
  {
    if calls != [] {
      PassingFacts(calls[..|calls| - 1], hash, ip, token, latest);
    }
  }

  /**
   * A token is refused by the second of two passing requests, the first more than the interval after
   * the secrets were last updated, and the second more than the interval after the first, when the
   * new secrets give other tokens: a write with it gets error 203.
   */
  lemma OldTokenInReplyIsRefused(rules: Rules, states: seq<ServerState>, calls: seq<Call>, i: nat, a: nat, b: nat)
    requires IsRun(rules, states, calls) && i < a < b < |calls| && calls[a].allowed && calls[b].allowed
    requires forall m, n :: i <= m <= n <= b ==> calls[m].now <= calls[n].now
    requires TokenIn(Handle(rules, states[i], calls[i]).1).Some?
    requires TokenGiven(calls[b].request) == TokenIn(Handle(rules, states[i], calls[i]).1)
    requires calls[b].from.ip == calls[i].from.ip
    requires calls[a].now > states[i + 1].tokens.lastUpdated + TOKEN_ROTATE_INTERVAL
    requires calls[b].now > calls[a].now + TOKEN_ROTATE_INTERVAL
    requires forall m :: i < m <= b ==>
               rules.hash(calls[b].from.ip, calls[m].secret) != TokenGiven(calls[b].request).value
    ensures Handle(rules, states[b], calls[b]).1 == Some(ErrorReply(203))
  {
    hide Handle, TokenIn, TokenGiven, ChunkFits, Validates, After, Passing;
    var later, between := states[i + 1..b + 1], calls[i + 1..b];
    var all, ip := calls[i + 1..b + 1], calls[b].from.ip;
    SliceIsRun(rules, states, calls, i + 1, b);
    HandleTokens(rules, states[i], calls[i]);
    SecretsAlong(rules, later, between);
    assert all == between + [calls[b]];
    OneMorePasses(later[0].tokens, between, calls[b]);
    RefusedAfterPassing(rules.hash, later[0].tokens, ip, all, a - i - 1);
    RefusedMeans203(rules, states[b], calls[b]);
  }

  lemma {:induction false} OneMorePasses(s: Secrets, calls: seq<Call>, call: Call)
    requires call.allowed
    ensures Passing(calls + [call]) == Passing(calls) + [ToRequest(call)]
    ensures After(s, Passing(calls + [call])) == BeforeRequest(After(s, Passing(calls)), ToRequest(call))
  {
    assert (calls + [call])[..|calls|] == calls;
    var rs := Passing(calls) + [ToRequest(call)];
    assert rs[..|rs| - 1] == Passing(calls);
  }

  lemma {:induction false} RefusedAfterPassing(hash: TokenHash, s: Secrets, ip: bv32, calls: seq<Call>, a: nat)
    requires a < |calls| - 1 && calls[a].allowed && calls[|calls| - 1].allowed
    requires forall m, n :: 0 <= m <= n < |calls| ==> calls[m].now <= calls[n].now
    requires calls[a].now > s.lastUpdated + TOKEN_ROTATE_INTERVAL
    requires calls[|calls| - 1].now > calls[a].now + TOKEN_ROTATE_INTERVAL
    requires forall m :: 0 <= m < |calls| ==> hash(ip, calls[m].secret) != hash(ip, s.curr)
    ensures !Validates(hash, After(s, Passing(calls)), ip, hash(ip, s.curr))
  {
    hide Validates, After;
    var last, rs, upTo := |calls| - 1, Passing(calls), calls[..a + 1];
    assert calls == calls[..last] + [calls[last]];
    OneMorePasses(s, calls[..last], calls[last]);
    assert calls[..last][..a + 1] == upTo;
    var m := PassingAt(calls[..last], a);
    PassingFacts(calls, hash, ip, hash(ip, s.curr), calls[last].now);
    PassingFacts(upTo, hash, ip, hash(ip, s.curr), calls[a].now);
    forall k | 0 <= k <= m ensures rs[k].now <= rs[m].now {
      assert rs[k] == Passing(upTo)[k];
    }
    OldTokenIsRefused(hash, s, ip, rs, m, |rs| - 1);
  }

  lemma SliceIsRun(rules: Rules, states: seq<ServerState>, calls: seq<Call>, from: nat, to: nat)
    requires IsRun(rules, states, calls) && from <= to <= |calls|
    ensures IsRun(rules, states[from..to + 1], calls[from..to])
  {
    var later, between := states[from..to + 1], calls[from..to];
    forall m | 0 <= m < |between|
      ensures ChunkFits(later[m].peers, between[m]) && later[m + 1] == Handle(rules, later[m], between[m]).0
    {
      assert later[m] == states[from + m] && between[m] == calls[from + m];
      assert later[m + 1] == states[from + m + 1];
    }
  }

  lemma RefusedMeans203(rules: Rules, s: ServerState, call: Call)
    requires ChunkFits(s.peers, call) && call.allowed && TokenGiven(call.request).Some?
    requires !Validates(rules.hash, BeforeRequest(s.tokens, ToRequest(call)), call.from.ip,
                        TokenGiven(call.request).value)
    ensures Handle(rules, s, call).1 == Some(ErrorReply(203))
  {
    hide BeforeRequest, Validates;
  }
}
