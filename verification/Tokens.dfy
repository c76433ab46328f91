/** Write tokens for remote IPs, from two secrets that rotate lazily. */
module Tokens {
  import opened Ids
  import opened Nodes
  import opened Options

  // The CRC32C of the IP's octets followed by a secret.
  type TokenHash = (bv32, Bytes) -> Bytes

  datatype Secrets = Secrets(prev: Bytes, curr: Bytes, lastUpdated: nat)

  predicate ShouldUpdate(s: Secrets, now: nat) { Elapsed(now, s.lastUpdated) > TOKEN_ROTATE_INTERVAL }

  function Rotated(s: Secrets, secret: Bytes, now: nat): Secrets { Secrets(s.curr, secret, now) }

  predicate Validates(hash: TokenHash, s: Secrets, ip: bv32, token: Bytes) {
    token == hash(ip, s.curr) || token == hash(ip, s.prev)
  }

  class Tokens {
    const hash: TokenHash
    var prevSecret: Bytes
    var currSecret: Bytes
    var lastUpdated: nat

    function State(): Secrets
      reads this
    {
      Secrets(prevSecret, currSecret, lastUpdated)
    }

    constructor (hash: TokenHash, prev: Bytes, curr: Bytes, now: nat)
      ensures this.hash == hash && State() == Secrets(prev, curr, now)
    {
      this.hash, prevSecret, currSecret, lastUpdated := hash, prev, curr, now;
    }

    method Validate(ip: bv32, token: Bytes) returns (ok: bool)
      ensures ok == Validates(hash, State(), ip, token)
    {
      var prev := hash(ip, prevSecret);
      var curr := hash(ip, currSecret);
      ok := token == curr || token == prev;
    }

    method GenerateToken(ip: bv32) returns (token: Bytes)
      ensures token == hash(ip, State().curr) && Validates(hash, State(), ip, token)
    {
      token := hash(ip, currSecret);
    }

    method Rotate(secret: Bytes, now: nat)
      modifies this
      ensures State() == Rotated(old(State()), secret, now)
    {
      prevSecret := currSecret;
      currSecret := secret;
      lastUpdated := now;
    }

    /** What the server does before it handles a request. */
    method RotateIfDue(secret: Bytes, now: nat)
      modifies this
      ensures State() == BeforeRequest(old(State()), Request(now, secret))
    {
      if ShouldUpdate(State(), now) {
        Rotate(secret, now);
      }
    }
  }

  // === Schedules of requests ===

  /** A request that reaches the handler at `now`; `secret` is the random secret a rotation would draw. */
  datatype Request = Request(now: nat, secret: Bytes)

  function BeforeRequest(s: Secrets, r: Request): Secrets {
    if ShouldUpdate(s, r.now) then Rotated(s, r.secret, r.now) else s
  }

  function After(s: Secrets, rs: seq<Request>): Secrets {
    if rs == [] then s else BeforeRequest(After(s, rs[..|rs| - 1]), rs[|rs| - 1])
  }

  function Rotations(s: Secrets, rs: seq<Request>): nat {
    if rs == [] then 0
    else
      var init := rs[..|rs| - 1];
      Rotations(s, init) + if ShouldUpdate(After(s, init), rs[|rs| - 1].now) then 1 else 0
  }

  ghost predicate Within(rs: seq<Request>, from: nat, to: nat) {
    forall i :: 0 <= i < |rs| ==> from <= rs[i].now <= to
  }

  /** At most one rotation falls into a rotation interval, whatever the requests in it. */
  lemma {:induction false} AtMostOneRotation(s: Secrets, rs: seq<Request>, issued: nat)
    requires Within(rs, issued, issued + TOKEN_ROTATE_INTERVAL)
    ensures Rotations(s, rs) <= 1
    ensures Rotations(s, rs) == 0 ==> After(s, rs) == s
    ensures Rotations(s, rs) == 1 ==> After(s, rs).prev == s.curr && After(s, rs).lastUpdated >= issued
  {
    if rs != [] {
      AtMostOneRotation(s, rs[..|rs| - 1], issued);
    }
  }

  /**
   * A token issued at `issued` is accepted, for its IP, by every request handled within the
   * rotation interval; requests may come in any number and at any times.
   */
  lemma {:induction false} TokenLifetime(hash: TokenHash, s: Secrets, ip: bv32, rs: seq<Request>, issued: nat)
    requires Within(rs, issued, issued + TOKEN_ROTATE_INTERVAL)
    ensures Validates(hash, After(s, rs), ip, hash(ip, s.curr))
  {
    AtMostOneRotation(s, rs, issued);
  }

  lemma {:induction false} SecretsAfter(s: Secrets, rs: seq<Request>)
    ensures Rotations(s, rs) == 0 ==> After(s, rs) == s
    ensures Rotations(s, rs) == 1 ==>
              After(s, rs).prev == s.curr && exists i :: 0 <= i < |rs| && After(s, rs).curr == rs[i].secret
    ensures Rotations(s, rs) >= 2 ==>
              exists i, j :: 0 <= i < |rs| && 0 <= j < |rs|
                && After(s, rs).prev == rs[i].secret && After(s, rs).curr == rs[j].secret
  {
    if rs != [] {
      var init, last := rs[..|rs| - 1], |rs| - 1;
      SecretsAfter(s, init);
      assert rs[last].secret == rs[last].secret;
      if ShouldUpdate(After(s, init), rs[last].now) {
        if Rotations(s, init) >= 1 {
          var i :| 0 <= i < |init| && After(s, init).curr == init[i].secret;
          assert After(s, rs).prev == rs[i].secret && After(s, rs).curr == rs[last].secret;
        }
      } else if Rotations(s, init) == 1 {
        var i :| 0 <= i < |init| && After(s, init).curr == init[i].secret;
        assert After(s, rs).curr == rs[i].secret;
      } else if Rotations(s, init) >= 2 {
        var i, j :| 0 <= i < |init| && 0 <= j < |init|
          && After(s, init).prev == init[i].secret && After(s, init).curr == init[j].secret;
        assert After(s, rs).prev == rs[i].secret && After(s, rs).curr == rs[j].secret;
      }
    }
  }

  /** If new secrets give other tokens, a token is accepted exactly until the second rotation. */
  lemma {:induction false} AcceptedIffAtMostOneRotation(hash: TokenHash, s: Secrets, ip: bv32, rs: seq<Request>)
    requires forall i :: 0 <= i < |rs| ==> hash(ip, rs[i].secret) != hash(ip, s.curr)
    ensures Validates(hash, After(s, rs), ip, hash(ip, s.curr)) <==> Rotations(s, rs) <= 1
  {
    SecretsAfter(s, rs);
  }

  /**
   * Rotation is lazy, so there is no upper bound on a token's age: after any quiet period
   * the next request still accepts it.
   */
  lemma {:induction false} NoUpperBoundOnAge(hash: TokenHash, s: Secrets, ip: bv32, age: nat, secret: Bytes)
    ensures Validates(hash, After(s, [Request(s.lastUpdated + age, secret)]), ip, hash(ip, s.curr))
  {
    assert After(s, [Request(s.lastUpdated + age, secret)][..0]) == s;
  }

  // === Old tokens are refused ===

  /**
   * One request more than the interval after the last rotation, and another more than the interval
   * after that one: by then the secrets have rotated twice, whatever came between.
   */
  lemma {:induction false} RotatesTwice(s: Secrets, rs: seq<Request>, a: nat, b: nat)
    requires a < b < |rs| && forall m :: 0 <= m <= a ==> rs[m].now <= rs[a].now
    requires rs[a].now > s.lastUpdated + TOKEN_ROTATE_INTERVAL
    requires rs[b].now > rs[a].now + TOKEN_ROTATE_INTERVAL
    ensures Rotations(s, rs) >= 2
  {
    RotatesOnce(s, rs[..a + 1]);
    assert rs[..a + 1][..a] == rs[..a];
    RotatesAgain(s, rs, a, b);
  }

  /** After a late request there was a rotation, and none after that request. */
  lemma {:induction false} RotatesOnce(s: Secrets, rs: seq<Request>)
    requires rs != [] && forall m :: 0 <= m < |rs| ==> rs[m].now <= rs[|rs| - 1].now
    requires rs[|rs| - 1].now > s.lastUpdated + TOKEN_ROTATE_INTERVAL
    ensures Rotations(s, rs) >= 1 && After(s, rs).lastUpdated <= rs[|rs| - 1].now
  {
    var init := rs[..|rs| - 1];
    UpdatedAt(s, init, rs[|rs| - 1].now);
  }

  lemma {:induction false} UpdatedAt(s: Secrets, rs: seq<Request>, now: nat)
    requires forall m :: 0 <= m < |rs| ==> rs[m].now <= now
    requires s.lastUpdated <= now
    ensures After(s, rs).lastUpdated <= now
    ensures Rotations(s, rs) == 0 ==> After(s, rs) == s
  {
    if rs != [] {
      UpdatedAt(s, rs[..|rs| - 1], now);
    }
  }

  lemma {:induction false} RotatesAgain(s: Secrets, rs: seq<Request>, a: nat, b: nat)
    requires a < b < |rs| && rs[b].now > rs[a].now + TOKEN_ROTATE_INTERVAL
    requires Rotations(s, rs[..a + 1]) >= 1 && After(s, rs[..a + 1]).lastUpdated <= rs[a].now
    ensures Rotations(s, rs) >= 2
    decreases |rs|
  {
    var init := rs[..|rs| - 1];
    if b < |rs| - 1 {
      assert init[..a + 1] == rs[..a + 1];
      RotatesAgain(s, init, a, b);
    } else {
      assert init[..a + 1] == rs[..a + 1];
      SinceThen(s, init, a + 1);
    }
  }

  /** Rotations only add up, and without one the secrets are as they were. */
  lemma {:induction false} SinceThen(s: Secrets, rs: seq<Request>, n: nat)
    requires n <= |rs|
    ensures Rotations(s, rs) >= Rotations(s, rs[..n])
    ensures Rotations(s, rs) == Rotations(s, rs[..n]) ==> After(s, rs) == After(s, rs[..n])
  {
    if n < |rs| {
      var init := rs[..|rs| - 1];
      assert init[..n] == rs[..n];
      SinceThen(s, init, n);
    } else {
      assert rs[..n] == rs;
    }
  }

  /** Then a token that none of the new secrets gives is refused. */
  lemma {:induction false} OldTokenIsRefused(hash: TokenHash, s: Secrets, ip: bv32, rs: seq<Request>, a: nat, b: nat)
    requires a < b < |rs| && forall m :: 0 <= m <= a ==> rs[m].now <= rs[a].now
    requires rs[a].now > s.lastUpdated + TOKEN_ROTATE_INTERVAL
    requires rs[b].now > rs[a].now + TOKEN_ROTATE_INTERVAL
    requires forall i :: 0 <= i < |rs| ==> hash(ip, rs[i].secret) != hash(ip, s.curr)
    ensures !Validates(hash, After(s, rs), ip, hash(ip, s.curr))
  {
    RotatesTwice(s, rs, a, b);
    AcceptedIffAtMostOneRotation(hash, s, ip, rs);
  }

  /** A node passes for having a valid token exactly up to the interval after it was seen. */
  lemma ValidTokenIff(n: Node, now: nat)
    ensures ValidToken(n, now) <==> now <= n.lastSeen + TOKEN_ROTATE_INTERVAL
  {
  }

  /** And as long as it does, the token it gave when it was seen is accepted, whatever its server handled since. */
  lemma {:induction false} ValidTokenIsAccepted(hash: TokenHash, s: Secrets, ip: bv32, rs: seq<Request>, n: Node,
                                                now: nat)
    requires n.token == Some(hash(ip, s.curr)) && ValidToken(n, now) && Within(rs, n.lastSeen, now)
    ensures Validates(hash, After(s, rs), ip, n.token.value)
  {
    TokenLifetime(hash, s, ip, rs, n.lastSeen);
  }
}
