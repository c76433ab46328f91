/** The decoder: blocks, the full pass, the pass over caches, and generation token by token. */
module Decoder {
  import opened Options
  import opened Softmax
  import opened Attention
  import opened LayerStack

  /** Norms and the feed-forward network act on each position alone. */
  datatype Block = Block(norm1: Vec -> Vec, attn: Params, norm2: Vec -> Vec, mlp: Vec -> Vec)

  function Plus(a: Vec, b: Vec): Vec { AddScaled(a, 1.0, b) }

  /** The residual wiring around the attention output `h` of one position. */
  function Residual(b: Block, x: Vec, h: Vec): Vec {
    var y := Plus(x, h);
    Plus(y, b.mlp(b.norm2(y)))
  }

  function ResidualRows(b: Block, x: seq<Vec>, h: seq<Vec>): (r: seq<Vec>)
    requires |x| == |h|
    ensures |r| == |x|
  {
    seq(|x|, i requires 0 <= i < |x| => Residual(b, x[i], h[i]))
  }

  // === One block ===

  function BlockForward(b: Block, x: seq<Vec>): (r: seq<Vec>)
    requires WellFormed(b.attn)
    ensures |r| == |x|
  {
    ResidualRows(b, x, Forward(b.attn, Project(b.norm1, x)))
  }

  function BlockWithCache(b: Block, x: seq<Vec>, offset: nat, c: Option<KVCache>): (r: (seq<Vec>, KVCache))
    requires WellFormed(b.attn) && ValidCache(b.attn, c)
    ensures |r.0| == |x| && ValidCache(b.attn, Some(r.1))
  {
    var (h, c') := ForwardWithCache(b.attn, Project(b.norm1, x), offset, c);
    (ResidualRows(b, x, h), c')
  }

  lemma BlockOfPrefix(b: Block, x: seq<Vec>, n: nat)
    requires WellFormed(b.attn) && n <= |x|
    ensures BlockForward(b, x[..n]) == BlockForward(b, x)[..n]
  {
    var rows := Project(b.norm1, x);
    assert Project(b.norm1, x[..n]) == rows[..n];
    ForwardOfPrefix(b.attn, rows, n);
  }

  /** One row through a block with its cache is the last row of the block over everything so far. */
  lemma BlockOneRow(b: Block, x: seq<Vec>, row: Vec)
    requires WellFormed(b.attn)
    ensures ValidCache(b.attn, CacheAfter(b.attn, Project(b.norm1, x)))
    ensures var (out, c) := BlockWithCache(b, [row], |x|, CacheAfter(b.attn, Project(b.norm1, x)));
            && out == [BlockForward(b, x + [row])[|x|]]
            && Some(c) == CacheAfter(b.attn, Project(b.norm1, x + [row]))
  {
    var rows := Project(b.norm1, x);
    OneRowWithCache(b.attn, rows, b.norm1(row));
    assert Project(b.norm1, [row]) == [b.norm1(row)];
    assert Project(b.norm1, x + [row]) == rows + [b.norm1(row)];
  }

  lemma BlockPrefill(b: Block, x: seq<Vec>)
    requires WellFormed(b.attn) && x != []
    ensures var (out, c) := BlockWithCache(b, x, 0, None);
            out == BlockForward(b, x) && Some(c) == CacheAfter(b.attn, Project(b.norm1, x))
  {
    PrefillWithCache(b.attn, Project(b.norm1, x));
  }

  // === A block as a layer ===

  function FullOf(b: Block): seq<Vec> -> seq<Vec>
    requires WellFormed(b.attn)
  {
    (x: seq<Vec>) => BlockForward(b, x)
  }

  // A cache of the wrong shape, which no pass produces, would be an error of the tensor library.
  function CachedOf(b: Block): (seq<Vec>, nat, Option<KVCache>) -> (seq<Vec>, KVCache)
    requires WellFormed(b.attn)
  {
    (x: seq<Vec>, offset: nat, c: Option<KVCache>) =>
      if ValidCache(b.attn, c) then BlockWithCache(b, x, offset, c) else (x, KVCache([], []))
  }

  function AfterOf(b: Block): seq<Vec> -> Option<KVCache> {
    (x: seq<Vec>) => CacheAfter(b.attn, Project(b.norm1, x))
  }

  function LayerOf(b: Block): Layer<Vec, KVCache>
    requires WellFormed(b.attn)
  {
    Layer(FullOf(b), CachedOf(b), AfterOf(b))
  }

  /** A decoder block is causal, and its cache stands for the rows before. */
  lemma BlockIsLawful(b: Block)
    requires WellFormed(b.attn)
    ensures Lawful(LayerOf(b))
  {
    hide WellFormed, CausalAt, OneRowAt, PrefillAt, BlockForward, BlockWithCache;
    forall x: seq<Vec>, n: nat ensures CausalAt(LayerOf(b), x, n) {
      BlockCausalAt(b, x, n);
    }
    forall x: seq<Vec>, row ensures OneRowAt(LayerOf(b), x, row) {
      BlockOneRowAt(b, x, row);
    }
    forall x: seq<Vec> ensures PrefillAt(LayerOf(b), x) {
      BlockPrefillAt(b, x);
    }
    assert LayerOf(b).after([]) == None;
  }

  lemma BlockCausalAt(b: Block, x: seq<Vec>, n: nat)
    requires WellFormed(b.attn)
    ensures CausalAt(LayerOf(b), x, n)
  {
    if n <= |x| {
      BlockOfPrefix(b, x, n);
    }
  }

  lemma BlockOneRowAt(b: Block, x: seq<Vec>, row: Vec)
    requires WellFormed(b.attn)
    ensures OneRowAt(LayerOf(b), x, row)
  {
    BlockOneRow(b, x, row);
  }

  lemma BlockPrefillAt(b: Block, x: seq<Vec>)
    requires WellFormed(b.attn)
    ensures PrefillAt(LayerOf(b), x)
  {
    if x != [] {
      BlockPrefill(b, x);
    }
  }

  // === The model ===

  /** The final norm and the head act on each position alone; `zeros` are the logits before any token. */
  datatype Model =
    Model(embed: nat -> Vec, layers: seq<Layer<Vec, KVCache>>, norm: Vec -> Vec, head: Vec -> Vec, zeros: Vec)

  ghost predicate Sound(m: Model) { AllLawful(m.layers) }

  /** A model of decoder blocks is sound, so everything below holds of it. */
  function Build(embed: nat -> Vec, blocks: seq<Block>, norm: Vec -> Vec, head: Vec -> Vec, zeros: Vec): (m: Model)
    requires forall l :: 0 <= l < |blocks| ==> WellFormed(blocks[l].attn)
    ensures Sound(m) && |m.layers| == |blocks|
    ensures forall l :: 0 <= l < |blocks| ==> m.layers[l] == LayerOf(blocks[l])
  {
    var layers := seq(|blocks|, l requires 0 <= l < |blocks| => LayerOf(blocks[l]));
    assert forall l :: 0 <= l < |blocks| ==> Lawful(layers[l]) by {
      forall l | 0 <= l < |blocks| ensures Lawful(layers[l]) {
        BlockIsLawful(blocks[l]);
      }
    }
    Model(embed, layers, norm, head, zeros)
  }

  function Embed(m: Model, tokens: seq<nat>): (x: seq<Vec>)
    ensures |x| == |tokens|
  {
    seq(|tokens|, i requires 0 <= i < |tokens| => m.embed(tokens[i]))
  }

  function Logits(m: Model, x: seq<Vec>): (r: seq<Vec>)
    ensures |r| == |x|
  {
    seq(|x|, i requires 0 <= i < |x| => m.head(m.norm(x[i])))
  }

  /** The full pass without caches: one row of logits for each token. */
  function FullPass(m: Model, tokens: seq<nat>): (r: seq<Vec>)
    requires Sound(m)
    ensures |r| == |tokens|
  {
    FullOfPrefix(m.layers, Embed(m, tokens), |tokens|, |m.layers|);
    Logits(m, Full(m.layers, Embed(m, tokens), |m.layers|))
  }

  /** The full pass is causal: earlier logits do not depend on later tokens. */
  lemma FullPassOfPrefix(m: Model, tokens: seq<nat>, n: nat)
    requires Sound(m) && n <= |tokens|
    ensures FullPass(m, tokens[..n]) == FullPass(m, tokens)[..n]
  {
    FullOfPrefix(m.layers, Embed(m, tokens), n, |m.layers|);
    assert Embed(m, tokens[..n]) == Embed(m, tokens)[..n];
  }

  // === Caches ===

  type Caches = seq<Option<KVCache>>

  /** Every layer's cache holds the keys and values of exactly these tokens. */
  ghost predicate CachesHold(m: Model, tokens: seq<nat>, cs: Caches) {
    HoldBelow(m.layers, Embed(m, tokens), cs, |m.layers|)
  }

  function CacheLength(c: Option<KVCache>): nat { if c.Some? then |c.value.k| else 0 }

  /** The cache of a decoder block is valid and as long as the offset at which the next token is fed. */
  lemma CacheLengthIsOffset(m: Model, tokens: seq<nat>, cs: Caches, l: nat, b: Block)
    requires Sound(m) && CachesHold(m, tokens, cs) && l < |m.layers|
    requires WellFormed(b.attn) && m.layers[l] == LayerOf(b)
    ensures ValidCache(b.attn, cs[l]) && CacheLength(cs[l]) == |tokens|
  {
    var x := Full(m.layers, Embed(m, tokens), l);
    FullOfPrefix(m.layers, Embed(m, tokens), |tokens|, l);
    var rows := Project(b.norm1, x);
    assert cs[l] == m.layers[l].after(x) == CacheAfter(b.attn, rows);
    CacheAfterValid(b.attn, rows);
    ShapesOf(b.attn, rows, 0);
  }

  function PassWithCache(m: Model, tokens: seq<nat>, offset: nat, cs: Caches): (r: (seq<Vec>, Caches))
    requires |cs| == |m.layers|
    ensures |r.1| == |cs|
  {
    var (x, ds) := Cached(m.layers, Embed(m, tokens), offset, cs, |m.layers|);
    (Logits(m, x), ds)
  }

  /**
   * The cache refines the full pass: one token fed with caches that hold the tokens before it
   * gives the last row of the full pass over all of them, and caches that hold all of them.
   */
  lemma OneTokenRefinesFullPass(m: Model, tokens: seq<nat>, token: nat, cs: Caches)
    requires Sound(m) && CachesHold(m, tokens, cs)
    ensures var (logits, ds) := PassWithCache(m, [token], |tokens|, cs);
            && logits == [FullPass(m, tokens + [token])[|tokens|]]
            && CachesHold(m, tokens + [token], ds)
  {
    assert Embed(m, tokens + [token]) == Embed(m, tokens) + [m.embed(token)];
    assert Embed(m, [token]) == [m.embed(token)];
    OneRow(m.layers, Embed(m, tokens), m.embed(token), cs, |m.layers|);
  }

  /** A whole prompt fed at once onto empty caches is the full pass too. */
  lemma PrefillRefinesFullPass(m: Model, tokens: seq<nat>, cs: Caches)
    requires Sound(m) && tokens != [] && |cs| == |m.layers| && forall l :: 0 <= l < |cs| ==> cs[l] == None
    ensures var (logits, ds) := PassWithCache(m, tokens, 0, cs);
            logits == FullPass(m, tokens) && CachesHold(m, tokens, ds)
  {
    Prefill(m.layers, Embed(m, tokens), cs, |m.layers|);
  }

  // === Generation ===

  /** Draws the next token from logits; the randomness is in the function. */
  type Sampler = (Vec, seq<nat>) -> nat

  /** The logits for the next token, from the full pass; before any token they are zeros. */
  function NextLogits(m: Model, tokens: seq<nat>): Vec
    requires Sound(m)
  {
    if tokens == [] then m.zeros else FullPass(m, tokens)[|tokens| - 1]
  }

  /** Generation without any cache: the full pass is run again for every token. */
  function Generated(m: Model, sample: Sampler, eos: Option<nat>, tokens: seq<nat>, left: nat): seq<nat>
    requires Sound(m)
    decreases left
  {
    if left == 0 then tokens
    else
      var next := sample(NextLogits(m, tokens), tokens);
      if eos == Some(next) then tokens else Generated(m, sample, eos, tokens + [next], left - 1)
  }

  method MakeCaches(n: nat) returns (caches: array<Option<KVCache>>)
    ensures fresh(caches) && caches.Length == n && forall l :: 0 <= l < n ==> caches[l] == None
  {
    caches := new Option<KVCache>[n](_ => None);
  }

  lemma EmptyCachesHold(m: Model, cs: Caches)
    requires Sound(m) && |cs| == |m.layers| && forall l :: 0 <= l < |cs| ==> cs[l] == None
    ensures CachesHold(m, [], cs)
  {
    assert Embed(m, []) == [];
    forall l | 0 <= l < |cs| ensures cs[l] == m.layers[l].after(Full(m.layers, [], l)) {
      NothingFromNothing(m.layers, l);
    }
  }

  /** Runs the blocks in order and overwrites each layer's cache in place. */
  method StepWithCache(m: Model, tokens: seq<nat>, offset: nat, caches: array<Option<KVCache>>)
    returns (logits: seq<Vec>)
    requires caches.Length == |m.layers|
    modifies caches
    ensures (logits, caches[..]) == PassWithCache(m, tokens, offset, old(caches[..]))
  {
    ghost var cs := caches[..];
    var x := Embed(m, tokens);
    for i := 0 to |m.layers|
      invariant (x, caches[..]) == Cached(m.layers, Embed(m, tokens), offset, cs, i)
    {
      ghost var before := caches[..];
      var (h, newCache) := m.layers[i].cached(x, offset, caches[i]);
      caches[i] := Some(newCache);
      assert caches[..] == before[i := Some(newCache)];
      x := h;
    }
    logits := Logits(m, x);
  }

  /** One more token, at the offset that is the number of tokens before it. */
  method FeedToken(m: Model, ghost tokens: seq<nat>, token: nat, offset: nat, caches: array<Option<KVCache>>)
    returns (logits: seq<Vec>)
    requires Sound(m) && caches.Length == |m.layers| && CachesHold(m, tokens, caches[..]) && offset == |tokens|
    modifies caches
    ensures CachesHold(m, tokens + [token], caches[..]) && logits == [NextLogits(m, tokens + [token])]
  {
    OneTokenRefinesFullPass(m, tokens, token, caches[..]);
    logits := StepWithCache(m, [token], offset, caches);
  }

  /** Feeds the prompt one token at a time, with the index of each as its offset. */
  method FeedPrompt(m: Model, prompt: seq<nat>, caches: array<Option<KVCache>>) returns (logits: seq<Vec>)
    requires Sound(m) && caches.Length == |m.layers| && CachesHold(m, [], caches[..])
    modifies caches
    ensures CachesHold(m, prompt, caches[..]) && logits == [NextLogits(m, prompt)]
  {
    logits := [m.zeros];
    for i := 0 to |prompt|
      invariant CachesHold(m, prompt[..i], caches[..]) && logits == [NextLogits(m, prompt[..i])]
    {
      assert prompt[..i + 1] == prompt[..i] + [prompt[i]];
      logits := FeedToken(m, prompt[..i], prompt[i], i, caches);
    }
    assert prompt[..|prompt|] == prompt;
  }

  /**
   * Generation over caches: the prompt and then every sampled token is fed once, with its index
   * as the offset. The result is what generation without caches gives.
   */
  method Generate(m: Model, sample: Sampler, eos: Option<nat>, prompt: seq<nat>, maxNewTokens: nat)
    returns (all: seq<nat>)
    requires Sound(m)
    ensures all == Generated(m, sample, eos, prompt, maxNewTokens)
  {
    hide CachesHold, NextLogits, Sound;
    var caches := MakeCaches(|m.layers|);
    EmptyCachesHold(m, caches[..]);
    var logits := FeedPrompt(m, prompt, caches);
    var tokens := prompt;
    for step := 0 to maxNewTokens
      invariant fresh(caches) && caches.Length == |m.layers| && CachesHold(m, tokens, caches[..])
      invariant |tokens| == |prompt| + step && logits == [NextLogits(m, tokens)]
      invariant Generated(m, sample, eos, tokens, maxNewTokens - step)
             == Generated(m, sample, eos, prompt, maxNewTokens)
    {
      var next := sample(logits[0], tokens);
      if eos == Some(next) {
        break;
      }
      logits := FeedToken(m, tokens, next, |prompt| + step, caches);
      tokens := tokens + [next];
    }
    all := tokens;
  }

  /** Generation keeps the prompt, adds at most the tokens asked for, and never the end token. */
  lemma {:induction false} GeneratedShape(m: Model, sample: Sampler, eos: Option<nat>, tokens: seq<nat>, left: nat)
    requires Sound(m)
    ensures var all := Generated(m, sample, eos, tokens, left);
            && tokens <= all && |all| <= |tokens| + left
            && (forall i :: |tokens| <= i < |all| ==> eos != Some(all[i]))
            && (|all| < |tokens| + left ==> eos == Some(sample(NextLogits(m, all), all)))
    decreases left
  {
    if left > 0 {
      var next := sample(NextLogits(m, tokens), tokens);
      if eos != Some(next) {
        GeneratedShape(m, sample, eos, tokens + [next], left - 1);
      }
    }
  }

  /** Every token added is the one drawn from the logits of all tokens before it, none of them skipped or reused. */
  lemma {:induction false} GeneratedTokens(m: Model, sample: Sampler, eos: Option<nat>, tokens: seq<nat>, left: nat)
    requires Sound(m)
    ensures var all := Generated(m, sample, eos, tokens, left);
            && tokens <= all
            && forall i :: |tokens| <= i < |all| ==> all[i] == sample(NextLogits(m, all[..i]), all[..i])
    decreases left
  {
    hide NextLogits, Sound;
    if left > 0 {
      var next := sample(NextLogits(m, tokens), tokens);
      if eos != Some(next) {
        GeneratedTokens(m, sample, eos, tokens + [next], left - 1);
        assert Generated(m, sample, eos, tokens, left)[..|tokens|] == tokens;
      }
    }
  }

  /** One full pass holds the next logits of every prefix; before any token they are zeros. */
  lemma NextLogitsAre(m: Model, tokens: seq<nat>, n: nat)
    requires Sound(m) && n <= |tokens|
    ensures NextLogits(m, tokens[..n]) == if n == 0 then m.zeros else FullPass(m, tokens)[n - 1]
  {
    FullPassOfPrefix(m, tokens, n);
  }

  /** Each layer acts on what those below it put out; the embedding comes first, the norm and the head last. */
  lemma LayersCompose(m: Model, layer: Layer<Vec, KVCache>, tokens: seq<nat>, rows: seq<Vec>, i: nat)
    requires Sound(m) && Lawful(layer) && i < |tokens| && |rows| == |tokens|
    requires rows == Full(m.layers, Embed(m, tokens), |m.layers|)
    ensures FullPass(m, tokens)[i] == m.head(m.norm(rows[i]))
    ensures Sound(m.(layers := m.layers + [layer])) && |layer.full(rows)| == |rows|
    ensures FullPass(m.(layers := m.layers + [layer]), tokens)[i] == m.head(m.norm(layer.full(rows)[i]))
    ensures m.layers == [] ==> FullPass(m, tokens)[i] == m.head(m.norm(m.embed(tokens[i])))
  {
    var more := m.(layers := m.layers + [layer]);
    assert CausalAt(layer, rows, 0);
    assert Sound(more);
    FullOfFewer(m.layers, layer, Embed(m, tokens), |m.layers|);
    assert Embed(more, tokens) == Embed(m, tokens);
  }

  // === The residual wiring ===

  /** A part of a block that puts out zeros passes its input on; both parts together add both outputs. */
  lemma ResidualParts(b: Block, x: Vec, h: Vec)
    ensures h == Zero(|x|) && b.mlp(b.norm2(x)) == Zero(|x|) ==> Residual(b, x, h) == x
    ensures h == Zero(|x|) ==> Residual(b, x, h) == Plus(x, b.mlp(b.norm2(x)))
    ensures b.mlp(b.norm2(Plus(x, h))) == Zero(|x|) ==> Residual(b, x, h) == Plus(x, h)
    ensures forall c :: 0 <= c < |x| && |h| == |x| ==> Plus(x, h)[c] == x[c] + h[c]
  {
    PlusZero(x);
    PlusZero(Plus(x, h));
  }

  lemma PlusZero(x: Vec)
    ensures Plus(x, Zero(|x|)) == x
  {
  }

  /** Each row of a block is its own input, what attention makes of the normed rows, and what the network adds. */
  lemma BlockParts(b: Block, x: seq<Vec>, i: nat)
    requires WellFormed(b.attn) && i < |x|
    ensures var h := Forward(b.attn, Project(b.norm1, x))[i];
            && (h == Zero(|x[i]|) && b.mlp(b.norm2(x[i])) == Zero(|x[i]|) ==> BlockForward(b, x)[i] == x[i])
            && (h == Zero(|x[i]|) ==> BlockForward(b, x)[i] == Plus(x[i], b.mlp(b.norm2(x[i]))))
            && (b.mlp(b.norm2(Plus(x[i], h))) == Zero(|x[i]|) ==> BlockForward(b, x)[i] == Plus(x[i], h))
            && BlockWithCache(b, x, 0, None).0[i] == BlockForward(b, x)[i]
  {
    hide WellFormed, Residual, Forward;
    ResidualParts(b, x[i], Forward(b.attn, Project(b.norm1, x))[i]);
    PrefillWithCache(b.attn, Project(b.norm1, x));
  }
}
