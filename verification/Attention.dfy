/** Grouped-query attention with rotary positions, over a whole sequence and over a key-value cache. */
module Attention {
  import opened Options
  import opened Softmax

  // === Rotary positions ===

  /** The rotated part of a head is split in two halves; `cos` and `sin` stay abstract. */
  datatype Rope = Rope(rotaryHalf: nat, maxSeqLen: nat, cos: real -> real, sin: real -> real, invFreq: nat -> real)

  type Table = seq<seq<real>>

  /** A cache of `f(t * invFreq(k))` with one row for each position below `length`. */
  function AngleTable(r: Rope, f: real -> real, length: nat): (t: Table)
    ensures |t| == length
  {
    seq(length, (t: nat) => AngleRow(r, f, t))
  }

  function AngleRow(r: Rope, f: real -> real, position: nat): (row: seq<real>)
    ensures |row| == r.rotaryHalf
  {
    seq(r.rotaryHalf, (k: nat) => f(position as real * r.invFreq(k)))
  }

  /** The rows for positions from `offset`; past the end, a longer cache is rebuilt. */
  function CacheSlice(r: Rope, f: real -> real, offset: nat, length: nat): (t: Table)
    ensures |t| == length
  {
    var end := offset + length;
    if end > r.maxSeqLen then AngleTable(r, f, end)[offset..end]
    else AngleTable(r, f, r.maxSeqLen)[offset..end]
  }

  /** Rebuilding does not show: row `i` of a slice is always the row of position `offset + i`. */
  lemma CacheSliceRows(r: Rope, f: real -> real, offset: nat, length: nat)
    ensures forall i :: 0 <= i < length ==> CacheSlice(r, f, offset, length)[i] == AngleRow(r, f, offset + i)
  {
  }

  /** Rotates the first `2 * rotaryHalf` numbers of a head and passes the rest. */
  function RotatePartial(half: nat, x: Vec, cos: seq<real>, sin: seq<real>): Vec
    requires |cos| == |sin| == half
  {
    if half == 0 || |x| < 2 * half then x
    else
      seq(half, k requires 0 <= k < half => x[k] * cos[k] - x[half + k] * sin[k])
      + seq(half, k requires 0 <= k < half => x[k] * sin[k] + x[half + k] * cos[k])
      + x[2 * half..]
  }

  // A row holds one vector for each head, or for each key-value group.
  type Heads = seq<Vec>

  function RotateHeads(half: nat, row: Heads, cos: seq<real>, sin: seq<real>): (r: Heads)
    requires |cos| == |sin| == half
    ensures |r| == |row|
  {
    seq(|row|, h requires 0 <= h < |row| => RotatePartial(half, row[h], cos, sin))
  }

  /** Every row with the angles of its position, counted from `offset`. */
  function Rotate(r: Rope, rows: seq<Heads>, offset: nat): (out: seq<Heads>)
    ensures |out| == |rows|
  {
    var cos := CacheSlice(r, r.cos, offset, |rows|);
    var sin := CacheSlice(r, r.sin, offset, |rows|);
    CacheSliceRows(r, r.cos, offset, |rows|);
    CacheSliceRows(r, r.sin, offset, |rows|);
    seq(|rows|, i requires 0 <= i < |rows| => RotateHeads(r.rotaryHalf, rows[i], cos[i], sin[i]))
  }

  /** One row at an absolute position. */
  function RotateAt(r: Rope, row: Heads, position: nat): Heads {
    RotateHeads(r.rotaryHalf, row, AngleRow(r, r.cos, position), AngleRow(r, r.sin, position))
  }

  lemma RotateIsByPosition(r: Rope, rows: seq<Heads>, offset: nat)
    ensures forall i :: 0 <= i < |rows| ==> Rotate(r, rows, offset)[i] == RotateAt(r, rows[i], offset + i)
  {
    CacheSliceRows(r, r.cos, offset, |rows|);
    CacheSliceRows(r, r.sin, offset, |rows|);
  }

  // === Attention ===

  datatype Params = Params(heads: nat, groups: nat, headDim: nat, scale: real, exp: real -> real, rope: Rope,
                           q: Vec -> Heads, k: Vec -> Heads, v: Vec -> Heads, o: Heads -> Vec)

  ghost predicate WellFormed(p: Params) {
    && p.groups > 0 && p.heads > 0 && p.heads % p.groups == 0 && p.scale != 0.0
    && (forall x :: |p.q(x)| == p.heads) && (forall x :: |p.k(x)| == p.groups) && (forall x :: |p.v(x)| == p.groups)
  }

  /** A norm or a projection acts on every position alone. */
  function Project<T>(f: Vec -> T, x: seq<Vec>): (rows: seq<T>)
    ensures |rows| == |x|
  {
    seq(|x|, i requires 0 <= i < |x| => f(x[i]))
  }

  /** Each key-value group serves `heads / groups` consecutive heads. */
  function RepeatKv(row: Heads, heads: nat, groups: nat): Heads
    requires groups > 0 && |row| == groups
  {
    if groups == heads then row
    else
      var repeats := heads / groups;
      seq(groups * repeats, h requires 0 <= h < groups * repeats =>
        DivBelow(h, groups, repeats); row[h / repeats])
  }

  lemma DivBelow(h: nat, groups: nat, repeats: nat)
    requires h < groups * repeats
    ensures repeats > 0 && h / repeats < groups
  {
    if h / repeats >= groups {
      ScaleUp(groups, h / repeats, repeats);
    }
  }

  lemma ScaleUp(a: nat, b: nat, c: nat)
    requires a <= b
    ensures a * c <= b * c
  {
  }

  lemma RepeatKvLength(row: Heads, heads: nat, groups: nat)
    requires groups > 0 && |row| == groups && heads % groups == 0
    ensures |RepeatKv(row, heads, groups)| == heads
  {
    assert groups * (heads / groups) == heads;
  }

  function Times(x: real, y: real): real { x * y }

  function Dot(a: Vec, b: Vec): real {
    if a == [] || b == [] then 0.0 else Dot(a[..|a| - 1], b[..|b| - 1]) + Times(a[|a| - 1], b[|b| - 1])
  }

  function Scores(scale: real, q: Vec, ks: seq<Vec>): (s: seq<real>)
    requires scale != 0.0
    ensures |s| == |ks|
  {
    seq(|ks|, j requires 0 <= j < |ks| => Dot(q, ks[j]) / scale)
  }

  /** How many leading keys a query row sees: all, or up to its own position when the mask is on. */
  function Visible(causal: bool, row: nat, queries: nat, keys: nat): (n: nat)
    requires row < queries <= keys
    ensures n <= keys
  {
    if causal then row + (keys - queries) + 1 else keys
  }

  /** What the mask adds to the score of query `i` and key `j`. */
  function MaskCell(i: int, j: int, queries: int, keys: int): Score {
    if j > i + (keys - queries) then NegInf else Fin(0.0)
  }

  function MaskAt(c: nat, queries: int, keys: nat): Score
    requires keys > 0
  {
    MaskCell(c / keys, c % keys, queries, keys)
  }

  /** The nested loops that fill the mask, one row of keys after the other. */
  method CausalMask(queries: nat, keys: nat) returns (data: array<Score>)
    ensures fresh(data) && data.Length == queries * keys
    ensures forall c :: 0 <= c < data.Length ==> keys > 0 && data[c] == MaskCell(c / keys, c % keys, queries, keys)
  {
    var size := queries * keys;
    data := new Score[size](_ => Fin(0.0));
    var row := 0;
    for i := 0 to queries
      invariant row == i * keys && row <= size
      invariant forall c :: 0 <= c < row ==> keys > 0 && data[c] == MaskAt(c, queries, keys)
      invariant forall c :: row <= c < size ==> data[c] == Fin(0.0)
    {
      RowFits(i, queries, keys);
      RowCells(i, row, queries, keys);
      FillRow(data, i, row, queries, keys);
      row := row + keys;
    }
  }

  method FillRow(data: array<Score>, i: nat, row: nat, queries: nat, keys: nat)
    requires row + keys <= data.Length
    requires forall j :: 0 <= j < keys ==> MaskAt(row + j, queries, keys) == MaskCell(i, j, queries, keys)
    requires forall c :: row <= c < data.Length ==> data[c] == Fin(0.0)
    modifies data
    ensures forall c :: 0 <= c < row ==> data[c] == old(data[c])
    ensures forall c :: row <= c < row + keys ==> data[c] == MaskAt(c, queries, keys)
    ensures forall c :: row + keys <= c < data.Length ==> data[c] == Fin(0.0)
  {
    for j := 0 to keys
      invariant forall c :: 0 <= c < row ==> data[c] == old(data[c])
      invariant forall c :: row <= c < row + j ==> data[c] == MaskAt(c, queries, keys)
      invariant forall c :: row + j <= c < data.Length ==> data[c] == Fin(0.0)
    {
      assert MaskAt(row + j, queries, keys) == MaskCell(i, j, queries, keys);
      if j > i + (keys - queries) {
        data[row + j] := NegInf;
      }
    }
  }

  lemma RowCells(i: nat, row: nat, queries: nat, keys: nat)
    requires row == i * keys
    ensures forall j :: 0 <= j < keys ==> MaskAt(row + j, queries, keys) == MaskCell(i, j, queries, keys)
  {
    forall j | 0 <= j < keys ensures MaskAt(row + j, queries, keys) == MaskCell(i, j, queries, keys) {
      CellIndex(i, j, keys);
    }
  }

  lemma RowFits(i: nat, queries: nat, keys: nat)
    requires i < queries
    ensures i * keys + keys == (i + 1) * keys <= queries * keys
  {
    ScaleUp(i + 1, queries, keys);
  }

  lemma CellIndex(i: nat, j: nat, keys: nat)
    requires j < keys
    ensures (i * keys + j) / keys == i && (i * keys + j) % keys == j
  {
    var c := i * keys + j;
    var q, r := c / keys, c % keys;
    assert c == q * keys + r;
    if q < i {
      ScaleUp(q + 1, i, keys);
    } else if q > i {
      ScaleUp(i + 1, q, keys);
    }
  }

  function AddScores(s: Score, t: Score): Score {
    if s.Fin? && t.Fin? then Fin(s.value + t.value) else NegInf
  }

  /** Minus infinity swallows whatever is added to it, and numbers add up in any order. */
  lemma AddScoresIs(s: Score, t: Score, x: real, y: real)
    ensures AddScores(s, t) == AddScores(t, s) && AddScores(NegInf, t) == NegInf
    ensures AddScores(Fin(x), Fin(y)) == Fin(y + x)
  {
  }

  /** Adding row `i` of the mask hides exactly the keys beyond the visible ones. */
  lemma MaskHidesTheRest(scores: seq<real>, i: nat, queries: nat)
    requires i < queries <= |scores|
    ensures Masked(scores, Visible(true, i, queries, |scores|))
         == seq(|scores|, j requires 0 <= j < |scores| => AddScores(Fin(scores[j]), MaskCell(i, j, queries, |scores|)))
  {
  }

  /** One query of one head over all keys, masked. */
  function HeadOut(scale: real, exp: real -> real, q: Vec, ks: seq<Vec>, vs: seq<Vec>, visible: nat, d: nat): Vec
    requires scale != 0.0 && |ks| == |vs|
  {
    Mix(SoftmaxRow(exp, Masked(Scores(scale, q, ks), visible)), vs, d)
  }

  /** The keys or values that one head sees, after its group is repeated. */
  function Column(p: Params, rows: seq<Heads>, h: nat): (c: seq<Vec>)
    requires p.groups > 0 && p.heads % p.groups == 0 && h < p.heads
    requires forall j :: 0 <= j < |rows| ==> |rows[j]| == p.groups
    ensures |c| == |rows|
  {
    seq(|rows|, j requires 0 <= j < |rows| =>
      RepeatKvLength(rows[j], p.heads, p.groups); RepeatKv(rows[j], p.heads, p.groups)[h])
  }

  predicate Shaped(p: Params, rows: seq<Heads>) {
    forall j :: 0 <= j < |rows| ==> |rows[j]| == p.groups
  }

  /** All heads of one query row. */
  function RowOut(p: Params, q: Heads, ks: seq<Heads>, vs: seq<Heads>, visible: nat): Heads
    requires WellFormed(p) && |q| == p.heads && |ks| == |vs| && Shaped(p, ks) && Shaped(p, vs)
  {
    seq(p.heads, h requires 0 <= h < p.heads =>
      HeadOut(p.scale, p.exp, q[h], Column(p, ks, h), Column(p, vs, h), visible, p.headDim))
  }

  /** Scaled dot-product attention of query rows over key rows. */
  function Sdpa(p: Params, qs: seq<Heads>, ks: seq<Heads>, vs: seq<Heads>, causal: bool): (out: seq<Heads>)
    requires WellFormed(p) && |qs| <= |ks| == |vs| && Shaped(p, ks) && Shaped(p, vs)
    requires forall i :: 0 <= i < |qs| ==> |qs[i]| == p.heads
    ensures |out| == |qs|
  {
    seq(|qs|, i requires 0 <= i < |qs| => RowOut(p, qs[i], ks, vs, Visible(causal, i, |qs|, |ks|)))
  }

  function Keys(p: Params, x: seq<Vec>, offset: nat): seq<Heads> { Rotate(p.rope, Project(p.k, x), offset) }

  function Queries(p: Params, x: seq<Vec>, offset: nat): seq<Heads> { Rotate(p.rope, Project(p.q, x), offset) }

  function Values(p: Params, x: seq<Vec>): seq<Heads> { Project(p.v, x) }

  lemma ShapesOf(p: Params, x: seq<Vec>, offset: nat)
    requires WellFormed(p)
    ensures |Keys(p, x, offset)| == |Values(p, x)| == |Queries(p, x, offset)| == |x|
    ensures Shaped(p, Keys(p, x, offset)) && Shaped(p, Values(p, x))
    ensures forall i :: 0 <= i < |x| ==> |Queries(p, x, offset)[i]| == p.heads
    ensures forall i :: 0 <= i < |x| ==> Keys(p, x, offset)[i] == RotateAt(p.rope, p.k(x[i]), offset + i)
    ensures forall i :: 0 <= i < |x| ==> Queries(p, x, offset)[i] == RotateAt(p.rope, p.q(x[i]), offset + i)
  {
    RotateIsByPosition(p.rope, Project(p.k, x), offset);
    RotateIsByPosition(p.rope, Project(p.q, x), offset);
  }

  /** The full pass: every row attends to the rows up to it. The mask is left out for a single row. */
  function Forward(p: Params, x: seq<Vec>): (out: seq<Vec>)
    requires WellFormed(p)
    ensures |out| == |x|
  {
    ShapesOf(p, x, 0);
    var out := Sdpa(p, Queries(p, x, 0), Keys(p, x, 0), Values(p, x), |x| > 1);
    seq(|x|, i requires 0 <= i < |x| => p.o(out[i]))
  }

  datatype KVCache = KVCache(k: seq<Heads>, v: seq<Heads>)

  predicate ValidCache(p: Params, c: Option<KVCache>) {
    c.Some? ==> |c.value.k| == |c.value.v| && Shaped(p, c.value.k) && Shaped(p, c.value.v)
  }

  function CachedKeys(c: Option<KVCache>): seq<Heads> { if c.Some? then c.value.k else [] }

  function CachedValues(c: Option<KVCache>): seq<Heads> { if c.Some? then c.value.v else [] }

  /** New rows over the cached ones and themselves; the mask is only on when there is no cache. */
  function ForwardWithCache(p: Params, x: seq<Vec>, offset: nat, c: Option<KVCache>): (r: (seq<Vec>, KVCache))
    requires WellFormed(p) && ValidCache(p, c)
    ensures |r.0| == |x| && ValidCache(p, Some(r.1))
    ensures r.1 == KVCache(CachedKeys(c) + Keys(p, x, offset), CachedValues(c) + Values(p, x))
  {
    ShapesOf(p, x, offset);
    var ks, vs := CachedKeys(c) + Keys(p, x, offset), CachedValues(c) + Values(p, x);
    var out := Sdpa(p, Queries(p, x, offset), ks, vs, c.None? && |x| > 1);
    (seq(|x|, i requires 0 <= i < |x| => p.o(out[i])), KVCache(ks, vs))
  }

  // === Causality ===

  /** A row that sees only a prefix of the keys is unaffected by the others. */
  lemma RowSeesPrefix(p: Params, q: Heads, ks: seq<Heads>, vs: seq<Heads>, visible: nat)
    requires WellFormed(p) && |q| == p.heads && visible <= |ks| == |vs| && Shaped(p, ks) && Shaped(p, vs)
    ensures RowOut(p, q, ks, vs, visible) == RowOut(p, q, ks[..visible], vs[..visible], visible)
  {
    forall h | 0 <= h < p.heads
      ensures RowOut(p, q, ks, vs, visible)[h] == RowOut(p, q, ks[..visible], vs[..visible], visible)[h]
    {
      HeadSeesPrefix(p, q[h], ks, vs, visible, h);
    }
  }

  lemma HeadSeesPrefix(p: Params, q: Vec, ks: seq<Heads>, vs: seq<Heads>, visible: nat, h: nat)
    requires WellFormed(p) && h < p.heads && visible <= |ks| == |vs| && Shaped(p, ks) && Shaped(p, vs)
    ensures HeadOut(p.scale, p.exp, q, Column(p, ks, h), Column(p, vs, h), visible, p.headDim)
         == HeadOut(p.scale, p.exp, q, Column(p, ks[..visible], h), Column(p, vs[..visible], h), visible, p.headDim)
  {
    var kc, vc := Column(p, ks, h), Column(p, vs, h);
    assert Column(p, ks[..visible], h) == kc[..visible];
    assert Column(p, vs[..visible], h) == vc[..visible];
    assert Scores(p.scale, q, kc)[..visible] == Scores(p.scale, q, kc[..visible]);
    MaskedRowIsPlainRow(p.exp, Scores(p.scale, q, kc), visible, vc, p.headDim);
  }

  /** The output of a position, from the keys and values of the positions up to it and nothing else. */
  ghost function RowFromPrefix(p: Params, x: seq<Vec>, i: nat): Vec
    requires WellFormed(p) && i < |x|
  {
    var prefix := x[..i + 1];
    ShapesOf(p, prefix, 0);
    p.o(RowOut(p, Queries(p, prefix, 0)[i], Keys(p, prefix, 0), Values(p, prefix), i + 1))
  }

  lemma PrefixRows(p: Params, x: seq<Vec>, n: nat)
    requires WellFormed(p) && n <= |x|
    ensures Keys(p, x[..n], 0) == Keys(p, x, 0)[..n]
    ensures Values(p, x[..n]) == Values(p, x)[..n]
    ensures Queries(p, x[..n], 0) == Queries(p, x, 0)[..n]
  {
    ShapesOf(p, x, 0);
    ShapesOf(p, x[..n], 0);
  }

  /** The full pass is causal: row `i` is a function of the rows up to `i`. */
  lemma ForwardIsCausal(p: Params, x: seq<Vec>, i: nat)
    requires WellFormed(p) && i < |x|
    ensures Forward(p, x)[i] == RowFromPrefix(p, x, i)
  {
    ShapesOf(p, x, 0);
    PrefixRows(p, x, i + 1);
    var q, ks, vs := Queries(p, x, 0)[i], Keys(p, x, 0), Values(p, x);
    assert Visible(|x| > 1, i, |x|, |x|) == i + 1;
    RowSeesPrefix(p, q, ks, vs, i + 1);
  }

  /** So the full pass over a prefix is a prefix of the full pass. */
  lemma ForwardOfPrefix(p: Params, x: seq<Vec>, n: nat)
    requires WellFormed(p) && n <= |x|
    ensures Forward(p, x[..n]) == Forward(p, x)[..n]
  {
    forall i | 0 <= i < n ensures Forward(p, x[..n])[i] == Forward(p, x)[i] {
      ForwardIsCausal(p, x[..n], i);
      ForwardIsCausal(p, x, i);
      assert x[..n][..i + 1] == x[..i + 1];
    }
  }

  // === The cache ===

  /** What the cache of a layer holds after the rows `x`: their keys and values, and nothing before the first row. */
  function CacheAfter(p: Params, x: seq<Vec>): Option<KVCache> {
    if x == [] then None else Some(KVCache(Keys(p, x, 0), Values(p, x)))
  }

  lemma CacheAfterValid(p: Params, x: seq<Vec>)
    requires WellFormed(p)
    ensures ValidCache(p, CacheAfter(p, x))
  {
    ShapesOf(p, x, 0);
  }

  lemma KeysAppend(p: Params, x: seq<Vec>, more: seq<Vec>)
    requires WellFormed(p)
    ensures Keys(p, x + more, 0) == Keys(p, x, 0) + Keys(p, more, |x|)
    ensures Values(p, x + more) == Values(p, x) + Values(p, more)
  {
    hide WellFormed, Keys, RotateAt, Shaped;
    ShapesOf(p, x + more, 0);
    ShapesOf(p, x, 0);
    ShapesOf(p, more, |x|);
  }

  /** Over the cache of all earlier rows, one row has the keys, values and query it has in the full pass. */
  lemma CacheGrows(p: Params, x: seq<Vec>, row: Vec)
    requires WellFormed(p)
    ensures var all := x + [row];
            && CachedKeys(CacheAfter(p, x)) + Keys(p, [row], |x|) == Keys(p, all, 0)
            && CachedValues(CacheAfter(p, x)) + Values(p, [row]) == Values(p, all)
            && |Queries(p, [row], |x|)| == 1 && |Queries(p, all, 0)| == |all| == |Keys(p, all, 0)|
            && Queries(p, [row], |x|)[0] == Queries(p, all, 0)[|x|]
  {
    hide WellFormed, Keys, Values, Queries, RotateAt, Shaped;
    ShapesOf(p, [row], |x|);
    ShapesOf(p, x + [row], 0);
    ShapesOf(p, x, 0);
    KeysAppend(p, x, [row]);
    if x == [] {
      assert Keys(p, x, 0) == [] && Values(p, x) == [];
    }
  }

  /** One row with the cache of all earlier rows gives the last row of the full pass, and extends the cache by it. */
  lemma OneRowWithCache(p: Params, x: seq<Vec>, row: Vec)
    requires WellFormed(p)
    ensures ValidCache(p, CacheAfter(p, x))
    ensures var (out, c) := ForwardWithCache(p, [row], |x|, CacheAfter(p, x));
            && out == [Forward(p, x + [row])[|x|]]
            && Some(c) == CacheAfter(p, x + [row])
  {
    hide WellFormed, Keys, Values, Queries, Shaped, RowOut, Forward;
    var all := x + [row];
    CacheAfterValid(p, x);
    CacheGrows(p, x, row);
    ForwardIsCausal(p, all, |x|);
    assert all[..|x| + 1] == all;
  }

  /** Any number of rows without a cache is the full pass. */
  lemma PrefillWithCache(p: Params, x: seq<Vec>)
    requires WellFormed(p)
    ensures var (out, c) := ForwardWithCache(p, x, 0, None);
            && out == Forward(p, x)
            && (x != [] ==> Some(c) == CacheAfter(p, x))
  {
    ShapesOf(p, x, 0);
    assert [] + Keys(p, x, 0) == Keys(p, x, 0) && [] + Values(p, x) == Values(p, x);
  }

  // === Chunks on a cache ===

  /** Feeding `chunk` rows at once after `cached` rows gives, for every model, what the full pass gives. */
  ghost predicate CacheAgrees(cached: nat, chunk: nat) {
    forall p: Params, x: seq<Vec>, more: seq<Vec> ::
      WellFormed(p) && PositiveFn(p.exp) && |x| == cached && |more| == chunk ==> AgreesOn(p, x, more)
  }

  ghost predicate AgreesOn(p: Params, x: seq<Vec>, more: seq<Vec>)
    requires WellFormed(p)
  {
    CacheAfterValid(p, x);
    ForwardWithCache(p, more, |x|, CacheAfter(p, x)).0 == Forward(p, x + more)[|x|..]
  }

  /** A one-head model that gives every key the same score and passes its rows on as values. */
  function Averaging(): Params {
    Params(1, 1, 1, 1.0, (r: real) => 1.0, Rope(0, 0, (r: real) => 0.0, (r: real) => 0.0, (k: nat) => 0.0),
           (x: Vec) => [x], (x: Vec) => [[0.0]], (x: Vec) => [x], (hs: Heads) => if hs == [] then [] else hs[0])
  }

  function Zeros(n: nat): (x: seq<Vec>)
    ensures |x| == n
  {
    seq(n, i => [0.0])
  }

  lemma {:induction false} MixOfZeros(ws: seq<real>, n: nat)
    requires |ws| == n
    ensures Mix(ws, Zeros(n), 1) == [0.0]
  {
    if n > 0 {
      MixOfZeros(ws[..n - 1], n - 1);
      assert Zeros(n)[..n - 1] == Zeros(n - 1);
      ScaledZero(ws[n - 1]);
    }
  }

  lemma ScaledZero(w: real)
    ensures AddScaled([0.0], w, [0.0]) == [0.0]
  {
    var r := AddScaled([0.0], w, [0.0]);
    assert r[0] == 0.0 + w * 0.0;
  }

  /** Zeros and then a one: the mix shows the weight of the last row. */
  lemma {:induction false} MixShowsLast(ws: seq<real>, n: nat)
    requires |ws| == n + 1
    ensures Mix(ws, Zeros(n) + [[1.0]], 1) == [ws[n]]
  {
    MixOfZeros(ws[..n], n);
    assert (Zeros(n) + [[1.0]])[..n] == Zeros(n);
    assert AddScaled([0.0], ws[n], [1.0]) == [ws[n]];
  }

  lemma AveragingWellFormed()
    ensures WellFormed(Averaging()) && PositiveFn(Averaging().exp)
  {
  }

  lemma AveragingValues(x: seq<Vec>)
    ensures Shaped(Averaging(), Values(Averaging(), x)) && Column(Averaging(), Values(Averaging(), x), 0) == x
  {
    var p := Averaging();
    assert forall i :: 0 <= i < |x| ==> Values(p, x)[i] == [x[i]];
  }

  /** One query of the averaging model: its weights, and their mix of the rows themselves. */
  lemma AveragingRow(q: Heads, ks: seq<Heads>, x: seq<Vec>, visible: nat) returns (ws: seq<real>)
    requires |q| == 1 && 0 < visible <= |x| == |ks| && Shaped(Averaging(), ks)
    ensures WellFormed(Averaging()) && Shaped(Averaging(), Values(Averaging(), x))
    ensures |ws| == |x| && forall j :: 0 <= j < |ws| ==> (ws[j] > 0.0 <==> j < visible)
    ensures Averaging().o(RowOut(Averaging(), q, ks, Values(Averaging(), x), visible)) == Mix(ws, x, 1)
  {
    AveragingWellFormed();
    AveragingValues(x);
    var p := Averaging();
    var scores := Scores(p.scale, q[0], Column(p, ks, 0));
    ws := SoftmaxRow(p.exp, Masked(scores, visible));
    WeightsAreADistribution(p.exp, scores, visible);
    assert RowOut(p, q, ks, Values(p, x), visible)[0] == Mix(ws, x, 1);
  }

  /** Over a cache, the first new row mixes every row, and the last one has a positive weight. */
  lemma FirstOfChunk(x: seq<Vec>, more: seq<Vec>, n: nat)
    requires x != [] && |more| > 1 && x + more == Zeros(n) + [[1.0]]
    ensures WellFormed(Averaging()) && ValidCache(Averaging(), CacheAfter(Averaging(), x))
    ensures ForwardWithCache(Averaging(), more, |x|, CacheAfter(Averaging(), x)).0[0] != [0.0]
  {
    AveragingWellFormed();
    var p, all := Averaging(), x + more;
    CacheAfterValid(p, x);
    ShapesOf(p, more, |x|);
    ShapesOf(p, all, 0);
    KeysAppend(p, x, more);
    var q := Queries(p, more, |x|)[0];
    var ws := AveragingRow(q, Keys(p, all, 0), all, |all|);
    MixShowsLast(ws, n);
  }

  /** In the full pass, a row that is preceded by zeros mixes only zeros. */
  lemma FullPassRow(all: seq<Vec>, i: nat)
    requires i < |all| && all[..i + 1] == Zeros(i + 1)
    ensures WellFormed(Averaging()) && Forward(Averaging(), all)[i] == [0.0]
  {
    AveragingWellFormed();
    var p, prefix := Averaging(), all[..i + 1];
    ForwardIsCausal(p, all, i);
    ShapesOf(p, prefix, 0);
    var ws := AveragingRow(Queries(p, prefix, 0)[i], Keys(p, prefix, 0), prefix, i + 1);
    MixOfZeros(ws, i + 1);
  }

  /** The first of several rows fed onto a cache sees the last one, which the full pass hides from it. */
  lemma ChunkSeesTheFuture(cached: nat, chunk: nat)
    requires cached > 0 && chunk > 1
    ensures WellFormed(Averaging()) && PositiveFn(Averaging().exp)
    ensures !AgreesOn(Averaging(), Zeros(cached), Zeros(chunk - 1) + [[1.0]])
  {
    hide WellFormed, Forward, ForwardWithCache, CacheAfter;
    AveragingWellFormed();
    var x, more := Zeros(cached), Zeros(chunk - 1) + [[1.0]];
    var all := x + more;
    assert all == Zeros(|all| - 1) + [[1.0]];
    FirstOfChunk(x, more, |all| - 1);
    assert all[..cached + 1] == Zeros(cached + 1);
    FullPassRow(all, cached);
    assert Forward(Averaging(), all)[cached..][0] == [0.0];
  }

  /** Feeding rows with a cache is right for every model exactly for the first chunk and for single rows. */
  lemma CacheAgreesIff(cached: nat, chunk: nat)
    ensures CacheAgrees(cached, chunk) <==> cached == 0 || chunk <= 1
  {
    if cached == 0 || chunk <= 1 {
      forall p: Params, x: seq<Vec>, more: seq<Vec> |
        WellFormed(p) && PositiveFn(p.exp) && |x| == cached && |more| == chunk
        ensures AgreesOn(p, x, more)
      {
        SafeChunk(p, x, more);
      }
    } else {
      ChunkSeesTheFuture(cached, chunk);
    }
  }

  lemma SafeChunk(p: Params, x: seq<Vec>, more: seq<Vec>)
    requires WellFormed(p) && (x == [] || |more| <= 1)
    ensures AgreesOn(p, x, more)
  {
    hide WellFormed, AgreesOn;
    if x == [] {
      SafeFirst(p, more);
    } else if more == [] {
      SafeNothing(p, x);
    } else {
      SafeRow(p, x, more[0]);
      assert more == [more[0]];
    }
  }

  lemma SafeFirst(p: Params, more: seq<Vec>)
    requires WellFormed(p)
    ensures AgreesOn(p, [], more)
  {
    PrefillWithCache(p, more);
    assert [] + more == more;
  }

  lemma SafeNothing(p: Params, x: seq<Vec>)
    requires WellFormed(p)
    ensures AgreesOn(p, x, [])
  {
    CacheAfterValid(p, x);
    assert x + [] == x;
  }

  lemma SafeRow(p: Params, x: seq<Vec>, row: Vec)
    requires WellFormed(p)
    ensures AgreesOn(p, x, [row])
  {
    OneRowWithCache(p, x, row);
    var full := Forward(p, x + [row]);
    assert full[|x|..] == [full[|x|]];
  }

  // === What attention computes ===

  /** The dot product is the sum of the products. */
  lemma {:induction false} DotIsTotal(a: Vec, b: Vec)
    requires |a| == |b|
    ensures Dot(a, b) == Total(Products(a, b))
  {
    if a != [] {
      var n := |a| - 1;
      DotIsTotal(a[..n], b[..n]);
      forall k | 0 <= k < n ensures Products(a, b)[..n][k] == Products(a[..n], b[..n])[k] {
        assert a[..n][k] == a[k] && b[..n][k] == b[k];
      }
      assert Products(a, b)[..n] == Products(a[..n], b[..n]);
    }
  }

  function Products(a: Vec, b: Vec): (r: Vec)
    requires |a| == |b|
    ensures |r| == |a|
  {
    seq(|a|, i requires 0 <= i < |a| => a[i] * b[i])
  }

  /** Head `h` sees the key-value group whose block of heads it is in. */
  lemma GroupOfHead(row: Heads, heads: nat, groups: nat, h: nat, g: nat)
    requires groups > 0 && |row| == groups && heads % groups == 0 && h < heads && g < groups
    requires g * (heads / groups) <= h < (g + 1) * (heads / groups)
    ensures |RepeatKv(row, heads, groups)| == heads && RepeatKv(row, heads, groups)[h] == row[g]
  {
    RepeatKvLength(row, heads, groups);
    var repeats := heads / groups;
    if groups == heads {
      SelfRatio(heads);
    } else {
      InBlock(h, g, repeats);
    }
  }

  lemma SelfRatio(n: nat)
    requires n > 0
    ensures n / n == 1
  {
  }

  lemma InBlock(h: nat, g: nat, size: nat)
    requires g * size <= h < (g + 1) * size
    ensures size > 0 && h / size == g
  {
    assert (g + 1) * size == g * size + size;
    CellIndex(g, h - g * size, size);
  }

  /** The score of a visible key: its dot product with the query, divided by the scale. */
  function ScoreOf(scale: real, q: Vec, k: Vec): real
    requires scale != 0.0
  {
    Dot(q, k) / scale
  }

  /** Coordinate `c` of the values of the first keys, each weighed by the exponential of its key's score. */
  function Weighed(scale: real, exp: real -> real, q: Vec, ks: seq<Vec>, vs: seq<Vec>, visible: nat, c: nat): real
    requires scale != 0.0 && visible <= |ks| == |vs|
  {
    if visible == 0 then 0.0
    else
      var j := visible - 1;
      Weighed(scale, exp, q, ks, vs, j, c)
      + exp(ScoreOf(scale, q, ks[j])) * (if c < |vs[j]| then vs[j][c] else 0.0)
  }

  function Weight(scale: real, exp: real -> real, q: Vec, ks: seq<Vec>, visible: nat): real
    requires scale != 0.0 && visible <= |ks|
  {
    if visible == 0 then 0.0
    else Weight(scale, exp, q, ks, visible - 1) + exp(ScoreOf(scale, q, ks[visible - 1]))
  }

  lemma {:induction false} WeighedIsPlain(scale: real, exp: real -> real, q: Vec, ks: seq<Vec>, vs: seq<Vec>,
                                          visible: nat, c: nat)
    requires scale != 0.0 && visible <= |ks| == |vs|
    ensures var ss := Masked(Scores(scale, q, ks[..visible]), visible);
            && PlainMix(exp, ss, vs[..visible], c) == Weighed(scale, exp, q, ks, vs, visible, c)
            && PlainSum(exp, ss) == Weight(scale, exp, q, ks, visible)
  {
    if visible > 0 {
      var n := visible - 1;
      WeighedIsPlain(scale, exp, q, ks, vs, n, c);
      var ss := Masked(Scores(scale, q, ks[..visible]), visible);
      assert ks[..visible][..n] == ks[..n] && vs[..visible][..n] == vs[..n];
      assert ss[..n] == Masked(Scores(scale, q, ks[..n]), n);
    }
  }

  /**
   * For an exponential, a head's output is the mean of the visible values, weighed by the
   * exponentials of their keys' scores: nothing else shows.
   */
  lemma {:induction false} HeadIsWeighedMean(scale: real, exp: real -> real, q: Vec, ks: seq<Vec>, vs: seq<Vec>,
                                             visible: nat, d: nat, c: nat)
    requires PositiveFn(exp) && TurnsSumsIntoProducts(exp) && scale != 0.0 && 0 < visible <= |ks| == |vs| && c < d
    ensures |HeadOut(scale, exp, q, ks, vs, visible, d)| == d && Weight(scale, exp, q, ks, visible) > 0.0
    ensures HeadOut(scale, exp, q, ks, vs, visible, d)[c] * Weight(scale, exp, q, ks, visible)
         == Weighed(scale, exp, q, ks, vs, visible, c)
  {
    hide TurnsSumsIntoProducts, Mix, SoftmaxRow, MaxOf, PlainMix, PlainSum, Weighed, Weight;
    var scores := Scores(scale, q, ks);
    MaskedRowIsPlainRow(exp, scores, visible, vs, d);
    assert scores[..visible] == Scores(scale, q, ks[..visible]);
    var ss := Masked(scores[..visible], visible);
    MaxIsFinite(scores[..visible], visible);
    SoftmaxMixIs(exp, ss, vs[..visible], d, c);
    WeighedIsPlain(scale, exp, q, ks, vs, visible, c);
  }

  // === Rotary positions are relative ===

  /** The addition theorems. */
  ghost predicate Trigonometric(r: Rope) {
    && (forall x, y :: r.cos(x - y) == r.cos(x) * r.cos(y) + r.sin(x) * r.sin(y))
    && (forall x, y :: r.sin(x - y) == r.sin(x) * r.cos(y) - r.cos(x) * r.sin(y))
  }

  lemma {:induction false} DotAppend(a: Vec, b: Vec, x: Vec, y: Vec)
    requires |a| == |x| && |b| == |y|
    ensures Dot(a + b, x + y) == Dot(a, x) + Dot(b, y)
  {
    if b == [] {
      assert a + b == a && x + y == x;
    } else {
      var n := |b| - 1;
      assert (a + b)[..|a| + n] == a + b[..n] && (x + y)[..|a| + n] == x + y[..n];
      DotAppend(a, b[..n], x, y[..n]);
    }
  }

  /** The two rotated halves of a head. */
  function Turned(x: Vec, y: Vec, cos: seq<real>, sin: seq<real>): (r: (Vec, Vec))
    requires |x| == |y| == |cos| == |sin|
    ensures |r.0| == |r.1| == |x|
  {
    (seq(|x|, k requires 0 <= k < |x| => x[k] * cos[k] - y[k] * sin[k]),
     seq(|x|, k requires 0 <= k < |x| => x[k] * sin[k] + y[k] * cos[k]))
  }

  lemma RotateIsTurned(half: nat, x: Vec, cos: seq<real>, sin: seq<real>)
    requires |cos| == |sin| == half && |x| >= 2 * half
    ensures var t := Turned(x[..half], x[half..2 * half], cos, sin);
            RotatePartial(half, x, cos, sin) == (t.0 + t.1) + x[2 * half..]
  {
    var t := Turned(x[..half], x[half..2 * half], cos, sin);
    if half == 0 {
      assert (t.0 + t.1) + x[0..] == x;
    } else {
      var first := seq(half, k requires 0 <= k < half => x[k] * cos[k] - x[half + k] * sin[k]);
      var second := seq(half, k requires 0 <= k < half => x[k] * sin[k] + x[half + k] * cos[k]);
      forall k | 0 <= k < half ensures first[k] == t.0[k] && second[k] == t.1[k] {
        assert x[..half][k] == x[k] && x[half..2 * half][k] == x[half + k];
      }
      assert first == t.0 && second == t.1;
    }
  }

  /** At each index, the angle of `d` is that of `a` less that of `b`. */
  ghost predicate Difference(a: (Vec, Vec), b: (Vec, Vec), d: (Vec, Vec), n: nat) {
    && |a.0| == |a.1| == |b.0| == |b.1| == |d.0| == |d.1| == n
    && (forall k :: 0 <= k < n ==> DifferenceAt(a, b, d, k))
  }

  ghost predicate DifferenceAt(a: (Vec, Vec), b: (Vec, Vec), d: (Vec, Vec), k: nat)
    requires k < |a.0| && k < |a.1| && k < |b.0| && k < |b.1| && k < |d.0| && k < |d.1|
  {
    d.0[k] == a.0[k] * b.0[k] + a.1[k] * b.1[k] && d.1[k] == a.1[k] * b.0[k] - a.0[k] * b.1[k]
  }

  lemma DifferenceInit(a: (Vec, Vec), b: (Vec, Vec), d: (Vec, Vec), n: nat)
    requires Difference(a, b, d, n + 1)
    ensures Difference((a.0[..n], a.1[..n]), (b.0[..n], b.1[..n]), (d.0[..n], d.1[..n]), n)
    ensures DifferenceAt(a, b, d, n)
  {
    hide DifferenceAt;
    forall k: nat | k < n
      ensures DifferenceAt((a.0[..n], a.1[..n]), (b.0[..n], b.1[..n]), (d.0[..n], d.1[..n]), k)
    {
      SameDifference(a, b, d, n, k);
    }
  }

  lemma SameDifference(a: (Vec, Vec), b: (Vec, Vec), d: (Vec, Vec), n: nat, k: nat)
    requires Difference(a, b, d, n + 1) && k < n
    ensures DifferenceAt((a.0[..n], a.1[..n]), (b.0[..n], b.1[..n]), (d.0[..n], d.1[..n]), k)
  {
    assert DifferenceAt(a, b, d, k);
  }

  /** Turning both by their angles is turning the first by the difference. */
  lemma {:induction false} DotOfTurned(x: Vec, y: Vec, u: Vec, w: Vec, a: (Vec, Vec), b: (Vec, Vec), d: (Vec, Vec))
    requires |x| == |y| == |u| == |w| && Difference(a, b, d, |x|)
    ensures Dot(Turned(x, y, a.0, a.1).0, Turned(u, w, b.0, b.1).0)
          + Dot(Turned(x, y, a.0, a.1).1, Turned(u, w, b.0, b.1).1)
         == Dot(Turned(x, y, d.0, d.1).0, u) + Dot(Turned(x, y, d.0, d.1).1, w)
  {
    if x != [] {
      hide DifferenceAt;
      var n := |x| - 1;
      DifferenceInit(a, b, d, n);
      DotOfTurned(x[..n], y[..n], u[..n], w[..n], (a.0[..n], a.1[..n]), (b.0[..n], b.1[..n]), (d.0[..n], d.1[..n]));
      hide Turned, Dot, Times, Difference;
      LastPair(x, y, u, w, a, b, d);
      var s, t, v := Turned(x, y, a.0, a.1), Turned(u, w, b.0, b.1), Turned(x, y, d.0, d.1);
      DotLast(s.0, t.0);
      DotLast(s.1, t.1);
      DotLast(v.0, u);
      DotLast(v.1, w);
    }
  }

  lemma LastPair(x: Vec, y: Vec, u: Vec, w: Vec, a: (Vec, Vec), b: (Vec, Vec), d: (Vec, Vec))
    requires |x| == |y| == |u| == |w| == |a.0| == |a.1| == |b.0| == |b.1| == |d.0| == |d.1| > 0
    requires DifferenceAt(a, b, d, |x| - 1)
    ensures var n, s, t := |x| - 1, Turned(x, y, a.0, a.1), Turned(u, w, b.0, b.1);
            var v := Turned(x, y, d.0, d.1);
            && Times(s.0[n], t.0[n]) + Times(s.1[n], t.1[n]) == Times(v.0[n], u[n]) + Times(v.1[n], w[n])
            && (s.0[..n], s.1[..n]) == Turned(x[..n], y[..n], a.0[..n], a.1[..n])
            && (t.0[..n], t.1[..n]) == Turned(u[..n], w[..n], b.0[..n], b.1[..n])
            && (v.0[..n], v.1[..n]) == Turned(x[..n], y[..n], d.0[..n], d.1[..n])
  {
    hide Turned;
    var n := |x| - 1;
    TurnedLast(x, y, a.0, a.1);
    TurnedLast(u, w, b.0, b.1);
    TurnedLast(x, y, d.0, d.1);
    OnePair(x[n], y[n], u[n], w[n], a.0[n], a.1[n], b.0[n], b.1[n]);
  }

  lemma {:induction false} DotLast(a: Vec, b: Vec)
    requires |a| == |b| > 0
    ensures var n := |a| - 1; Dot(a, b) == Dot(a[..n], b[..n]) + Times(a[n], b[n])
  {
    hide Times;
  }

  lemma TurnedLast(x: Vec, y: Vec, cos: seq<real>, sin: seq<real>)
    requires |x| == |y| == |cos| == |sin| > 0
    ensures var n, t := |x| - 1, Turned(x, y, cos, sin);
            var init := Turned(x[..n], y[..n], cos[..n], sin[..n]);
            && t.0[..n] == init.0 && t.1[..n] == init.1
            && t.0[n] == x[n] * cos[n] - y[n] * sin[n] && t.1[n] == x[n] * sin[n] + y[n] * cos[n]
  {
    var n, t := |x| - 1, Turned(x, y, cos, sin);
    var init := Turned(x[..n], y[..n], cos[..n], sin[..n]);
    assert t.0[..n] == init.0 by {
      assert forall k :: 0 <= k < n ==> t.0[..n][k] == init.0[k];
    }
    assert t.1[..n] == init.1 by {
      assert forall k :: 0 <= k < n ==> t.1[..n][k] == init.1[k];
    }
  }

  lemma OnePair(x: real, y: real, u: real, w: real, c: real, s: real, e: real, t: real)
    ensures (x * c - y * s) * (u * e - w * t) + (x * s + y * c) * (u * t + w * e)
         == (x * (c * e + s * t) - y * (s * e - c * t)) * u + (x * (s * e - c * t) + y * (c * e + s * t)) * w
  {
  }

  /** A head at a position. */
  function RotatedAt(r: Rope, x: Vec, position: nat): Vec {
    RotatePartial(r.rotaryHalf, x, AngleRow(r, r.cos, position), AngleRow(r, r.sin, position))
  }

  /** Its three parts: two turned halves and the rest. */
  lemma RotatedParts(r: Rope, x: Vec, position: nat, other: Vec)
    requires |x| == |other| >= 2 * r.rotaryHalf
    ensures var half := r.rotaryHalf;
            var t := Turned(x[..half], x[half..2 * half], AngleRow(r, r.cos, position), AngleRow(r, r.sin, position));
            && RotatedAt(r, x, position) == (t.0 + t.1) + x[2 * half..]
            && other == (other[..half] + other[half..2 * half]) + other[2 * half..]
  {
    RotateIsTurned(r.rotaryHalf, x, AngleRow(r, r.cos, position), AngleRow(r, r.sin, position));
  }

  lemma {:induction false} DotOfParts(a: Vec, b: Vec, c: Vec, x: Vec, y: Vec, z: Vec)
    requires |a| == |x| && |b| == |y| && |c| == |z|
    ensures Dot((a + b) + c, (x + y) + z) == Dot(a, x) + Dot(b, y) + Dot(c, z)
  {
    DotAppend(a + b, c, x + y, z);
    DotAppend(a, b, x, y);
  }

  /** The score of a rotated query and a rotated key depends on how far apart their positions are, not on where. */
  lemma ScoresAreRelative(r: Rope, q: Vec, k: Vec, m: nat, n: nat)
    requires Trigonometric(r) && n <= m && |q| == |k|
    ensures |q| < 2 * r.rotaryHalf ==> Dot(RotatedAt(r, q, m), RotatedAt(r, k, n)) == Dot(q, k)
    ensures |q| >= 2 * r.rotaryHalf ==>
              Dot(RotatedAt(r, q, m), RotatedAt(r, k, n)) == Dot(RotatedAt(r, q, m - n), k)
  {
    if |q| >= 2 * r.rotaryHalf {
      hide RotatedAt, Turned, Dot, AngleRow, Trigonometric, Difference;
      var half := r.rotaryHalf;
      var a, b := (AngleRow(r, r.cos, m), AngleRow(r, r.sin, m)), (AngleRow(r, r.cos, n), AngleRow(r, r.sin, n));
      var d := (AngleRow(r, r.cos, m - n), AngleRow(r, r.sin, m - n));
      var x, y, u, w := q[..half], q[half..2 * half], k[..half], k[half..2 * half];
      AnglesDiffer(r, m, n);
      RotatedParts(r, q, m, k);
      RotatedParts(r, k, n, q);
      RotatedParts(r, q, m - n, k);
      DotOfTurned(x, y, u, w, a, b, d);
      var s, t, v := Turned(x, y, a.0, a.1), Turned(u, w, b.0, b.1), Turned(x, y, d.0, d.1);
      DotOfParts(s.0, s.1, q[2 * half..], t.0, t.1, k[2 * half..]);
      DotOfParts(v.0, v.1, q[2 * half..], u, w, k[2 * half..]);
    }
  }

  /** So it is for every head and every group of rotated rows, whose shape stays. */
  lemma RowsAreRelative(r: Rope, q: Heads, k: Heads, m: nat, n: nat, h: nat, g: nat)
    requires Trigonometric(r) && n <= m && h < |q| && g < |k| && |q[h]| == |k[g]| >= 2 * r.rotaryHalf
    ensures |RotateAt(r, q, m)| == |q| && |RotateAt(r, k, n)| == |k|
    ensures Dot(RotateAt(r, q, m)[h], RotateAt(r, k, n)[g]) == Dot(RotatedAt(r, q[h], m - n), k[g])
  {
    hide RotatePartial, AngleRow, Dot, Trigonometric;
    ScoresAreRelative(r, q[h], k[g], m, n);
  }

  lemma AnglesDiffer(r: Rope, m: nat, n: nat)
    requires Trigonometric(r) && n <= m
    ensures Difference((AngleRow(r, r.cos, m), AngleRow(r, r.sin, m)), (AngleRow(r, r.cos, n), AngleRow(r, r.sin, n)),
                       (AngleRow(r, r.cos, m - n), AngleRow(r, r.sin, m - n)), r.rotaryHalf)
  {
    forall k: nat | k < r.rotaryHalf
      ensures (m - n) as real * r.invFreq(k) == m as real * r.invFreq(k) - n as real * r.invFreq(k)
    {
      Distributes((m - n) as real, n as real, r.invFreq(k));
      assert (m - n) as real + n as real == m as real;
    }
  }
}
