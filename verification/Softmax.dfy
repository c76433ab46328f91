/** Attention weights: the masked softmax of a row of scores, and the mix of values it makes. */
module Softmax {
  type Vec = seq<real>

  // A score is a number, or minus infinity where the causal mask was added.
  datatype Score = NegInf | Fin(value: real)

  ghost predicate PositiveFn(exp: real -> real) { forall x :: exp(x) > 0.0 }

  /** The largest finite score. */
  function MaxOf(ss: seq<Score>): Score {
    if ss == [] then NegInf
    else
      var m := MaxOf(ss[..|ss| - 1]);
      match ss[|ss| - 1]
      case NegInf => m
      case Fin(r) => if m.Fin? && m.value > r then m else Fin(r)
  }

  /** `exp(s - max)`, which is zero for minus infinity. */
  function Exp(exp: real -> real, s: Score, max: Score): real {
    if s.Fin? && max.Fin? then exp(s.value - max.value) else 0.0
  }

  function ExpSum(exp: real -> real, ss: seq<Score>, max: Score): real {
    if ss == [] then 0.0 else ExpSum(exp, ss[..|ss| - 1], max) + Exp(exp, ss[|ss| - 1], max)
  }

  // The quotient is not a number when every score is minus infinity, which a causal row never is.
  function Weight(exp: real -> real, s: Score, max: Score, total: real): real {
    if total == 0.0 then 0.0 else Exp(exp, s, max) / total
  }

  /** The softmax of a row, with its maximum subtracted first. */
  function SoftmaxRow(exp: real -> real, ss: seq<Score>): (ws: seq<real>)
    ensures |ws| == |ss|
  {
    var max := MaxOf(ss);
    var total := ExpSum(exp, ss, max);
    seq(|ss|, i requires 0 <= i < |ss| => Weight(exp, ss[i], max, total))
  }

  function Zero(d: nat): Vec { seq(d, i => 0.0) }

  function AddScaled(acc: Vec, w: real, v: Vec): (r: Vec)
    ensures |r| == |acc|
  {
    seq(|acc|, i requires 0 <= i < |acc| => acc[i] + w * (if i < |v| then v[i] else 0.0))
  }

  /** The weighted sum of the value vectors. */
  function Mix(ws: seq<real>, vs: seq<Vec>, d: nat): Vec
    requires |ws| == |vs|
  {
    if ws == [] then Zero(d)
    else AddScaled(Mix(ws[..|ws| - 1], vs[..|vs| - 1], d), ws[|ws| - 1], vs[|vs| - 1])
  }

  // === Masked scores weigh nothing ===

  /** The first `keep` scores, and minus infinity after them. */
  function Masked(scores: seq<real>, keep: nat): (ss: seq<Score>)
    ensures |ss| == |scores|
  {
    seq(|scores|, j requires 0 <= j < |scores| => if j < keep then Fin(scores[j]) else NegInf)
  }

  lemma MaskedInit(scores: seq<real>, keep: nat)
    requires scores != []
    ensures Masked(scores, keep)[..|scores| - 1] == Masked(scores[..|scores| - 1], keep)
  {
  }

  lemma {:induction false} MaskedMax(scores: seq<real>, keep: nat)
    requires keep <= |scores|
    ensures MaxOf(Masked(scores, keep)) == MaxOf(Masked(scores[..keep], keep))
  {
    if keep < |scores| {
      var init := scores[..|scores| - 1];
      MaskedInit(scores, keep);
      MaskedMax(init, keep);
      assert init[..keep] == scores[..keep];
    } else {
      assert scores[..keep] == scores;
    }
  }

  lemma {:induction false} MaskedSum(exp: real -> real, scores: seq<real>, keep: nat, max: Score)
    requires keep <= |scores|
    ensures ExpSum(exp, Masked(scores, keep), max) == ExpSum(exp, Masked(scores[..keep], keep), max)
  {
    if keep < |scores| {
      var init := scores[..|scores| - 1];
      MaskedInit(scores, keep);
      MaskedSum(exp, init, keep, max);
      assert init[..keep] == scores[..keep];
    } else {
      assert scores[..keep] == scores;
    }
  }

  lemma {:induction false} MixIgnoresZeros(ws: seq<real>, vs: seq<Vec>, keep: nat, d: nat)
    requires |ws| == |vs| && keep <= |ws|
    requires forall j :: keep <= j < |ws| ==> ws[j] == 0.0
    ensures Mix(ws, vs, d) == Mix(ws[..keep], vs[..keep], d)
  {
    if keep < |ws| {
      var n := |ws| - 1;
      MixIgnoresZeros(ws[..n], vs[..n], keep, d);
      assert ws[..n][..keep] == ws[..keep] && vs[..n][..keep] == vs[..keep];
      AddNothing(Mix(ws[..n], vs[..n], d), vs[n]);
    } else {
      assert ws[..keep] == ws && vs[..keep] == vs;
    }
  }

  lemma AddNothing(acc: Vec, v: Vec)
    ensures AddScaled(acc, 0.0, v) == acc
  {
    forall i | 0 <= i < |acc| ensures AddScaled(acc, 0.0, v)[i] == acc[i] {
      var x := if i < |v| then v[i] else 0.0;
      assert 0.0 * x == 0.0;
    }
  }

  /** A masked row over all keys mixes exactly what a plain row over the visible keys mixes. */
  lemma {:induction false} MaskedRowIsPlainRow(exp: real -> real, scores: seq<real>, keep: nat, vs: seq<Vec>, d: nat)
    requires keep <= |scores| == |vs|
    ensures Mix(SoftmaxRow(exp, Masked(scores, keep)), vs, d)
         == Mix(SoftmaxRow(exp, Masked(scores[..keep], keep)), vs[..keep], d)
  {
    var all, visible := Masked(scores, keep), Masked(scores[..keep], keep);
    var max := MaxOf(all);
    MaskedMax(scores, keep);
    MaskedSum(exp, scores, keep, max);
    var ws := SoftmaxRow(exp, all);
    assert ws[..keep] == SoftmaxRow(exp, visible);
    MixIgnoresZeros(ws, vs, keep, d);
  }

  // === A softmax is a distribution ===

  function Total(ws: seq<real>): real { if ws == [] then 0.0 else Total(ws[..|ws| - 1]) + ws[|ws| - 1] }

  lemma {:induction false} MaxIsFinite(scores: seq<real>, keep: nat)
    requires 0 < keep && scores != []
    ensures MaxOf(Masked(scores, keep)).Fin?
  {
    MaskedInit(scores, keep);
    if |scores| > 1 {
      MaxIsFinite(scores[..|scores| - 1], keep);
    }
  }

  lemma {:induction false} SumIsPositive(exp: real -> real, ss: seq<Score>, max: Score)
    requires PositiveFn(exp) && max.Fin?
    ensures ExpSum(exp, ss, max) >= 0.0
    ensures ss != [] && ss[0].Fin? ==> ExpSum(exp, ss, max) > 0.0
  {
    if ss != [] {
      SumIsPositive(exp, ss[..|ss| - 1], max);
    }
  }

  lemma {:induction false} TotalDivides(exp: real -> real, ss: seq<Score>, max: Score, total: real, ws: seq<real>)
    requires total > 0.0 && |ws| == |ss|
    requires forall i :: 0 <= i < |ss| ==> ws[i] == Exp(exp, ss[i], max) / total
    ensures Total(ws) == ExpSum(exp, ss, max) / total
  {
    if ss != [] {
      var n := |ss| - 1;
      TotalDivides(exp, ss[..n], max, total, ws[..n]);
      AddQuotients(ExpSum(exp, ss[..n], max), Exp(exp, ss[n], max), total);
    }
  }

  lemma AddQuotients(a: real, b: real, c: real)
    requires c > 0.0
    ensures a / c + b / c == (a + b) / c
  {
  }

  /** The weights of a causal row add up to one, and hidden positions get none. */
  lemma WeightsAreADistribution(exp: real -> real, scores: seq<real>, keep: nat)
    requires PositiveFn(exp) && 0 < keep && scores != []
    ensures var ws := SoftmaxRow(exp, Masked(scores, keep));
            && Total(ws) == 1.0
            && (forall j :: 0 <= j < |ws| ==> (ws[j] > 0.0 <==> j < keep))
            && (forall j :: 0 <= j < |ws| ==> ws[j] >= 0.0)
  {
    var ss := Masked(scores, keep);
    MaxIsFinite(scores, keep);
    var max := MaxOf(ss);
    SumIsPositive(exp, ss, max);
    var total := ExpSum(exp, ss, max);
    var ws := SoftmaxRow(exp, ss);
    assert ss[0].Fin?;
    TotalDivides(exp, ss, max, total, ws);
    SelfQuotient(total);
    forall j | 0 <= j < |ws| ensures ws[j] >= 0.0 && (ws[j] > 0.0 <==> j < keep) {
      if j < keep {
        PositiveQuotient(Exp(exp, ss[j], max), total);
      }
    }
  }

  lemma SelfQuotient(c: real)
    requires c > 0.0
    ensures c / c == 1.0
  {
  }

  lemma PositiveQuotient(a: real, c: real)
    requires a > 0.0 && c > 0.0
    ensures a / c > 0.0
  {
  }

  // === Which weights they are ===

  ghost predicate IncreasingFn(exp: real -> real) { forall x, y :: x < y ==> exp(x) < exp(y) }

  ghost predicate TurnsSumsIntoProducts(exp: real -> real) { forall x, y :: exp(x + y) == exp(x) * exp(y) }

  lemma ProductOf(exp: real -> real, x: real, y: real)
    requires TurnsSumsIntoProducts(exp)
    ensures exp(x + y) == exp(x) * exp(y)
  {
  }

  /** What is subtracted from the scores is the largest of them, so no exponent is positive. */
  lemma {:induction false} MaxIsLargest(ss: seq<Score>)
    ensures MaxOf(ss).NegInf? ==> forall i :: 0 <= i < |ss| ==> ss[i].NegInf?
    ensures MaxOf(ss).Fin? ==> MaxOf(ss) in ss
    ensures forall i :: 0 <= i < |ss| && ss[i].Fin? ==> MaxOf(ss).Fin? && ss[i].value <= MaxOf(ss).value
  {
    if ss != [] {
      var init, last := ss[..|ss| - 1], ss[|ss| - 1];
      MaxIsLargest(init);
      assert ss == init + [last];
    }
  }

  /** A score's part of a softmax without any maximum: `exp(s)`, and nothing for minus infinity. */
  function Plain(exp: real -> real, s: Score): real { if s.Fin? then exp(s.value) else 0.0 }

  function PlainSum(exp: real -> real, ss: seq<Score>): real {
    if ss == [] then 0.0 else PlainSum(exp, ss[..|ss| - 1]) + Plain(exp, ss[|ss| - 1])
  }

  lemma ExpIsPlain(exp: real -> real, s: Score, m: real)
    requires TurnsSumsIntoProducts(exp)
    ensures Exp(exp, s, Fin(m)) * exp(m) == Plain(exp, s)
  {
    hide TurnsSumsIntoProducts;
    if s.Fin? {
      ProductOf(exp, s.value - m, m);
      assert (s.value - m) + m == s.value;
    }
  }

  lemma {:induction false} ExpSumIsPlain(exp: real -> real, ss: seq<Score>, m: real)
    requires TurnsSumsIntoProducts(exp)
    ensures ExpSum(exp, ss, Fin(m)) * exp(m) == PlainSum(exp, ss)
  {
    hide TurnsSumsIntoProducts, Exp, Plain;
    if ss != [] {
      var n := |ss| - 1;
      ExpSumIsPlain(exp, ss[..n], m);
      ExpIsPlain(exp, ss[n], m);
      Distributes(ExpSum(exp, ss[..n], Fin(m)), Exp(exp, ss[n], Fin(m)), exp(m));
    }
  }

  lemma Distributes(a: real, b: real, c: real)
    ensures (a + b) * c == a * c + b * c
  {
  }

  /**
   * For an exponential, subtracting the maximum changes nothing: each weight is its own `exp(s)`
   * divided by the sum of all of them.
   */
  lemma {:induction false} SoftmaxIsPlain(exp: real -> real, ss: seq<Score>, i: nat)
    requires PositiveFn(exp) && TurnsSumsIntoProducts(exp) && i < |ss| && MaxOf(ss).Fin?
    ensures PlainSum(exp, ss) > 0.0
    ensures SoftmaxRow(exp, ss)[i] * PlainSum(exp, ss) == Plain(exp, ss[i])
  {
    hide TurnsSumsIntoProducts, ExpSum, PlainSum, MaxOf, Exp, Plain;
    var max := MaxOf(ss);
    var total, e := ExpSum(exp, ss, max), exp(max.value);
    MaxIsLargest(ss);
    var t :| 0 <= t < |ss| && ss[t] == max;
    SumHasPositive(exp, ss, max, t);
    ExpSumIsPlain(exp, ss, max.value);
    ExpIsPlain(exp, ss[i], max.value);
    PositiveProduct(total, e);
    QuotientCancels(Exp(exp, ss[i], max), total, e);
  }

  lemma {:induction false} SumHasPositive(exp: real -> real, ss: seq<Score>, max: Score, t: nat)
    requires PositiveFn(exp) && max.Fin? && t < |ss| && ss[t].Fin?
    ensures ExpSum(exp, ss, max) > 0.0
  {
    var n := |ss| - 1;
    SumIsPositive(exp, ss[..n], max);
    if t < n {
      SumHasPositive(exp, ss[..n], max, t);
    }
  }

  lemma PositiveProduct(a: real, b: real)
    requires a > 0.0 && b > 0.0
    ensures a * b > 0.0
  {
  }

  lemma QuotientCancels(a: real, b: real, c: real)
    requires b != 0.0
    ensures (a / b) * (b * c) == a * c
  {
    assert (a / b) * b == a;
    assert (a / b) * (b * c) == ((a / b) * b) * c;
  }

  /** A larger score has a larger weight. */
  lemma LargerScoreWeighsMore(exp: real -> real, ss: seq<Score>, i: nat, j: nat)
    requires PositiveFn(exp) && IncreasingFn(exp) && i < |ss| && j < |ss| && ss[i].Fin? && ss[j].Fin?
    ensures SoftmaxRow(exp, ss)[i] < SoftmaxRow(exp, ss)[j] <==> ss[i].value < ss[j].value
  {
    MaxIsLargest(ss);
    var max := MaxOf(ss);
    var total := ExpSum(exp, ss, max);
    SumHasPositive(exp, ss, max, i);
    QuotientOrder(Exp(exp, ss[i], max), Exp(exp, ss[j], max), total);
    assert ss[i].value < ss[j].value ==> ss[i].value - max.value < ss[j].value - max.value;
    assert ss[i].value > ss[j].value ==> ss[i].value - max.value > ss[j].value - max.value;
  }

  lemma QuotientOrder(a: real, b: real, c: real)
    requires c > 0.0
    ensures a / c < b / c <==> a < b
  {
    assert (a / c) * c == a && (b / c) * c == b;
    if a / c < b / c {
      ScaledOrder(a / c, b / c, c);
    }
    if a / c > b / c {
      ScaledOrder(b / c, a / c, c);
    }
  }

  lemma ScaledOrder(a: real, b: real, c: real)
    requires a < b && c > 0.0
    ensures a * c < b * c
  {
    PositiveProduct(b - a, c);
    assert (b - a) * c == b * c - a * c;
  }

  // === Which mix they make ===

  /** Coordinate `c` of the values, each weighed by its own `exp(s)`. */
  function PlainMix(exp: real -> real, ss: seq<Score>, vs: seq<Vec>, c: nat): real
    requires |ss| == |vs|
  {
    if ss == [] then 0.0
    else
      var n := |ss| - 1;
      PlainMix(exp, ss[..n], vs[..n], c) + Plain(exp, ss[n]) * (if c < |vs[n]| then vs[n][c] else 0.0)
  }

  lemma {:induction false} MixIs(exp: real -> real, ws: seq<real>, total: real, ss: seq<Score>, vs: seq<Vec>, d: nat,
                                 c: nat)
    requires |ws| == |ss| == |vs| && c < d
    requires forall i :: 0 <= i < |ss| ==> ws[i] * total == Plain(exp, ss[i])
    ensures |Mix(ws, vs, d)| == d && Mix(ws, vs, d)[c] * total == PlainMix(exp, ss, vs, c)
  {
    if ss != [] {
      var n := |ss| - 1;
      MixIs(exp, ws[..n], total, ss[..n], vs[..n], d, c);
      var x := if c < |vs[n]| then vs[n][c] else 0.0;
      Distributes(Mix(ws[..n], vs[..n], d)[c], ws[n] * x, total);
      assert (ws[n] * x) * total == (ws[n] * total) * x;
    }
  }

  /** The softmax mix of values is their mean, weighed by the exponentials of the scores. */
  lemma {:induction false} SoftmaxMixIs(exp: real -> real, ss: seq<Score>, vs: seq<Vec>, d: nat, c: nat)
    requires PositiveFn(exp) && TurnsSumsIntoProducts(exp) && |ss| == |vs| && MaxOf(ss).Fin? && c < d
    ensures PlainSum(exp, ss) > 0.0 && |Mix(SoftmaxRow(exp, ss), vs, d)| == d
    ensures Mix(SoftmaxRow(exp, ss), vs, d)[c] * PlainSum(exp, ss) == PlainMix(exp, ss, vs, c)
  {
    hide SoftmaxRow, MaxOf, PlainSum, Plain, Mix, PlainMix;
    var ws := SoftmaxRow(exp, ss);
    forall i | 0 <= i < |ss| ensures ws[i] * PlainSum(exp, ss) == Plain(exp, ss[i]) {
      SoftmaxIsPlain(exp, ss, i);
    }
    MaxIsLargest(ss);
    assert |ss| > 0;
    SoftmaxIsPlain(exp, ss, 0);
    MixIs(exp, ws, PlainSum(exp, ss), ss, vs, d, c);
  }
}
