/** Drawing the next token: temperature, repetition penalty, top-k, nucleus, and one random number. */
module Sampling {
  import opened Softmax

  // === Repetition penalty ===

  function Penalty(x: real, penalty: real): real
    requires penalty != 0.0
  {
    if x > 0.0 then x / penalty else x * penalty
  }

  /** Every token that occurred is penalised once, however often it occurred. */
  method Penalize(logits: seq<real>, tokens: seq<nat>, penalty: real) returns (out: seq<real>)
    requires penalty != 0.0
    ensures |out| == |logits|
    ensures forall t :: 0 <= t < |out| ==> out[t] == if t in tokens then Penalty(logits[t], penalty) else logits[t]
  {
    out := logits;
    var seen := seq(|logits|, _ => false);
    for i := 0 to |tokens|
      invariant |out| == |seen| == |logits|
      invariant forall t :: 0 <= t < |out| ==> (seen[t] <==> t in tokens[..i])
      invariant forall t :: 0 <= t < |out| ==> out[t] == if seen[t] then Penalty(logits[t], penalty) else logits[t]
    {
      var t := tokens[i];
      assert tokens[..i + 1] == tokens[..i] + [t];
      if t < |logits| && !seen[t] {
        seen := seen[t := true];
        out := out[t := Penalty(out[t], penalty)];
      }
    }
    assert tokens[..|tokens|] == tokens;
  }

  // === Sorting tokens ===

  /** Token numbers below the size of the vocabulary. */
  predicate Within(order: seq<nat>, vocab: nat) { forall i :: 0 <= i < |order| ==> order[i] < vocab }

  ghost predicate Descending(key: seq<real>, order: seq<nat>) {
    && Within(order, |key|)
    && (forall i, j :: 0 <= i < j < |order| ==> key[order[i]] >= key[order[j]])
  }

  ghost predicate AllDistinct(order: seq<nat>) { forall i, j :: 0 <= i < j < |order| ==> order[i] != order[j] }

  /** Behind everything that is not smaller, so that equal keys keep their order. */
  function Insert(key: seq<real>, order: seq<nat>, t: nat): (r: seq<nat>)
    requires t < |key| && Within(order, |key|)
    ensures multiset(r) == multiset(order) + multiset{t}
  {
    var last := |order| - 1;
    if order == [] || key[order[last]] >= key[t] then order + [t]
    else
      assert order == order[..last] + [order[last]];
      Insert(key, order[..last], t) + [order[last]]
  }

  lemma {:induction false} InsertWithin(key: seq<real>, order: seq<nat>, t: nat)
    requires t < |key| && Within(order, |key|)
    ensures Within(Insert(key, order, t), |key|)
  {
    var last := |order| - 1;
    if order != [] && key[order[last]] < key[t] {
      InsertWithin(key, order[..last], t);
    }
  }

  /** A stable sort, the largest key first. */
  function Sorted(key: seq<real>, order: seq<nat>): (r: seq<nat>)
    requires Within(order, |key|)
    ensures multiset(r) == multiset(order) && Within(r, |key|)
  {
    if order == [] then []
    else
      var last := |order| - 1;
      var init := Sorted(key, order[..last]);
      assert order == order[..last] + [order[last]];
      InsertWithin(key, init, order[last]);
      Insert(key, init, order[last])
  }

  lemma Members(a: seq<nat>, b: seq<nat>)
    requires multiset(a) == multiset(b)
    ensures forall x :: x in a <==> x in b
    ensures |a| == |b|
  {
    assert |multiset(a)| == |a| && |multiset(b)| == |b|;
    forall x ensures x in a <==> x in b {
      assert x in a <==> x in multiset(a);
      assert x in b <==> x in multiset(b);
    }
  }

  lemma {:induction false} InsertDescending(key: seq<real>, order: seq<nat>, t: nat)
    requires Descending(key, order) && t < |key|
    ensures Descending(key, Insert(key, order, t))
  {
    var last := |order| - 1;
    var r := Insert(key, order, t);
    if order != [] && key[order[last]] < key[t] {
      var init := order[..last];
      InsertDescending(key, init, t);
      var s := Insert(key, init, t);
      Members(s, init + [t]);
      forall i | 0 <= i < |s| ensures key[s[i]] >= key[order[last]] {
        assert s[i] in init + [t];
      }
    }
  }

  lemma {:induction false} SortedDescending(key: seq<real>, order: seq<nat>)
    requires Within(order, |key|)
    ensures Descending(key, Sorted(key, order))
  {
    if order != [] {
      var last := |order| - 1;
      SortedDescending(key, order[..last]);
      InsertDescending(key, Sorted(key, order[..last]), order[last]);
    }
  }

  lemma DistinctPermutation(a: seq<nat>, b: seq<nat>)
    requires multiset(a) == multiset(b) && AllDistinct(a)
    ensures AllDistinct(b)
  {
    forall i, j | 0 <= i < j < |b| ensures b[i] != b[j] {
      if b[i] == b[j] {
        var x := b[i];
        Twice(b, i, j);
        assert multiset(a)[x] >= 2;
        OnlyOnce(a, x);
      }
    }
  }

  lemma Twice(s: seq<nat>, i: nat, j: nat)
    requires i < j < |s| && s[i] == s[j]
    ensures multiset(s)[s[i]] >= 2
  {
    assert s == s[..j] + s[j..];
    assert s[i] == s[..j][i] && s[j] == s[j..][0];
    assert s[i] in multiset(s[..j]) && s[j] in multiset(s[j..]);
  }

  lemma {:induction false} OnlyOnce(s: seq<nat>, x: nat)
    requires AllDistinct(s)
    ensures multiset(s)[x] <= 1
  {
    if s != [] {
      var last := |s| - 1;
      assert s == s[..last] + [s[last]];
      OnlyOnce(s[..last], x);
      if s[last] == x {
        assert forall i :: 0 <= i < last ==> s[..last][i] != x;
        assert x !in s[..last];
      }
    }
  }

  // === Top-k ===

  function UpTo(n: nat): (r: seq<nat>)
    ensures |r| == n && forall i :: 0 <= i < n ==> r[i] == i
  {
    seq(n, i => i)
  }

  /** The tokens that stay, in the order the code holds them. */
  function TopK(logits: seq<real>, k: nat): (kept: seq<nat>)
    ensures Within(kept, |logits|)
  {
    if 0 < k < |logits| then
      var order := Sorted(logits, UpTo(|logits|));
      assert |multiset(order)| == |multiset(UpTo(|logits|))|;
      order[..k]
    else UpTo(|logits|)
  }

  /** Top-k keeps the right number of different tokens, and none that stays is below one that goes. */
  lemma TopKIsTop(logits: seq<real>, k: nat)
    ensures var kept := TopK(logits, k);
            && |kept| == (if 0 < k < |logits| then k else |logits|) && AllDistinct(kept)
            && (forall s: nat, t: nat :: s in kept && t < |logits| && t !in kept ==> logits[s] >= logits[t])
  {
    var all := UpTo(|logits|);
    if 0 < k < |logits| {
      var order := Sorted(logits, all);
      SortedDescending(logits, all);
      DistinctPermutation(all, order);
      Members(all, order);
      forall s: nat, t: nat | s in order[..k] && t < |logits| && t !in order[..k] ensures logits[s] >= logits[t] {
        assert all[t] == t && t in all;
        LargerFirst(logits, order, k, s, t);
      }
    } else {
      forall t: nat | t < |logits| ensures t in all {
        assert all[t] == t;
      }
    }
  }

  lemma LargerFirst(key: seq<real>, order: seq<nat>, k: nat, s: nat, t: nat)
    requires Descending(key, order) && k <= |order| && s in order[..k] && t in order && t !in order[..k]
    ensures key[s] >= key[t]
  {
    assert forall m :: 0 <= m < k ==> order[..k][m] == order[m];
    var i :| 0 <= i < k && order[..k][i] == s;
    var j :| 0 <= j < |order| && order[j] == t;
  }

  /** What is left of the logits: minus infinity for the tokens that go. */
  function Left(logits: seq<real>, kept: seq<nat>): (ss: seq<Score>)
    ensures |ss| == |logits|
  {
    seq(|logits|, t requires 0 <= t < |logits| => if t in kept then Fin(logits[t]) else NegInf)
  }

  // === Probabilities ===

  /** Weights that are positive exactly on `kept`, and zero elsewhere. */
  ghost predicate PositiveOn(ws: seq<real>, kept: seq<nat>) {
    forall t :: 0 <= t < |ws| ==> if t in kept then ws[t] > 0.0 else ws[t] == 0.0
  }

  lemma {:induction false} MaxFinite(ss: seq<Score>, t: nat)
    requires t < |ss| && ss[t].Fin?
    ensures MaxOf(ss).Fin?
  {
    var n := |ss| - 1;
    if t < n {
      MaxFinite(ss[..n], t);
    }
  }

  lemma {:induction false} SumPositive(exp: real -> real, ss: seq<Score>, max: Score, t: nat)
    requires PositiveFn(exp) && max.Fin? && t < |ss| && ss[t].Fin?
    ensures ExpSum(exp, ss, max) > 0.0
  {
    var n := |ss| - 1;
    SumIsPositive(exp, ss[..n], max);
    if t < n {
      SumPositive(exp, ss[..n], max, t);
    }
  }

  /** The softmax of what is left is a distribution over the tokens that stay. */
  lemma ProbabilitiesOfKept(exp: real -> real, logits: seq<real>, kept: seq<nat>)
    requires PositiveFn(exp) && kept != [] && Within(kept, |logits|)
    ensures var ws := SoftmaxRow(exp, Left(logits, kept));
            Total(ws) == 1.0 && PositiveOn(ws, kept)
  {
    var ss := Left(logits, kept);
    assert kept[0] in kept;
    MaxFinite(ss, kept[0]);
    var max := MaxOf(ss);
    SumPositive(exp, ss, max, kept[0]);
    var total := ExpSum(exp, ss, max);
    var ws := SoftmaxRow(exp, ss);
    TotalDivides(exp, ss, max, total, ws);
    SelfQuotient(total);
    forall t | 0 <= t < |ws| ensures if t in kept then ws[t] > 0.0 else ws[t] == 0.0 {
      if t in kept {
        PositiveQuotient(Exp(exp, ss[t], max), total);
      }
    }
  }

  // === The nucleus ===

  function Mass(ws: seq<real>, order: seq<nat>): real
    requires Within(order, |ws|)
  {
    if order == [] then 0.0 else Mass(ws, order[..|order| - 1]) + ws[order[|order| - 1]]
  }

  /** The length of the shortest prefix, from `n` on, with enough mass, or everything. */
  function NucleusFrom(ws: seq<real>, order: seq<nat>, topP: real, n: nat): (m: nat)
    requires Within(order, |ws|) && n <= |order|
    ensures n <= m <= |order|
    ensures m < |order| ==> m > 0 && Mass(ws, order[..m]) >= topP
    ensures forall k :: n <= k < m && k > 0 ==> Mass(ws, order[..k]) < topP
    decreases |order| - n
  {
    if n == |order| || (n > 0 && Mass(ws, order[..n]) >= topP) then n else NucleusFrom(ws, order, topP, n + 1)
  }

  method FindNucleus(ws: seq<real>, order: seq<nat>, topP: real) returns (n: nat)
    requires Within(order, |ws|)
    ensures n == NucleusFrom(ws, order, topP, 0)
  {
    var cum := 0.0;
    n := 0;
    while n < |order|
      invariant n <= |order| && cum == Mass(ws, order[..n])
      invariant NucleusFrom(ws, order, topP, 0) == NucleusFrom(ws, order, topP, n)
      invariant n > 0 ==> cum < topP
    {
      assert order[..n + 1][..n] == order[..n];
      cum := cum + ws[order[n]];
      n := n + 1;
      if cum >= topP {
        break;
      }
    }
  }

  /** The weights outside the nucleus become zero; they are not shared out again. */
  function Cut(ws: seq<real>, kept: seq<nat>): (r: seq<real>)
    ensures |r| == |ws|
  {
    seq(|ws|, t requires 0 <= t < |ws| => if t in kept then ws[t] else 0.0)
  }

  // === The draw ===

  /** The first token of largest weight. */
  ghost predicate FirstLargest(ws: seq<real>, t: nat) {
    && t < |ws| && (forall s :: 0 <= s < |ws| ==> ws[s] <= ws[t])
    && (forall s :: 0 <= s < t ==> ws[s] < ws[t])
  }

  /** `u` falls into the slot of `t`, when the weights are laid end to end. */
  ghost predicate Hits(ws: seq<real>, u: real, t: nat) {
    t < |ws| && Total(ws[..t]) <= u < Total(ws[..t + 1])
  }

  lemma TotalStep(ws: seq<real>, t: nat)
    requires t < |ws|
    ensures Total(ws[..t + 1]) == Total(ws[..t]) + ws[t]
  {
    assert ws[..t + 1][..t] == ws[..t];
  }

  /** The token whose slot is hit, and the most likely one when the weights end before `u`. */
  ghost predicate Drawn(ws: seq<real>, u: real, t: nat) {
    Hits(ws, u, t) || (Total(ws) <= u && FirstLargest(ws, t))
  }

  method Draw(ws: seq<real>, u: real) returns (t: nat)
    requires u >= 0.0
    ensures if ws == [] then t == 0 else Drawn(ws, u, t)
  {
    var cum := 0.0;
    for i := 0 to |ws|
      invariant cum == Total(ws[..i]) && cum <= u
    {
      TotalStep(ws, i);
      cum := cum + ws[i];
      if u < cum {
        return i;
      }
    }
    assert ws[..|ws|] == ws;
    t := 0;
    var i := 1;
    while i < |ws|
      invariant t < i && if ws == [] then t == 0 else i <= |ws|
      invariant ws != [] ==> forall s :: 0 <= s < i ==> ws[s] <= ws[t]
      invariant ws != [] ==> forall s :: 0 <= s < t ==> ws[s] < ws[t]
    {
      if ws[i] > ws[t] {
        t := i;
      }
      i := i + 1;
    }
  }

  /** Only tokens of positive weight are drawn. */
  lemma DrawnIsPositive(ws: seq<real>, kept: seq<nat>, u: real, t: nat)
    requires PositiveOn(ws, kept) && kept != [] && Within(kept, |ws|)
    requires Drawn(ws, u, t)
    ensures t in kept
  {
    assert kept[0] in kept;
    if Hits(ws, u, t) {
      TotalStep(ws, t);
    }
  }

  // === The whole sampler ===

  datatype Settings = Settings(temperature: real, topK: nat, topP: real, penalty: real)

  // Dividing by zero would make infinities in floating point.
  predicate Sensible(s: Settings) { s.temperature != 0.0 && s.penalty != 0.0 }

  /** The logits that the filters look at. */
  function Adjusted(s: Settings, logits: seq<real>, tokens: seq<nat>): (r: seq<real>)
    requires Sensible(s)
    ensures |r| == |logits|
  {
    seq(|logits|, t requires 0 <= t < |logits| =>
      var x := logits[t] / s.temperature; if t in tokens then Penalty(x, s.penalty) else x)
  }

  function Probabilities(exp: real -> real, s: Settings, adjusted: seq<real>): (ws: seq<real>)
    ensures |ws| == |adjusted|
  {
    SoftmaxRow(exp, Left(adjusted, TopK(adjusted, s.topK)))
  }

  /** The tokens that can be drawn: those that stay after top-k, and of them the nucleus if there is one. */
  function Candidates(exp: real -> real, s: Settings, adjusted: seq<real>): (kept: seq<nat>)
    ensures Within(kept, |adjusted|)
  {
    var kept, ws := TopK(adjusted, s.topK), Probabilities(exp, s, adjusted);
    if s.topP < 1.0 then
      var order := Sorted(ws, kept);
      order[..NucleusFrom(ws, order, s.topP, 0)]
    else kept
  }

  function Weights(exp: real -> real, s: Settings, adjusted: seq<real>): (ws: seq<real>)
    ensures |ws| == |adjusted|
  {
    if s.topP < 1.0 then Cut(Probabilities(exp, s, adjusted), Candidates(exp, s, adjusted))
    else Probabilities(exp, s, adjusted)
  }

  /** A nonempty prefix of the sorted tokens, and everything outside it cut: what the nucleus does to weights. */
  lemma {:induction false} NucleusWeights(ws: seq<real>, kept: seq<nat>, n: nat)
    requires Within(kept, |ws|) && PositiveOn(ws, kept) && 0 < n <= |kept|
    ensures |Sorted(ws, kept)| == |kept|
    ensures var nucleus := Sorted(ws, kept)[..n];
            && PositiveOn(Cut(ws, nucleus), nucleus)
            && (forall t <- nucleus :: t in kept)
            && (forall a: nat, b: nat :: a in nucleus && b < |ws| && b !in nucleus ==> ws[a] >= ws[b])
  {
    var order := Sorted(ws, kept);
    SortedDescending(ws, kept);
    Members(order, kept);
    var nucleus := order[..n];
    assert forall m :: 0 <= m < n ==> nucleus[m] == order[m];
    assert forall t <- nucleus :: t in order;
    forall a: nat, b: nat | a in nucleus && b < |ws| && b !in nucleus ensures ws[a] >= ws[b] {
      if b in order {
        LargerFirst(ws, order, n, a, b);
      }
    }
  }

  /** Candidates are among the top k, carry all the weight, and none of them is less likely than one cut off. */
  lemma CandidatesAre(exp: real -> real, s: Settings, adjusted: seq<real>)
    requires PositiveFn(exp) && adjusted != []
    ensures var kept, ws := Candidates(exp, s, adjusted), Probabilities(exp, s, adjusted);
            && kept != [] && PositiveOn(Weights(exp, s, adjusted), kept)
            && Total(ws) == 1.0
            && (forall t <- kept :: t in TopK(adjusted, s.topK))
            && (forall a: nat, b: nat :: a in kept && b < |ws| && b !in kept ==> ws[a] >= ws[b])
  {
    hide SoftmaxRow, Left, TopK, PositiveOn, Cut, Sorted, Total;
    var kept, ws := TopK(adjusted, s.topK), Probabilities(exp, s, adjusted);
    TopKIsTop(adjusted, s.topK);
    ProbabilitiesOfKept(exp, adjusted, kept);
    if s.topP < 1.0 {
      Members(Sorted(ws, kept), kept);
      NucleusWeights(ws, kept, NucleusFrom(ws, Sorted(ws, kept), s.topP, 0));
    } else {
      KeptAreLikelier(ws, kept);
    }
  }

  lemma KeptAreLikelier(ws: seq<real>, kept: seq<nat>)
    requires Within(kept, |ws|) && PositiveOn(ws, kept)
    ensures forall a: nat, b: nat :: a in kept && b < |ws| && b !in kept ==> ws[a] >= ws[b]
  {
  }

  /**
   * The token drawn for `u` is the one whose slot it hits, among candidates only; beyond the
   * weight that the nucleus kept, it is the most likely one.
   */
  method Sample(exp: real -> real, s: Settings, logits: seq<real>, tokens: seq<nat>, u: real) returns (next: nat)
    requires PositiveFn(exp) && Sensible(s) && 0.0 <= u
    ensures logits == [] ==> next == 0
    ensures logits != [] ==> next in Candidates(exp, s, Adjusted(s, logits, tokens))
    ensures logits != [] ==> Drawn(Weights(exp, s, Adjusted(s, logits, tokens)), u, next)
  {
    var ls := logits;
    if s.temperature != 1.0 {
      ls := seq(|logits|, t requires 0 <= t < |logits| => logits[t] / s.temperature);
    }
    if s.penalty != 1.0 {
      ls := Penalize(ls, tokens, s.penalty);
    }
    assert ls == Adjusted(s, logits, tokens);
    var order := TopK(ls, s.topK);
    var probs := SoftmaxRow(exp, Left(ls, order));
    if s.topP < 1.0 {
      order := Sorted(probs, order);
      var n := FindNucleus(probs, order, s.topP);
      probs := Cut(probs, order[..n]);
    }
    next := Draw(probs, u);
    if logits != [] {
      CandidatesAre(exp, s, ls);
      DrawnIsPositive(probs, Candidates(exp, s, ls), u, next);
    }
  }

  /** Without a nucleus every draw below one hits a slot: the fallback is only for what a nucleus cut off. */
  lemma FallbackOnlyBeyondNucleus(exp: real -> real, s: Settings, adjusted: seq<real>, u: real, t: nat)
    requires PositiveFn(exp) && adjusted != [] && s.topP >= 1.0 && u < 1.0
    requires Drawn(Weights(exp, s, adjusted), u, t)
    ensures Hits(Weights(exp, s, adjusted), u, t)
  {
    CandidatesAre(exp, s, adjusted);
  }

  /** The nucleus has the mass asked for, unless it is everything that top-k kept, and no shorter one has. */
  lemma NucleusIsShortest(exp: real -> real, s: Settings, adjusted: seq<real>)
    requires PositiveFn(exp) && adjusted != [] && s.topP < 1.0
    ensures var ws, kept := Probabilities(exp, s, adjusted), Candidates(exp, s, adjusted);
            && (|kept| < |TopK(adjusted, s.topK)| ==> Mass(ws, kept) >= s.topP)
            && (forall n :: 1 <= n < |kept| ==> Mass(ws, kept[..n]) < s.topP)
  {
    var ws := Probabilities(exp, s, adjusted);
    var order := Sorted(ws, TopK(adjusted, s.topK));
    Members(order, TopK(adjusted, s.topK));
    var m := NucleusFrom(ws, order, s.topP, 0);
    forall n | 1 <= n < m ensures Mass(ws, order[..m][..n]) < s.topP {
      assert order[..m][..n] == order[..n];
    }
  }

  // === Larger logits, larger slots ===

  /** Without a nucleus or within it, a candidate with the larger adjusted logit has the larger slot. */
  lemma LargerLogitLargerSlot(exp: real -> real, s: Settings, adjusted: seq<real>, a: nat, b: nat)
    requires PositiveFn(exp) && IncreasingFn(exp)
    requires a in Candidates(exp, s, adjusted) && b in Candidates(exp, s, adjusted)
    ensures a < |adjusted| && b < |adjusted|
    ensures Weights(exp, s, adjusted)[a] < Weights(exp, s, adjusted)[b] <==> adjusted[a] < adjusted[b]
  {
    var kept := Candidates(exp, s, adjusted);
    var i :| 0 <= i < |kept| && kept[i] == a;
    var j :| 0 <= j < |kept| && kept[j] == b;
    CandidatesAre(exp, s, adjusted);
    LargerScoreWeighsMore(exp, Left(adjusted, TopK(adjusted, s.topK)), a, b);
  }

  /** For an exponential, a probability is the token's own exponential divided by the sum over the kept tokens. */
  lemma ProbabilityIs(exp: real -> real, s: Settings, adjusted: seq<real>, t: nat)
    requires PositiveFn(exp) && TurnsSumsIntoProducts(exp) && t < |adjusted|
    ensures var kept := TopK(adjusted, s.topK);
            Probabilities(exp, s, adjusted)[t] * PlainSum(exp, Left(adjusted, kept))
            == if t in kept then exp(adjusted[t]) else 0.0
  {
    hide SoftmaxRow, MaxOf, PlainSum, TurnsSumsIntoProducts, TopK;
    var kept := TopK(adjusted, s.topK);
    TopKIsTop(adjusted, s.topK);
    assert kept[0] in kept;
    MaxFinite(Left(adjusted, kept), kept[0]);
    SoftmaxIsPlain(exp, Left(adjusted, kept), t);
  }

  /** A penalty above one moves every logit down, and keeps their order. */
  lemma PenaltyLowers(x: real, y: real, penalty: real)
    requires penalty > 1.0
    ensures Penalty(x, penalty) <= x && (x != 0.0 ==> Penalty(x, penalty) < x)
    ensures Penalty(x, penalty) < Penalty(y, penalty) <==> x < y
    ensures Penalty(x, 1.0) == x
  {
    if x > 0.0 {
      DividedIsLess(x, penalty);
    } else if x < 0.0 {
      ScaledOrder(1.0, penalty, -x);
    }
    if x > 0.0 && y > 0.0 {
      QuotientOrder(x, y, penalty);
    } else if x <= 0.0 && y <= 0.0 {
      if x < y {
        ScaledOrder(x, y, penalty);
      } else if y < x {
        ScaledOrder(y, x, penalty);
      }
    } else if x > 0.0 {
      DividedIsLess(x, penalty);
      ScaledDown(y, penalty);
    } else {
      DividedIsLess(y, penalty);
      ScaledDown(x, penalty);
    }
  }

  lemma ScaledDown(x: real, c: real)
    requires x <= 0.0 && c > 0.0
    ensures x * c <= 0.0
  {
  }

  lemma DividedIsLess(x: real, c: real)
    requires x > 0.0 && c > 1.0
    ensures 0.0 < x / c < x
  {
    var q := x / c;
    assert q * c == x;
    if q >= x {
      ScaledOrder(1.0, c, q);
    }
    if q <= 0.0 {
      ScaledDown(q, c);
    }
  }

  /** Temperature divides: multiplying back gives the logits of tokens that did not occur. */
  lemma TemperatureDivides(s: Settings, logits: seq<real>, tokens: seq<nat>, t: nat)
    requires Sensible(s) && t < |logits|
    ensures t !in tokens ==> Adjusted(s, logits, tokens)[t] * s.temperature == logits[t]
    ensures t in tokens ==> Adjusted(s, logits, tokens)[t] == Penalty(Adjusted(s, logits, [])[t], s.penalty)
  {
  }

  /** The mass of tokens is the sum of their weights. */
  lemma {:induction false} MassIsTotal(ws: seq<real>, n: nat)
    requires n <= |ws|
    ensures Mass(ws, UpTo(n)) == Total(ws[..n])
  {
    if n > 0 {
      MassIsTotal(ws, n - 1);
      assert UpTo(n)[..n - 1] == UpTo(n - 1);
      TotalStep(ws, n - 1);
    }
  }
}
