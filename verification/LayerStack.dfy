/** A stack of layers run over whole sequences or row by row over caches, for any kind of rows and caches. */
module LayerStack {
  import opened Options

  /** One layer: the full pass, the pass over a cache, and what its cache holds after some rows. */
  datatype Layer<!R, !C> = Layer(full: seq<R> -> seq<R>,
                               cached: (seq<R>, nat, Option<C>) -> (seq<R>, C),
                               after: seq<R> -> Option<C>)

  /** The full pass over a prefix is a prefix of the full pass. */
  ghost predicate CausalAt<R, C>(layer: Layer<R, C>, x: seq<R>, n: nat) {
    n <= |x| ==> |layer.full(x)| == |x| && layer.full(x[..n]) == layer.full(x)[..n]
  }

  /** One row over the cache of the rows before it is the last row of the full pass. */
  ghost predicate OneRowAt<R, C>(layer: Layer<R, C>, x: seq<R>, row: R) {
    var all := x + [row];
    var (out, c) := layer.cached([row], |x|, layer.after(x));
    |layer.full(all)| == |all| && out == [layer.full(all)[|x|]] && Some(c) == layer.after(all)
  }

  ghost predicate PrefillAt<R, C>(layer: Layer<R, C>, x: seq<R>) {
    var (out, c) := layer.cached(x, 0, None);
    x != [] ==> out == layer.full(x) && Some(c) == layer.after(x)
  }

  /** What makes a cache worth having. */
  ghost predicate Lawful<R(!new), C>(layer: Layer<R, C>) {
    && layer.after([]) == None
    && (forall x, n: nat :: CausalAt(layer, x, n))
    && (forall x, row :: OneRowAt(layer, x, row))
    && (forall x :: PrefillAt(layer, x))
  }

  ghost predicate AllLawful<R(!new), C>(layers: seq<Layer<R, C>>) {
    forall l :: 0 <= l < |layers| ==> Lawful(layers[l])
  }

  /** The rows after the first `l` layers. */
  function Full<R, C>(layers: seq<Layer<R, C>>, x: seq<R>, l: nat): seq<R>
    requires l <= |layers|
  {
    if l == 0 then x else layers[l - 1].full(Full(layers, x, l - 1))
  }

  /** The first `l` layers over their caches, each overwriting its own. */
  function Cached<R, C>(layers: seq<Layer<R, C>>, x: seq<R>, offset: nat, cs: seq<Option<C>>, l: nat)
    : (r: (seq<R>, seq<Option<C>>))
    requires l <= |layers| == |cs|
    ensures |r.1| == |cs| && forall k :: l <= k < |cs| ==> r.1[k] == cs[k]
  {
    if l == 0 then (x, cs)
    else
      var (y, ds) := Cached(layers, x, offset, cs, l - 1);
      var (z, c) := layers[l - 1].cached(y, offset, ds[l - 1]);
      (z, ds[l - 1 := Some(c)])
  }

  /** The caches of the first `l` layers hold exactly these rows as they reach each layer. */
  ghost predicate HoldBelow<R, C>(layers: seq<Layer<R, C>>, x: seq<R>, cs: seq<Option<C>>, l: nat)
    requires l <= |layers|
  {
    |cs| == |layers| && forall k {:trigger cs[k]} :: 0 <= k < l ==> cs[k] == layers[k].after(Full(layers, x, k))
  }

  /** Layers above do not change what those below put out. */
  lemma {:induction false} FullOfFewer<R(!new), C>(layers: seq<Layer<R, C>>, top: Layer<R, C>, x: seq<R>, l: nat)
    requires l <= |layers|
    ensures Full(layers + [top], x, l) == Full(layers, x, l)
  {
    if l > 0 {
      FullOfFewer(layers, top, x, l - 1);
    }
  }

  lemma {:induction false} FullOfPrefix<R(!new), C>(layers: seq<Layer<R, C>>, x: seq<R>, n: nat, l: nat)
    requires AllLawful(layers) && l <= |layers| && n <= |x|
    ensures |Full(layers, x, l)| == |x|
    ensures Full(layers, x[..n], l) == Full(layers, x, l)[..n]
  {
    if l > 0 {
      FullOfPrefix(layers, x, n, l - 1);
      assert CausalAt(layers[l - 1], Full(layers, x, l - 1), n);
    }
  }

  lemma {:induction false} OneRow<R(!new), C>(layers: seq<Layer<R, C>>, x: seq<R>, row: R, cs: seq<Option<C>>, l: nat)
    requires AllLawful(layers) && l <= |layers| && HoldBelow(layers, x, cs, |layers|)
    ensures |Full(layers, x + [row], l)| == |x| + 1
    ensures Cached(layers, [row], |x|, cs, l).0 == [Full(layers, x + [row], l)[|x|]]
    ensures HoldBelow(layers, x + [row], Cached(layers, [row], |x|, cs, l).1, l)
  {
    if l > 0 {
      OneRow(layers, x, row, cs, l - 1);
      var all, before := Full(layers, x + [row], l - 1), Full(layers, x, l - 1);
      SplitLast(layers, x, row, l - 1);
      assert OneRowAt(layers[l - 1], before, all[|x|]);
      var (y, ds) := Cached(layers, [row], |x|, cs, l - 1);
      assert ds[l - 1] == layers[l - 1].after(before);
      HoldOneMore(layers, x + [row], ds, Cached(layers, [row], |x|, cs, l).1, l - 1);
    }
  }

  /** The rows of a longer list are those of the shorter one, and one more. */
  lemma {:induction false} SplitLast<R(!new), C>(layers: seq<Layer<R, C>>, x: seq<R>, row: R, l: nat)
    requires AllLawful(layers) && l <= |layers|
    ensures |Full(layers, x + [row], l)| == |x| + 1 && |Full(layers, x, l)| == |x|
    ensures Full(layers, x + [row], l) == Full(layers, x, l) + [Full(layers, x + [row], l)[|x|]]
  {
    FullOfPrefix(layers, x + [row], |x|, l);
    FullOfPrefix(layers, x, |x|, l);
    assert (x + [row])[..|x|] == x;
  }

  lemma {:induction false} HoldOneMore<R, C>(layers: seq<Layer<R, C>>, x: seq<R>, ds: seq<Option<C>>,
                                             es: seq<Option<C>>, l: nat)
    requires l < |layers| && HoldBelow(layers, x, ds, l)
    requires es == ds[l := layers[l].after(Full(layers, x, l))]
    ensures HoldBelow(layers, x, es, l + 1)
  {
  }

  /** Any number of rows over empty caches is the full pass. */
  lemma {:induction false} Prefill<R(!new), C>(layers: seq<Layer<R, C>>, x: seq<R>, cs: seq<Option<C>>, l: nat)
    requires AllLawful(layers) && l <= |layers| == |cs| && x != []
    requires forall k :: 0 <= k < |cs| ==> cs[k] == None
    ensures Cached(layers, x, 0, cs, l).0 == Full(layers, x, l)
    ensures HoldBelow(layers, x, Cached(layers, x, 0, cs, l).1, l)
  {
    if l > 0 {
      Prefill(layers, x, cs, l - 1);
      var rows := Full(layers, x, l - 1);
      FullOfPrefix(layers, x, |x|, l - 1);
      assert PrefillAt(layers[l - 1], rows);
      var (y, ds) := Cached(layers, x, 0, cs, l - 1);
      assert y == rows && ds[l - 1] == None && rows != [];
      var (z, c) := layers[l - 1].cached(rows, 0, None);
      assert Cached(layers, x, 0, cs, l) == (z, ds[l - 1 := Some(c)]);
      HoldOneMore(layers, x, ds, ds[l - 1 := Some(c)], l - 1);
    }
  }

  lemma {:induction false} NothingFromNothing<R(!new), C>(layers: seq<Layer<R, C>>, l: nat)
    requires AllLawful(layers) && l <= |layers|
    ensures Full(layers, [], l) == []
  {
    FullOfPrefix(layers, [], 0, l);
  }
}
