/** Sorted vectors with a refusal rule, for any element type: what binary-search insertion maintains. */
module SortedList {

  datatype Key = Key(insecure: bool, distance: nat)

  predicate Before(a: Key, b: Key) {
    (!a.insecure && b.insecure) || (a.insecure == b.insecure && a.distance < b.distance)
  }

  ghost predicate Sorted<T>(key: T -> Key, ns: seq<T>) {
    forall i, j :: 0 <= i < j < |ns| ==> Before(key(ns[i]), key(ns[j]))
  }

  /** Insertion by a walk from the front; an element with an equal key is not replaced. */
  function Place<T>(key: T -> Key, ns: seq<T>, node: T): seq<T> {
    if ns == [] then [node]
    else if Before(key(ns[0]), key(node)) then [ns[0]] + Place(key, ns[1..], node)
    else if key(ns[0]) == key(node) then ns
    else [node] + ns
  }

  predicate Blocked<T>(blocks: (T, T) -> bool, ns: seq<T>, node: T) {
    exists i :: 0 <= i < |ns| && blocks(ns[i], node)
  }

  function AddOne<T>(key: T -> Key, blocks: (T, T) -> bool, ns: seq<T>, node: T): seq<T> {
    if Blocked(blocks, ns, node) then ns else Place(key, ns, node)
  }

  function AddAll<T>(key: T -> Key, blocks: (T, T) -> bool, ns: seq<T>, incoming: seq<T>): seq<T> {
    if incoming == [] then ns
    else AddOne(key, blocks, AddAll(key, blocks, ns, incoming[..|incoming| - 1]), incoming[|incoming| - 1])
  }

  ghost predicate AllBefore<T>(key: T -> Key, ns: seq<T>, node: T) {
    forall i :: 0 <= i < |ns| ==> Before(key(ns[i]), key(node))
  }

  ghost predicate AllAfter<T>(key: T -> Key, ns: seq<T>, node: T) {
    forall i :: 0 <= i < |ns| ==> Before(key(node), key(ns[i]))
  }

  /** Walking from the front inserts between the smaller keys and the larger ones. */
  lemma {:induction false} PlaceBetween<T>(key: T -> Key, low: seq<T>, high: seq<T>, node: T)
    requires AllBefore(key, low, node) && AllAfter(key, high, node)
    ensures Place(key, low + high, node) == low + [node] + high
  {
    if low == [] {
      assert low + high == high && low + [node] + high == [node] + high;
    } else {
      assert (low + high)[0] == low[0] && (low + high)[1..] == low[1..] + high;
      PlaceBetween(key, low[1..], high, node);
      assert [low[0]] + (low[1..] + [node] + high) == low + [node] + high;
    }
  }

  lemma {:induction false} PlaceFound<T>(key: T -> Key, low: seq<T>, high: seq<T>, node: T)
    requires AllBefore(key, low, node)
    requires high != [] && key(high[0]) == key(node)
    ensures Place(key, low + high, node) == low + high
  {
    if low == [] {
      assert low + high == high;
    } else {
      assert (low + high)[0] == low[0] && (low + high)[1..] == low[1..] + high;
      PlaceFound(key, low[1..], high, node);
      assert [low[0]] + (low[1..] + high) == low + high;
    }
  }

  /** One comparison decides for a whole half of a sorted vector. */
  lemma SortedHalves<T>(key: T -> Key, ns: seq<T>, mid: nat, node: T)
    requires Sorted(key, ns) && mid < |ns|
    ensures Before(key(ns[mid]), key(node)) || key(ns[mid]) == key(node) ==> AllBefore(key, ns[..mid], node)
    ensures Before(key(ns[mid]), key(node)) ==> AllBefore(key, ns[..mid + 1], node)
    ensures Before(key(node), key(ns[mid])) ==> AllAfter(key, ns[mid..], node)
  {}

  /** Where a node would go in a sorted vector. */
  lemma SplitPoint<T>(key: T -> Key, ns: seq<T>, node: T) returns (pos: nat)
    requires Sorted(key, ns)
    ensures pos <= |ns| && AllBefore(key, ns[..pos], node)
    ensures AllAfter(key, ns[pos..], node) || (pos < |ns| && key(ns[pos]) == key(node))
  {
    pos := 0;
    while pos < |ns| && Before(key(ns[pos]), key(node))
      invariant pos <= |ns| && AllBefore(key, ns[..pos], node)
    {
      pos := pos + 1;
    }
  }

  ghost predicate HasKey<T>(key: T -> Key, ns: seq<T>, node: T) {
    exists i :: 0 <= i < |ns| && key(ns[i]) == key(node)
  }

  /** A node is refused exactly when a kept node blocks it or has its key. */
  ghost predicate Refused<T>(key: T -> Key, blocks: (T, T) -> bool, ns: seq<T>, node: T) {
    Blocked(blocks, ns, node) || HasKey(key, ns, node)
  }

  /** Adding keeps the vector sorted, and it keeps the node exactly when nothing refuses it. */
  lemma AddKeepsSorted<T>(key: T -> Key, blocks: (T, T) -> bool, ns: seq<T>, node: T)
    requires Sorted(key, ns)
    ensures Sorted(key, AddOne(key, blocks, ns, node))
    ensures Refused(key, blocks, ns, node) ==> AddOne(key, blocks, ns, node) == ns
    ensures !Refused(key, blocks, ns, node)
        ==> multiset(AddOne(key, blocks, ns, node)) == multiset(ns) + multiset{node}
  {
    var pos := SplitPoint(key, ns, node);
    var low, high := ns[..pos], ns[pos..];
    assert ns == low + high;
    if pos < |ns| && key(ns[pos]) == key(node) {
      PlaceFound(key, low, high, node);
    } else {
      PlaceBetween(key, low, high, node);
      InsertKeepsSorted(key, low, high, node);
    }
  }

  lemma InsertKeepsSorted<T>(key: T -> Key, low: seq<T>, high: seq<T>, node: T)
    requires Sorted(key, low + high) && AllBefore(key, low, node) && AllAfter(key, high, node)
    ensures Sorted(key, low + [node] + high) && !HasKey(key, low + high, node)
    ensures multiset(low + [node] + high) == multiset(low + high) + multiset{node}
  {
    var ns, after, p := low + high, low + [node] + high, |low|;
    assert forall i :: 0 <= i < |ns| ==> ns[i] == if i < p then low[i] else high[i - p];
    forall i, j | 0 <= i < j < |after| ensures Before(key(after[i]), key(after[j])) {
      if i < p && j > p {
        assert after[i] == ns[i] && after[j] == ns[j - 1];
      } else if j < p {
        assert after[i] == ns[i] && after[j] == ns[j];
      } else if i > p {
        assert after[i] == ns[i - 1] && after[j] == ns[j - 1];
      }
    }
  }

  lemma {:induction false} AddAllSorted<T>(key: T -> Key, blocks: (T, T) -> bool, ns: seq<T>, incoming: seq<T>)
    requires Sorted(key, ns)
    ensures Sorted(key, AddAll(key, blocks, ns, incoming))
  {
    if incoming != [] {
      var init := incoming[..|incoming| - 1];
      AddAllSorted(key, blocks, ns, init);
      AddKeepsSorted(key, blocks, AddAll(key, blocks, ns, init), incoming[|incoming| - 1]);
    }
  }

  lemma {:induction false} AddAllAppend<T>(key: T -> Key, blocks: (T, T) -> bool, ns: seq<T>, a: seq<T>, b: seq<T>)
    ensures AddAll(key, blocks, ns, a + b) == AddAll(key, blocks, AddAll(key, blocks, ns, a), b)
  {
    if b == [] {
      assert a + b == a;
    } else {
      assert (a + b)[..|a + b| - 1] == a + b[..|b| - 1];
      AddAllAppend(key, blocks, ns, a, b[..|b| - 1]);
    }
  }

  /** No node is blocked by an earlier one, nor has the key of one. */
  ghost predicate Compatible<T>(key: T -> Key, blocks: (T, T) -> bool, incoming: seq<T>) {
    forall i, j :: 0 <= i < j < |incoming| ==>
      !blocks(incoming[i], incoming[j]) && key(incoming[i]) != key(incoming[j])
  }

  lemma MultisetMembers<T>(a: seq<T>, b: seq<T>)
    requires multiset(a) == multiset(b)
    ensures forall x <- a :: x in b
    ensures forall x <- b :: x in a
  {
    forall x <- a ensures x in b { assert x in multiset(b); }
    forall x <- b ensures x in a { assert x in multiset(a); }
  }

  /** Nodes added to an empty vector are all kept exactly when they are compatible. */
  lemma {:induction false} AllKeptIffCompatible<T>(key: T -> Key, blocks: (T, T) -> bool, incoming: seq<T>)
    ensures |AddAll(key, blocks, [], incoming)| <= |incoming|
    ensures |AddAll(key, blocks, [], incoming)| == |incoming| <==> Compatible(key, blocks, incoming)
    ensures Compatible(key, blocks, incoming)
        ==> multiset(AddAll(key, blocks, [], incoming)) == multiset(incoming)
  {
    if incoming != [] {
      var init, last := incoming[..|incoming| - 1], incoming[|incoming| - 1];
      var kept := AddAll(key, blocks, [], init);
      AllKeptIffCompatible(key, blocks, init);
      AddAllSorted(key, blocks, [], init);
      AddKeepsSorted(key, blocks, kept, last);
      assert incoming == init + [last];
      if Refused(key, blocks, kept, last) {
        RefusalBreaksCompatibility(key, blocks, init, kept, last);
      } else {
        assert |multiset(AddOne(key, blocks, kept, last))| == |kept| + 1;
        if |kept| == |init| {
          NoRefusalKeepsCompatibility(key, blocks, init, kept, last);
        } else {
          PrefixCompatible(key, blocks, init, last);
        }
      }
    }
  }

  lemma PrefixCompatible<T>(key: T -> Key, blocks: (T, T) -> bool, init: seq<T>, last: T)
    ensures Compatible(key, blocks, init + [last]) ==> Compatible(key, blocks, init)
  {
    assert forall i :: 0 <= i < |init| ==> (init + [last])[i] == init[i];
  }

  lemma RefusalBreaksCompatibility<T>(key: T -> Key, blocks: (T, T) -> bool, init: seq<T>, kept: seq<T>, last: T)
    requires Compatible(key, blocks, init) ==> multiset(kept) == multiset(init)
    requires Refused(key, blocks, kept, last)
    ensures !Compatible(key, blocks, init + [last])
  {
    var all := init + [last];
    PrefixCompatible(key, blocks, init, last);
    if Compatible(key, blocks, init) {
      MultisetMembers(kept, init);
      var k :| 0 <= k < |kept| && (blocks(kept[k], last) || key(kept[k]) == key(last));
      assert kept[k] in init;
      var i :| 0 <= i < |init| && init[i] == kept[k];
      assert all[i] == kept[k] && all[|init|] == last;
    }
  }

  lemma NoRefusalKeepsCompatibility<T>(key: T -> Key, blocks: (T, T) -> bool, init: seq<T>, kept: seq<T>, last: T)
    requires Compatible(key, blocks, init) && multiset(kept) == multiset(init)
    requires !Refused(key, blocks, kept, last)
    ensures Compatible(key, blocks, init + [last])
  {
    var all := init + [last];
    MultisetMembers(kept, init);
    forall i, j | 0 <= i < j < |all| ensures !blocks(all[i], all[j]) && key(all[i]) != key(all[j]) {
      if j < |init| {
        assert all[i] == init[i] && all[j] == init[j];
      } else {
        assert all[i] == init[i] && init[i] in init;
        assert init[i] in kept;
        var k :| 0 <= k < |kept| && kept[k] == init[i];
      }
    }
  }

  /** Of compatible nodes, the first `k` are the `k` least, with nothing lost and nothing invented. */
  lemma {:induction false} PrefixIsLeast<T>(key: T -> Key, blocks: (T, T) -> bool, incoming: seq<T>, k: nat)
    requires Compatible(key, blocks, incoming) && k <= |incoming|
    ensures var kept := AddAll(key, blocks, [], incoming);
            && |kept| == |incoming|
            && multiset(kept[..k]) <= multiset(incoming)
            && forall a, b :: a in kept[..k] && b in incoming && b !in kept[..k] ==> Before(key(a), key(b))
  {
    var kept := AddAll(key, blocks, [], incoming);
    AllKeptIffCompatible(key, blocks, incoming);
    AddAllSorted(key, blocks, [], incoming);
    MultisetMembers(kept, incoming);
    assert kept == kept[..k] + kept[k..];
    forall a, b | a in kept[..k] && b in incoming && b !in kept[..k] ensures Before(key(a), key(b)) {
      assert b in kept;
    }
  }
}
