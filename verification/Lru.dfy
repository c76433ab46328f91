/** A least-recently-used cache: a sequence of entries, most recently used first, with a capacity. */
module Lru {
  import opened Options
  import opened Sets

  datatype Entry<K, V> = Entry(key: K, value: V)

  datatype Cache<K, V> = Cache(capacity: nat, entries: seq<Entry<K, V>>)

  ghost predicate Valid<K, V>(c: Cache<K, V>) {
    && 0 < c.capacity && |c.entries| <= c.capacity
    && forall i, j :: 0 <= i < j < |c.entries| ==> c.entries[i].key != c.entries[j].key
  }

  /** The index of a key, or the length. */
  function IndexOf<K(==), V>(es: seq<Entry<K, V>>, k: K): (i: nat)
    ensures i <= |es|
    ensures i < |es| ==> es[i].key == k
    ensures forall j :: 0 <= j < i ==> es[j].key != k
  {
    if es == [] then 0 else if es[0].key == k then 0 else 1 + IndexOf(es[1..], k)
  }

  predicate Contains<K(==), V>(c: Cache<K, V>, k: K) { IndexOf(c.entries, k) < |c.entries| }

  function Peek<K(==), V>(c: Cache<K, V>, k: K): Option<V> {
    var i := IndexOf(c.entries, k);
    if i < |c.entries| then Some(c.entries[i].value) else None
  }

  function Without<K, V>(es: seq<Entry<K, V>>, i: nat): seq<Entry<K, V>>
    requires i < |es|
  {
    es[..i] + es[i + 1..]
  }

  /** `get`: a hit becomes the most recently used entry. */
  function Touch<K(==), V>(c: Cache<K, V>, k: K): Cache<K, V> {
    var i := IndexOf(c.entries, k);
    if i < |c.entries| then c.(entries := [c.entries[i]] + Without(c.entries, i)) else c
  }

  /** `put`: the entry becomes the most recent one; a new key evicts the oldest entry of a full cache. */
  function Put<K(==), V>(c: Cache<K, V>, k: K, v: V): Cache<K, V> {
    var i := IndexOf(c.entries, k);
    if i < |c.entries| then c.(entries := [Entry(k, v)] + Without(c.entries, i))
    else if 0 < c.capacity <= |c.entries| then
      c.(entries := [Entry(k, v)] + c.entries[..|c.entries| - 1])
    else c.(entries := [Entry(k, v)] + c.entries)
  }

  function PopLru<K, V>(c: Cache<K, V>): (Cache<K, V>, Option<Entry<K, V>>) {
    if c.entries == [] then (c, None)
    else (c.(entries := c.entries[..|c.entries| - 1]), Some(c.entries[|c.entries| - 1]))
  }

  // === What each operation keeps ===

  lemma IndexIs<K, V>(c: Cache<K, V>, k: K, i: nat)
    requires Valid(c) && i < |c.entries| && c.entries[i].key == k
    ensures IndexOf(c.entries, k) == i
  {
  }

  // Where the entry now at `j > 0` was before the key at `i` moved to the front.
  function Source(i: nat, j: nat): nat
    requires j > 0
  {
    if j <= i then j - 1 else j
  }

  /** `after` is `c` with the key `k` at the front and the others in their old order, the last perhaps gone. */
  ghost predicate Fronted<K, V>(c: Cache<K, V>, k: K, after: Cache<K, V>) {
    var i := IndexOf(c.entries, k);
    && after.capacity == c.capacity && after.entries != [] && after.entries[0].key == k
    && |after.entries| == (if i == |c.entries| < c.capacity then |c.entries| + 1 else |c.entries|)
    && forall j :: 1 <= j < |after.entries| ==>
         Source(i, j) < |c.entries| && after.entries[j] == c.entries[Source(i, j)]
  }

  lemma UseFronts<K, V>(c: Cache<K, V>, u: Use<K, V>)
    requires Valid(c) && (u.Stored? || Contains(c, u.key))
    ensures Fronted(c, u.key, Apply(c, u))
  {
  }

  lemma FrontedValid<K, V>(c: Cache<K, V>, k: K, after: Cache<K, V>)
    requires Valid(c) && Fronted(c, k, after)
    ensures Valid(after)
  {
    var i := IndexOf(c.entries, k);
    forall p, q | 0 <= p < q < |after.entries| ensures after.entries[p].key != after.entries[q].key {
      assert after.entries[q] == c.entries[Source(i, q)];
      if p > 0 {
        assert after.entries[p] == c.entries[Source(i, p)];
      }
    }
  }

  /** A key other than the fronted one moves back by at most one place, or falls off the end. */
  lemma FrontedMoves<K, V>(c: Cache<K, V>, k: K, after: Cache<K, V>, j: K)
    requires Valid(c) && Fronted(c, k, after) && j != k
    ensures Contains(after, j) ==> Peek(after, j) == Peek(c, j)
    ensures Contains(c, j) && !Contains(after, j) ==>
              !Contains(c, k) && |c.entries| == c.capacity && IndexOf(c.entries, j) == |c.entries| - 1
    ensures Contains(c, j) && Contains(after, j) ==>
              IndexOf(c.entries, j) == Source(IndexOf(c.entries, k), IndexOf(after.entries, j))
  {
    var i, p, q := IndexOf(c.entries, k), IndexOf(c.entries, j), IndexOf(after.entries, j);
    FrontedValid(c, k, after);
    if q < |after.entries| {
      assert after.entries[q] == c.entries[Source(i, q)];
      IndexIs(c, j, Source(i, q));
    } else if p < |c.entries| {
      var d := if p < i then p + 1 else p;
      assert Source(i, d) == p;
      assert d >= |after.entries|;
    }
  }

  /** `get` changes no value; it only makes its key the most recent. */
  lemma TouchKeeps<K, V>(c: Cache<K, V>, k: K)
    requires Valid(c)
    ensures Valid(Touch(c, k)) && |Touch(c, k).entries| == |c.entries|
    ensures forall j :: Peek(Touch(c, k), j) == Peek(c, j)
    ensures Contains(c, k) ==> Touch(c, k).entries[0].key == k
  {
    if Contains(c, k) {
      var after, i := Touch(c, k), IndexOf(c.entries, k);
      UseFronts(c, Got(k));
      FrontedValid(c, k, after);
      IndexIs(after, k, 0);
      assert after.entries[0] == c.entries[i];
      forall j | j != k ensures Peek(after, j) == Peek(c, j) {
        FrontedMoves(c, k, after, j);
      }
    }
  }

  /** A put stores its value, and every other key keeps its own unless it is the evicted one. */
  lemma PutKeeps<K, V>(c: Cache<K, V>, k: K, v: V)
    requires Valid(c)
    ensures Valid(Put(c, k, v)) && Put(c, k, v).entries[0] == Entry(k, v) && Peek(Put(c, k, v), k) == Some(v)
    ensures forall j :: j != k && Contains(Put(c, k, v), j) ==> Peek(Put(c, k, v), j) == Peek(c, j)
    ensures forall j :: j != k && Contains(c, j) && !Contains(Put(c, k, v), j) ==>
              !Contains(c, k) && |c.entries| == c.capacity && IndexOf(c.entries, j) == |c.entries| - 1
  {
    var after := Put(c, k, v);
    assert Apply(c, Stored(k, v)) == after;
    UseFronts(c, Stored(k, v));
    FrontedValid(c, k, after);
    IndexIs(after, k, 0);
    forall j | j != k
      ensures Contains(after, j) ==> Peek(after, j) == Peek(c, j)
      ensures Contains(c, j) && !Contains(after, j) ==>
                !Contains(c, k) && |c.entries| == c.capacity && IndexOf(c.entries, j) == |c.entries| - 1
    {
      FrontedMoves(c, k, after, j);
    }
  }

  lemma PopLruKeeps<K, V>(c: Cache<K, V>)
    requires Valid(c) && c.entries != []
    ensures Valid(PopLru(c).0) && |PopLru(c).0.entries| == |c.entries| - 1
    ensures c.entries == PopLru(c).0.entries + [PopLru(c).1.value]
  {
  }

  // === When an entry leaves ===

  datatype Use<K, V> = Got(key: K) | Stored(key: K, value: V)

  function Apply<K(==), V>(c: Cache<K, V>, u: Use<K, V>): Cache<K, V> {
    match u
    case Got(k) => Touch(c, k)
    case Stored(k, v) => Put(c, k, v)
  }

  function Run<K(==), V>(c: Cache<K, V>, us: seq<Use<K, V>>): Cache<K, V> {
    if us == [] then c else Apply(Run(c, us[..|us| - 1]), us[|us| - 1])
  }

  function KeysOf<K, V>(us: seq<Use<K, V>>): set<K> { set i | 0 <= i < |us| :: us[i].key }

  /** The keys used more recently than `k`. */
  ghost function Newer<K, V>(c: Cache<K, V>, k: K): set<K> {
    set i | 0 <= i < IndexOf(c.entries, k) :: c.entries[i].key
  }

  lemma {:induction false} DistinctKeys<K, V>(c: Cache<K, V>, n: nat)
    requires Valid(c) && n <= |c.entries|
    ensures |set i | 0 <= i < n :: c.entries[i].key| == n
  {
    var s := set i | 0 <= i < n :: c.entries[i].key;
    if n == 0 {
      assert s == {};
    } else {
      DistinctKeys(c, n - 1);
      var rest := set i | 0 <= i < n - 1 :: c.entries[i].key;
      assert c.entries[n - 1].key !in rest;
      assert s == rest + {c.entries[n - 1].key};
    }
  }

  lemma ApplyKeepsValid<K, V>(c: Cache<K, V>, u: Use<K, V>)
    requires Valid(c)
    ensures Valid(Apply(c, u)) && Apply(c, u).capacity == c.capacity
  {
    if u.Stored? || Contains(c, u.key) {
      UseFronts(c, u);
      FrontedValid(c, u.key, Apply(c, u));
    }
  }

  /** One use of another key adds at most that key to the newer ones. */
  lemma NewerGrows<K, V>(c: Cache<K, V>, j: K, after: Cache<K, V>, k: K)
    requires Valid(c) && Fronted(c, j, after) && j != k && Contains(c, k) && Contains(after, k)
    ensures Newer(after, k) <= Newer(c, k) + {j}
  {
    var i := IndexOf(c.entries, j);
    FrontedMoves(c, j, after, k);
    forall x | x in Newer(after, k) ensures x in Newer(c, k) + {j} {
      var p :| 0 <= p < IndexOf(after.entries, k) && after.entries[p].key == x;
      if p > 0 {
        assert c.entries[Source(i, p)].key == x;
      }
    }
  }

  lemma KeysOfSnoc<K, V>(us: seq<Use<K, V>>)
    requires us != []
    ensures KeysOf(us) == KeysOf(us[..|us| - 1]) + {us[|us| - 1].key}
  {
    var init := us[..|us| - 1];
    forall k | k in KeysOf(init) ensures k in KeysOf(us) {
      var i :| 0 <= i < |init| && init[i].key == k;
      assert us[i].key == k;
    }
  }

  /** While a key stays, everything newer than it was used since; when it has left, a whole capacity was. */
  lemma {:induction false} LeavesOnlyWhenOutnumbered<K, V>(c: Cache<K, V>, us: seq<Use<K, V>>, k: K)
    requires Valid(c) && Contains(c, k) && IndexOf(c.entries, k) == 0 && k !in KeysOf(us)
    ensures Valid(Run(c, us)) && Run(c, us).capacity == c.capacity
    ensures Contains(Run(c, us), k) ==> Newer(Run(c, us), k) <= KeysOf(us)
    ensures !Contains(Run(c, us), k) ==> |KeysOf(us)| >= c.capacity
  {
    if us != [] {
      var init, u := us[..|us| - 1], us[|us| - 1];
      var before := Run(c, init);
      KeysOfSnoc(us);
      LeavesOnlyWhenOutnumbered(c, init, k);
      ApplyKeepsValid(before, u);
      if !Contains(before, k) {
        SubsetCard(KeysOf(init), KeysOf(us));
      } else if u.Stored? || Contains(before, u.key) {
        UseFronts(before, u);
        if Contains(Apply(before, u), k) {
          NewerGrows(before, u.key, Apply(before, u), k);
        } else {
          EvictionCount(before, u.key, Apply(before, u), k, KeysOf(us));
        }
      }
    }
  }

  lemma EvictionCount<K, V>(c: Cache<K, V>, j: K, after: Cache<K, V>, k: K, used: set<K>)
    requires Valid(c) && Fronted(c, j, after) && j != k && Contains(c, k) && !Contains(after, k)
    requires Newer(c, k) + {j} <= used
    ensures |used| >= c.capacity
  {
    FrontedMoves(c, j, after, k);
    DistinctKeys(c, |c.entries| - 1);
    assert j !in Newer(c, k);
    SubsetCard(Newer(c, k) + {j}, used);
  }
}
