/** The cache of finished lookups and the running sums that are kept beside it. */
module Statistics {
  import opened Ids
  import opened Nodes
  import opened Options
  import opened Lru

  const MAX_CACHED_ITERATIVE_QUERIES: nat := 1000

  datatype CachedQuery =
    CachedQuery(nodes: seq<Node>, estimate: real, responderEstimate: real, subnets: nat, findNode: bool)

  datatype Sums = Sums(estimates: real, responders: real, subnets: nat, count: nat)

  function Add(a: Sums, b: Sums): Sums {
    Sums(a.estimates + b.estimates, a.responders + b.responders, a.subnets + b.subnets, a.count + b.count)
  }

  function One(q: CachedQuery): Sums { Sums(q.estimate, q.responderEstimate, q.subnets, 1) }

  const ZERO := Sums(0.0, 0.0, 0, 0)

  /** What some cached entries contribute in all. */
  function SumsOf(es: seq<Entry<Id, CachedQuery>>): Sums {
    if es == [] then ZERO else Add(SumsOf(es[..|es| - 1]), One(es[|es| - 1].value))
  }

  lemma LastOfAppend<T>(a: seq<T>, b: seq<T>)
    requires b != []
    ensures (a + b)[..|a + b| - 1] == a + b[..|b| - 1] && (a + b)[|a + b| - 1] == b[|b| - 1]
  {
  }

  lemma {:induction false} SumsAppend(a: seq<Entry<Id, CachedQuery>>, b: seq<Entry<Id, CachedQuery>>)
    ensures SumsOf(a + b) == Add(SumsOf(a), SumsOf(b))
  {
    if b == [] {
      assert a + b == a;
      AddZero(SumsOf(a));
    } else {
      var init, last := b[..|b| - 1], b[|b| - 1];
      LastOfAppend(a, b);
      SumsAppend(a, init);
      SumsSnoc(a + b, a + init, last);
      SumsSnoc(b, init, last);
      AddAssociates(SumsOf(a), SumsOf(init), One(last.value));
    }
  }

  lemma AddZero(a: Sums)
    ensures Add(a, ZERO) == a
  {
  }

  lemma AddAssociates(a: Sums, b: Sums, c: Sums)
    ensures Add(Add(a, b), c) == Add(a, Add(b, c))
  {
  }

  lemma {:induction false} SumsSnoc(es: seq<Entry<Id, CachedQuery>>, init: seq<Entry<Id, CachedQuery>>,
                                    last: Entry<Id, CachedQuery>)
    requires es != [] && es[..|es| - 1] == init && es[|es| - 1] == last
    ensures SumsOf(es) == Add(SumsOf(init), One(last.value))
  {
  }

  lemma SumsSingle(e: Entry<Id, CachedQuery>)
    ensures SumsOf([e]) == One(e.value)
  {
    assert [e][..0] == [];
  }

  lemma SplitAt<T>(es: seq<T>, i: nat)
    requires i < |es|
    ensures es == es[..i] + ([es[i]] + es[i + 1..])
  {
  }

  lemma {:induction false} SumsWithout(es: seq<Entry<Id, CachedQuery>>, i: nat)
    requires i < |es|
    ensures SumsOf(es) == Add(SumsOf(Without(es, i)), One(es[i].value))
  {
    var low, e, high := es[..i], es[i], es[i + 1..];
    SplitAt(es, i);
    SumsAppend(low, [e] + high);
    SumsCons(e, high);
    SumsAppend(low, high);
  }

  lemma {:induction false} SumsCons(e: Entry<Id, CachedQuery>, es: seq<Entry<Id, CachedQuery>>)
    ensures SumsOf([e] + es) == Add(SumsOf(es), One(e.value))
  {
    SumsAppend([e], es);
    SumsSingle(e);
  }

  lemma {:induction false} SumsCount(es: seq<Entry<Id, CachedQuery>>)
    ensures SumsOf(es).count == |es|
  {
    if es != [] {
      SumsCount(es[..|es| - 1]);
    }
  }

  /** Promoting an entry keeps what the entries add up to. */
  lemma TouchKeepsSums(c: Cache<Id, CachedQuery>, k: Id)
    ensures SumsOf(Touch(c, k).entries) == SumsOf(c.entries)
  {
    var i := IndexOf(c.entries, k);
    if i < |c.entries| {
      SumsWithout(c.entries, i);
      SumsCons(c.entries[i], Without(c.entries, i));
    }
  }

  /** Into a cache that is not full, a put adds its entry and takes away exactly the one it replaces. */
  lemma PutSums(c: Cache<Id, CachedQuery>, k: Id, v: CachedQuery) returns (rest: Sums)
    requires |c.entries| < c.capacity
    ensures SumsOf(c.entries) == if Peek(c, k).Some? then Add(rest, One(Peek(c, k).value)) else rest
    ensures SumsOf(Put(c, k, v).entries) == Add(rest, One(v))
  {
    var i := IndexOf(c.entries, k);
    var others := if i < |c.entries| then Without(c.entries, i) else c.entries;
    rest := SumsOf(others);
    if i < |c.entries| {
      SumsWithout(c.entries, i);
    }
    SumsCons(Entry(k, v), others);
  }

  /** What lookups are taken to look like, from those in the cache: a network size and a number of subnets. */
  datatype Averages = Averages(estimate: nat, subnets: nat)

  // A cast from floating point saturates at zero.
  function Truncated(x: real): nat { if x < 0.0 then 0 else x.Floor }

  function AtLeastOne(n: nat): nat { if n > 1 then n else 1 }

  class QueryStatistics {
    var cached: Cache<Id, CachedQuery>
    var dhtSizeEstimatesSum: real
    var respondersEstimatesSum: real
    var respondersEstimatesCount: nat
    var subnetsSum: nat
    // Finished find_node lookups whose removal left the responder count alone.
    ghost var findNodesDropped: nat

    /** The sums stand for these entries, beside the starting values. */
    ghost predicate Accounts(s: Sums)
      reads this
    {
      && dhtSizeEstimatesSum == s.estimates
      && respondersEstimatesSum == 1000000.0 + s.responders
      && subnetsSum == 20 + s.subnets
      && respondersEstimatesCount == s.count + findNodesDropped
    }

    ghost predicate Valid()
      reads this
    {
      && Lru.Valid(cached) && cached.capacity == MAX_CACHED_ITERATIVE_QUERIES
      && Accounts(SumsOf(cached.entries))
    }

    constructor ()
      ensures Valid() && cached == Cache(MAX_CACHED_ITERATIVE_QUERIES, []) && findNodesDropped == 0
    {
      cached := Cache(MAX_CACHED_ITERATIVE_QUERIES, []);
      dhtSizeEstimatesSum, respondersEstimatesSum, respondersEstimatesCount, subnetsSum := 0.0, 1000000.0, 0, 20;
      findNodesDropped := 0;
    }

    /** Takes an entry that left the cache out of the sums; nothing can go below zero. */
    method Decrement(q: Option<CachedQuery>, ghost rest: Sums)
      requires Accounts(if q.Some? then Add(rest, One(q.value)) else rest)
      modifies this
      ensures Accounts(rest) && cached == old(cached)
      ensures findNodesDropped == old(findNodesDropped) + (if q.Some? && q.value.findNode then 1 else 0)
    {
      if q.Some? {
        dhtSizeEstimatesSum := dhtSizeEstimatesSum - q.value.estimate;
        respondersEstimatesSum := respondersEstimatesSum - q.value.responderEstimate;
        subnetsSum := subnetsSum - q.value.subnets;
        if q.value.findNode {
          findNodesDropped := findNodesDropped + 1;
        } else {
          respondersEstimatesCount := respondersEstimatesCount - 1;
        }
      }
    }

    /** The responder count is at least the number of cached entries. */
    lemma CountCoversEntries()
      requires Valid()
      ensures |cached.entries| <= respondersEstimatesCount
    {
      SumsCount(cached.entries);
    }

    method MakeRoom()
      requires Valid()
      modifies this
      ensures Valid() && cached == MadeRoom(old(cached)) && |cached.entries| < MAX_CACHED_ITERATIVE_QUERIES
    {
      if |cached.entries| >= MAX_CACHED_ITERATIVE_QUERIES {
        PopLruKeeps(cached);
        var (popped, oldest) := PopLru(cached);
        cached := popped;
        Decrement(Some(oldest.value.value), SumsOf(popped.entries));
      }
    }

    /** Makes room first, then stores the lookup unless it found nobody. */
    method CacheIterativeQuery(target: Id, offline: bool, q: CachedQuery)
      requires Valid()
      modifies this
      ensures Valid()
      ensures cached == if offline then MadeRoom(old(cached)) else Put(MadeRoom(old(cached)), target, q)
    {
      MakeRoom();
      if offline {
        return;
      }
      var previous := Peek(cached, target);
      ghost var rest := PutSums(cached, target, q);
      PutKeeps(cached, target, q);
      cached := Put(cached, target, q);
      Decrement(previous, rest);
      dhtSizeEstimatesSum := dhtSizeEstimatesSum + q.estimate;
      respondersEstimatesSum := respondersEstimatesSum + q.responderEstimate;
      subnetsSum := subnetsSum + q.subnets;
      respondersEstimatesCount := respondersEstimatesCount + 1;
    }

    /** `get` promotes the entry and touches no sum. */
    method Lookup(target: Id) returns (found: Option<CachedQuery>)
      requires Valid()
      modifies this
      ensures Valid() && found == Peek(old(cached), target) && cached == Touch(old(cached), target)
    {
      found := Peek(cached, target);
      TouchKeeps(cached, target);
      TouchKeepsSums(cached, target);
      cached := Touch(cached, target);
    }

    /** The averages that decide where a walk over responders ends. */
    function KeptAverages(): Averages
      reads this
    {
      Averages(Truncated(respondersEstimatesSum) / AtLeastOne(respondersEstimatesCount),
               subnetsSum / AtLeastOne(|cached.entries|))
    }

    /** The estimate is the mean of those kept, rounded down. */
    lemma EstimateIsMean()
      ensures var n := AtLeastOne(respondersEstimatesCount);
              KeptAverages().estimate * n <= Truncated(respondersEstimatesSum) < (KeptAverages().estimate + 1) * n
    {
      MeanBounds(Truncated(respondersEstimatesSum), AtLeastOne(respondersEstimatesCount));
    }

    /** The average that lookups use, which never divides by zero. */
    method AverageSubnets() returns (average: nat)
      requires Valid()
      ensures average * (if cached.entries == [] then 1 else |cached.entries|) <= subnetsSum
      ensures subnetsSum < (average + 1) * (if cached.entries == [] then 1 else |cached.entries|)
      ensures cached.entries == [] ==> average == 20
      ensures average == KeptAverages().subnets
    {
      var n := if |cached.entries| > 1 then |cached.entries| else 1;
      average := subnetsSum / n;
    }
  }

  /** A full cache loses its oldest entry before anything is stored, so that a put never evicts silently. */
  function MadeRoom(c: Cache<Id, CachedQuery>): Cache<Id, CachedQuery> {
    if |c.entries| >= MAX_CACHED_ITERATIVE_QUERIES then PopLru(c).0 else c
  }

  // === The kept averages ===

  /** A sum is cut down to a whole number, and one below zero counts as zero. */
  lemma TruncatedIs(x: real)
    ensures x >= 0.0 ==> Truncated(x) as real <= x < Truncated(x) as real + 1.0
    ensures x < 0.0 ==> Truncated(x) == 0
  {
  }

  /** With one estimate it is the sum itself, and with more it is their mean. */
  lemma AtLeastOneIs(n: nat)
    ensures AtLeastOne(n) >= 1 && (n >= 1 ==> AtLeastOne(n) == n)
  {
  }

  lemma MeanBounds(x: nat, n: nat)
    requires n > 0
    ensures (x / n) * n <= x < (x / n + 1) * n
  {
  }

  /** Room is made only in a full cache, by dropping the entry used least recently. */
  lemma MadeRoomIs(c: Cache<Id, CachedQuery>)
    requires Lru.Valid(c) && c.capacity == MAX_CACHED_ITERATIVE_QUERIES
    ensures Lru.Valid(MadeRoom(c)) && MadeRoom(c).capacity == c.capacity
    ensures |c.entries| < 1000 ==> MadeRoom(c) == c
    ensures |c.entries| == 1000 ==> MadeRoom(c).entries == c.entries[..999]
    ensures forall j :: Contains(MadeRoom(c), j) ==> Peek(MadeRoom(c), j) == Peek(c, j)
  {
    if |c.entries| >= MAX_CACHED_ITERATIVE_QUERIES {
      PopLruKeeps(c);
      var after := MadeRoom(c);
      forall j | Contains(after, j) ensures Peek(after, j) == Peek(c, j) {
        var i := IndexOf(after.entries, j);
        assert after.entries[i] == c.entries[i];
        IndexIs(c, j, i);
      }
    }
  }

  /** What one entry counts for. */
  lemma SumsOfOne(k: Id, q: CachedQuery)
    ensures SumsOf([Entry(k, q)]) == Sums(q.estimate, q.responderEstimate, q.subnets, 1)
  {
    assert [Entry(k, q)][..0] == [];
  }
}
