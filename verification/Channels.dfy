/** What the callers of a lookup are sent while it runs. */
module Channels {
  import opened Ids
  import opened Nodes
  import opened Options
  import opened RpcCore
  import opened RpcSteps
  import opened Callers

  /** A caller's channel carries one kind of value, or only the nodes at the end. */
  datatype Wants = WantsPeers | WantsImmutable | WantsMutable | WantsNodes

  predicate Fits(w: Wants, v: Value) {
    match v
    case PeersValue(_) => w == WantsPeers
    case ImmutableValue(_) => w == WantsImmutable
    case MutableValue(_) => w == WantsMutable
  }

  function Fitting(w: Wants, vs: seq<Value>): (r: seq<Value>)
    ensures |r| <= |vs| && forall v <- r :: Fits(w, v)
  {
    if vs == [] then []
    else Fitting(w, vs[..|vs| - 1]) + if Fits(w, vs[|vs| - 1]) then [vs[|vs| - 1]] else []
  }

  lemma {:induction false} FittingSnoc(w: Wants, vs: seq<Value>, v: Value)
    ensures Fitting(w, vs + [v]) == Fitting(w, vs) + if Fits(w, v) then [v] else []
  {
    assert (vs + [v])[..|vs|] == vs;
  }

  lemma {:induction false} FittingConcat(w: Wants, a: seq<Value>, b: seq<Value>)
    ensures Fitting(w, a + b) == Fitting(w, a) + Fitting(w, b)
  {
    hide Fitting;
    if b == [] {
      assert a + b == a;
      FittingNone(w);
    } else {
      var n := |b| - 1;
      FittingSnoc(w, b[..n], b[n]);
      FittingSnoc(w, a + b[..n], b[n]);
      assert b == b[..n] + [b[n]] && a + b == (a + b[..n]) + [b[n]];
      FittingConcat(w, a, b[..n]);
    }
  }

  lemma {:induction false} FittingNone(w: Wants)
    ensures Fitting(w, []) == []
  {
  }

  lemma {:induction false} FittingMembers(w: Wants, vs: seq<Value>)
    ensures forall v <- Fitting(w, vs) :: v in vs
  {
    if vs != [] {
      FittingMembers(w, vs[..|vs| - 1]);
    }
  }

  type Channel = map<nat, seq<Value>>

  /** When a caller joined a lookup: how many responses there were, and what it was given besides. */
  datatype Joining = Joining(at: nat, extra: seq<Value>)

  function Given(j: Joining, responses: seq<Value>): seq<Value>
    requires j.at <= |responses|
  {
    responses[..j.at] + j.extra + responses[j.at..]
  }

  /** The caller was sent all responses of its lookup, once and in order, and the value in flight when it joined. */
  ghost predicate FedCaller(t: nat, responses: seq<Value>, wants: map<nat, Wants>, received: Channel,
                            joinings: map<nat, Joining>)
  {
    && t in wants && t in received && t in joinings && joinings[t].at <= |responses|
    && received[t] == Fitting(wants[t], Given(joinings[t], responses))
  }

  /** Every waiting caller was sent what its lookup has found so far, and the value heard last. */
  ghost predicate Fed(senders: Senders, gets: map<Id, GetEntry>, heard: Option<(Id, Value)>,
                      wants: map<nat, Wants>, received: Channel, joinings: map<nat, Joining>)
  {
    && senders.Keys <= gets.Keys
    && forall k, i :: k in senders && 0 <= i < |senders[k]| ==>
         FedCaller(senders[k][i], gets[k].responses + HeardBy(heard, k), wants, received, joinings)
  }

  /** What a caller is sent passed its check for the target, or is the put in flight when it joined. */
  lemma ValuesAreGenuine(checks: Checks, senders: Senders, gets: map<Id, GetEntry>, wants: map<nat, Wants>,
                         received: Channel, joinings: map<nat, Joining>, k: Id, t: nat)
    requires LookupsOk(checks, gets) && Fed(senders, gets, None, wants, received, joinings)
    requires k in senders && t in senders[k]
    ensures t in received && t in joinings && t in wants
    ensures forall v <- received[t] :: Fits(wants[t], v)
                                       && (v in joinings[t].extra || Genuine(checks, k, gets[k].salt, v))
  {
    hide Genuine;
    var responses := gets[k].responses + HeardBy(None, k);
    assert responses == gets[k].responses;
    assert FedCaller(t, responses, wants, received, joinings);
    FittingMembers(wants[t], Given(joinings[t], responses));
    assert LookupOk(checks, k, gets[k]);
    forall v <- Given(joinings[t], responses) ensures v in joinings[t].extra || Genuine(checks, k, gets[k].salt, v) {
      if v !in joinings[t].extra {
        var i :| 0 <= i < |responses| && responses[i] == v;
      }
    }
  }

  // === New callers ===

  /** What a new caller of a get is given, and where it joins. */
  function JoiningAt(c: Core, target: Id): Joining {
    Joining(if target in c.gets then |c.gets[target].responses| else 0, InflightValue(c.puts, target))
  }

  function GivenAtOnce(c: Core, target: Id): seq<Value> {
    if FoundNow(c, target).Some? then FoundNow(c, target).value else []
  }

  /** What a caller is given at once is all that its lookup has, or the value in flight alone. */
  lemma GivenFirst(c: Core, target: Id)
    ensures GivenAtOnce(c, target)
         == Given(JoiningAt(c, target), if target in c.gets then c.gets[target].responses else [])
  {
  }

  /** A new caller is sent at once what its lookup has found before it joined. */
  lemma {:induction false} JoinFeeds(c: Core, d: Core, target: Id, findNode: bool, senders: Senders,
                                     wants: map<nat, Wants>, received: Channel, joinings: map<nat, Joining>, t: nat,
                                     w: Wants)
    requires Joined(c, d, findNode) && target in d.gets && Fed(senders, c.gets, None, wants, received, joinings)
    requires forall k, i :: k in senders && 0 <= i < |senders[k]| ==> senders[k][i] != t
    ensures Fed(Enlist(senders, target, t), d.gets, None, wants[t := w],
                received[t := Fitting(w, GivenAtOnce(c, target))], joinings[t := JoiningAt(c, target)])
  {
    hide Fitting, FoundNow, InflightValue;
    GivenFirst(c, target);
    var found := GivenAtOnce(c, target);
    var after := Enlist(senders, target, t);
    var wants', received', joinings' :=
      wants[t := w], received[t := Fitting(w, found)], joinings[t := JoiningAt(c, target)];
    forall k, i | k in after && 0 <= i < |after[k]|
      ensures FedCaller(after[k][i], d.gets[k].responses + HeardBy(None, k), wants', received', joinings')
    {
      if after[k][i] == t {
        assert d.gets[target].responses + HeardBy(None, k) == d.gets[target].responses;
      } else {
        assert FedCaller(senders[k][i], c.gets[k].responses + HeardBy(None, k), wants, received, joinings);
      }
    }
  }

  /** A caller who joins with a new ticket loses nobody and misses nothing. */
  lemma {:induction false} JoinKeeps<T>(c: Core, d: Core, target: Id, findNode: bool, asked: map<nat, Id>,
                                        other: map<nat, Id>, senders: Senders, answered: seq<Answered<T>>,
                                        wants: map<nat, Wants>, received: Channel, joinings: map<nat, Joining>,
                                        tickets: nat, w: Wants)
    requires Joined(c, d, findNode) && target in d.gets && Fed(senders, c.gets, None, wants, received, joinings)
    requires Conserved(asked, senders, answered) && Issued(asked, tickets) && Issued(other, tickets)
    ensures Conserved(asked[tickets := target], Enlist(senders, target, tickets), answered)
    ensures Issued(asked[tickets := target], tickets + 1) && Issued(other, tickets + 1)
    ensures Fed(Enlist(senders, target, tickets), d.gets, None, wants[tickets := w],
                received[tickets := Fitting(w, GivenAtOnce(c, target))], joinings[tickets := JoiningAt(c, target)])
  {
    hide Joined, Fed, Conserved, Issued, Fitting, GivenAtOnce, JoiningAt, Enlist;
    NewTicket(asked, other, tickets, target);
    EnlistConserves(asked, senders, answered, target, tickets);
    NobodyHasTicket(asked, senders, answered, tickets);
    JoinFeeds(c, d, target, findNode, senders, wants, received, joinings, tickets, w);
  }

  /** Callers who wait are not concerned when other lookups join theirs. */
  lemma OthersStayFed(c: Core, d: Core, findNode: bool, senders: Senders, wants: map<nat, Wants>, received: Channel,
                      joinings: map<nat, Joining>)
    requires Joined(c, d, findNode) && Fed(senders, c.gets, None, wants, received, joinings)
    ensures Fed(senders, d.gets, None, wants, received, joinings)
  {
    hide FedCaller;
  }

  // === Ticks ===

  lemma WaitersAre<T>(senders: Senders, asked: map<nat, Id>, answered: seq<Answered<T>>, gets: map<Id, GetEntry>,
                      wants: map<nat, Wants>, received: Channel, joinings: map<nat, Joining>)
    requires Conserved(asked, senders, answered) && Fed(senders, gets, None, wants, received, joinings)
    ensures forall k, i :: k in senders && 0 <= i < |senders[k]| ==>
              && senders[k][i] in wants && senders[k][i] in received
              && senders[k][i] in asked && asked[senders[k][i]] == k
    ensures forall k, i, j :: k in senders && 0 <= i < j < |senders[k]| ==> senders[k][i] != senders[k][j]
  {
    forall k, i | k in senders && 0 <= i < |senders[k]| ensures senders[k][i] in wants && senders[k][i] in received {
      assert FedCaller(senders[k][i], gets[k].responses + HeardBy(None, k), wants, received, joinings);
    }
  }

  /** A value goes to everyone who waits for its target. */
  method Forward(heard: Option<(Id, Value)>, senders: Senders, wants: map<nat, Wants>, received: Channel)
    returns (after: Channel)
    requires forall k, i :: k in senders && 0 <= i < |senders[k]| ==>
               senders[k][i] in wants && senders[k][i] in received
    requires forall k, i, j :: k in senders && 0 <= i < j < |senders[k]| ==> senders[k][i] != senders[k][j]
    ensures after.Keys == received.Keys
    ensures forall t :: t in received ==>
              after[t] == received[t] + if heard.Some? && t in Entry(senders, heard.value.0)
                                        then (if t in wants then Fitting(wants[t], [heard.value.1]) else []) else []
  {
    after := received;
    if heard.None? || heard.value.0 !in senders {
      return;
    }
    var (k, value) := heard.value;
    for i := 0 to |senders[k]|
      invariant after.Keys == received.Keys
      invariant forall t :: t in received ==>
                  after[t] == received[t] + if t in senders[k][..i] then Fitting(wants[t], [value]) else []
    {
      var t := senders[k][i];
      after := after[t := after[t] + Fitting(wants[t], [value])];
    }
  }

  /** Whoever waited for a lookup when the tick began has now been sent all that it found. */
  lemma ForwardFeeds(senders: Senders, asked: map<nat, Id>, gets: map<Id, GetEntry>, heard: Option<(Id, Value)>,
                     wants: map<nat, Wants>, received: Channel, after: Channel, joinings: map<nat, Joining>)
    requires Fed(senders, gets, None, wants, received, joinings)
    requires forall k, i :: k in senders && 0 <= i < |senders[k]| ==>
               senders[k][i] in asked && asked[senders[k][i]] == k
    requires after.Keys == received.Keys
    requires forall t :: t in received ==>
               after[t] == received[t] + if heard.Some? && t in Entry(senders, heard.value.0)
                                         then (if t in wants then Fitting(wants[t], [heard.value.1]) else []) else []
    ensures Fed(senders, gets, heard, wants, after, joinings)
  {
    hide Fitting, Given;
    forall k, i | k in senders && 0 <= i < |senders[k]|
      ensures FedCaller(senders[k][i], gets[k].responses + HeardBy(heard, k), wants, after, joinings)
    {
      var t, responses, more := senders[k][i], gets[k].responses, HeardBy(heard, k);
      assert FedCaller(t, responses + HeardBy(None, k), wants, received, joinings);
      assert responses + HeardBy(None, k) == responses;
      GivenMore(joinings[t], responses, more);
      FittingConcat(wants[t], Given(joinings[t], responses), more);
      if heard.Some? && t in Entry(senders, heard.value.0) {
        var j :| 0 <= j < |senders[heard.value.0]| && senders[heard.value.0][j] == t;
        assert heard.value.0 == k;
      }
      FittingNone(wants[t]);
    }
  }

  lemma GivenMore(j: Joining, responses: seq<Value>, more: seq<Value>)
    requires j.at <= |responses|
    ensures Given(j, responses + more) == Given(j, responses) + more
  {
  }

  /** A lookup that goes on has gained exactly the value heard. */
  lemma TickFeeds(checks: Checks, before: Core, asked: Core, ready: Core, after: Core,
                  publicAddress: Option<Addr>, report: Report, around: Around, timeout: nat, senders: Senders,
                  wants: map<nat, Wants>, received: Channel, joinings: map<nat, Joining>)
    requires Advanced(checks, before, asked, ready, after, publicAddress, report, around, timeout)
    requires Fed(senders, before.gets, report.heard, wants, received, joinings)
    ensures Fed(senders - TargetsOf(report.doneGets), after.gets, None, wants, received, joinings)
  {
    hide PutsEnded, PutsCleaned, Heard, GetsReported, FedCaller;
    var left := senders - TargetsOf(report.doneGets);
    forall k | k in left
      ensures k in after.gets
      ensures after.gets[k].responses + HeardBy(None, k) == before.gets[k].responses + HeardBy(report.heard, k)
    {
      assert OnlyAsked(before.gets[k], asked.gets[k]);
    }
  }

  // === Kinds ===

  /** A channel carries the values of its kind, all of them and no others; one that wants nodes carries none. */
  lemma {:induction false} FittingIs(vs: seq<Value>, v: Value)
    ensures v in Fitting(WantsPeers, vs) <==> v in vs && v.PeersValue?
    ensures v in Fitting(WantsImmutable, vs) <==> v in vs && v.ImmutableValue?
    ensures v in Fitting(WantsMutable, vs) <==> v in vs && v.MutableValue?
    ensures Fitting(WantsNodes, vs) == []
  {
    if vs != [] {
      var init, last := vs[..|vs| - 1], vs[|vs| - 1];
      FittingIs(init, v);
      assert vs == init + [last];
      assert v in vs <==> v in init || v == last;
    }
  }
}
