/** Steps of the node's puts and lookups as functions and relations, and what each keeps. */
module RpcSteps {
  import opened Ids
  import opened Nodes
  import opened Options
  import opened SortedList
  import opened Closest
  import opened RoutingTables
  import opened Lru
  import opened Socket
  import opened IterativeQueries
  import opened PutQueries
  import opened Statistics
  import opened Mutable
  import opened Tids
  import opened RpcCore

  // A put panics when it is given more nodes than this.
  const MAX_CLOSEST: nat := 255

  /** The checksum behind secure ids, and the hash and signature behind values. */
  datatype Checks = Checks(crc: Crc, crypto: Crypto)

  // === Lookups ===

  ghost predicate AllTokens(ns: seq<Node>) { forall n <- ns :: n.token.Some? }

  /** A value that passed the check of its kind for this target. */
  ghost predicate Genuine(checks: Checks, target: Id, salt: Option<Bytes>, value: Value) {
    match value
    case PeersValue(_) => true
    case ImmutableValue(v) => ValidateImmutable(checks.crypto, v, target)
    case MutableValue(item) =>
      && item.target == target && item.salt == salt
      && checks.crypto.verify(item.key, Signable(item.sequence, item.value, item.salt), item.signature)
  }

  /** Candidates and responders are sorted, every responder gave a token, and every response is genuine. */
  ghost predicate LookupOk(checks: Checks, target: Id, e: GetEntry) {
    && Sorted(KeyFor(checks.crc, target), e.query.closest)
    && Sorted(KeyFor(checks.crc, target), e.responders)
    && AllTokens(e.responders)
    && forall i :: 0 <= i < |e.responses| ==> Genuine(checks, target, e.salt, e.responses[i])
  }

  ghost predicate LookupsOk(checks: Checks, gets: map<Id, GetEntry>) {
    forall k :: k in gets ==> LookupOk(checks, k, gets[k])
  }

  function CachedNodes(c: Cache<Id, CachedQuery>, target: Id): seq<Node> {
    match Peek(c, target)
    case Some(q) => q.nodes
    case None => []
  }

  /** The table's nodes first, then those that answered the last lookup of the same target. */
  function Candidates(crc: Crc, target: Id, seeds: seq<Node>, cached: seq<Node>): seq<Node> {
    AddAll(KeyFor(crc, target), BlocksFor(crc), [], seeds + cached)
  }

  /** Explicit addresses are visited before there are candidates, then the closest candidates. */
  function OpenLookup(c: Core, target: Id, e: GetEntry, explicit: seq<Addr>, now: nat): Core {
    var d := WithVisits(c, target, e, explicit, now);
    WithVisits(d, target, d.gets[target], ToVisit(d.gets[target].query), now)
  }

  /** A new lookup joins the others and disturbs no other query. */
  lemma OpenLookupKeeps(c: Core, target: Id, e: GetEntry, explicit: seq<Addr>, now: nat)
    requires Healthy(c) && target !in c.gets && e.query.inflight == []
    ensures var d := OpenLookup(c, target, e, explicit, now);
            && Healthy(d) && d.puts == c.puts && d.gets.Keys == c.gets.Keys + {target}
            && (forall k :: k in c.gets ==> d.gets[k] == c.gets[k])
            && d.gets[target] == e.(query := d.gets[target].query) && c.sock.issued <= d.sock.issued
  {
    VisitsKeepHealthy(c, target, e, explicit, now);
    var d := WithVisits(c, target, e, explicit, now);
    VisitsKeepHealthy(d, target, d.gets[target], ToVisit(d.gets[target].query), now);
  }

  /** A new lookup has already asked every explicit address and its closest candidates. */
  lemma OpenLookupVisits(c: Core, target: Id, e: GetEntry, explicit: seq<Addr>, now: nat)
    ensures var q := OpenLookup(c, target, e, explicit, now).gets[target].query;
            && q.closest == e.query.closest
            && (forall a <- explicit :: a in q.visited)
            && (forall n <- FirstK(e.query.closest) :: n.addr in q.visited)
  {
    VisitAllSpec(e.query, c.sock, explicit, now);
    var d := WithVisits(c, target, e, explicit, now);
    DoneMeansVisitedAndAnswered(d.gets[target].query, d.sock, now, 0);
    VisitAllSpec(d.gets[target].query, d.sock, ToVisit(d.gets[target].query), now);
  }

  /** Bootstrapping nodes are asked when the table has fewer nodes than they are. */
  function Explicit(bootstrap: seq<Addr>, seeds: seq<Node>): seq<Addr> {
    if |seeds| == 0 || |seeds| < |bootstrap| then bootstrap else []
  }

  /** What a get does to the queries: nothing if the target has a lookup, else it opens one. */
  function Looked(checks: Checks, bootstrap: seq<Addr>, c: Core, cache: Cache<Id, CachedQuery>, target: Id,
                  findNode: bool, salt: Option<Bytes>, seeds: seq<Node>, extra: seq<Addr>, now: nat): Core
  {
    if target in c.gets then c
    else
      var candidates := Candidates(checks.crc, target, seeds, CachedNodes(cache, target));
      OpenLookup(c, target, NewLookup(candidates, findNode, salt), Explicit(bootstrap, seeds) + extra, now)
  }

  /** The lookups of `c` stay as they are, and any other in `d` is of this kind. */
  ghost predicate Joined(c: Core, d: Core, findNode: bool) {
    && d.puts == c.puts && (forall k :: k in c.gets ==> k in d.gets && d.gets[k] == c.gets[k])
    && (forall k :: k in d.gets && k !in c.gets ==> d.gets[k].findNode == findNode && d.gets[k].responses == [])
  }

  /** What a socket sends concerns no lookup. */
  lemma JoinedItself(c: Core, s: Sock)
    ensures Joined(c, c.(sock := s), true)
    ensures forall d :: Joined(c.(sock := s), d, true) ==> Joined(c, d, true)
  {
  }

  lemma LookedOk(checks: Checks, bootstrap: seq<Addr>, c: Core, cache: Cache<Id, CachedQuery>, target: Id,
                 findNode: bool, salt: Option<Bytes>, seeds: seq<Node>, extra: seq<Addr>, now: nat)
    requires Healthy(c) && LookupsOk(checks, c.gets)
    ensures var d := Looked(checks, bootstrap, c, cache, target, findNode, salt, seeds, extra, now);
            && Healthy(d) && LookupsOk(checks, d.gets) && d.gets.Keys == c.gets.Keys + {target}
            && Joined(c, d, findNode) && c.sock.issued <= d.sock.issued
  {
    if target !in c.gets {
      var e := NewLookup(Candidates(checks.crc, target, seeds, CachedNodes(cache, target)), findNode, salt);
      OpenLookupKeeps(c, target, e, Explicit(bootstrap, seeds) + extra, now);
      OpenLookupVisits(c, target, e, Explicit(bootstrap, seeds) + extra, now);
      AddAllSorted(KeyFor(checks.crc, target), BlocksFor(checks.crc), [], seeds + CachedNodes(cache, target));
    }
  }

  lemma LookedIsLater(checks: Checks, bootstrap: seq<Addr>, c: Core, cache: Cache<Id, CachedQuery>, target: Id,
                      findNode: bool, salt: Option<Bytes>, seeds: seq<Node>, extra: seq<Addr>, now: nat)
    ensures Later(c.sock, Looked(checks, bootstrap, c, cache, target, findNode, salt, seeds, extra, now).sock, now)
  {
    hide Later, Candidates, ToVisit, VisitAll;
    var d := Looked(checks, bootstrap, c, cache, target, findNode, salt, seeds, extra, now);
    if target in c.gets {
      LaterItself(c.sock, now);
    } else {
      var e := NewLookup(Candidates(checks.crc, target, seeds, CachedNodes(cache, target)), findNode, salt);
      var explicit := Explicit(bootstrap, seeds) + extra;
      var first := WithVisits(c, target, e, explicit, now);
      VisitAllIsLater(e.query, c.sock, explicit, now);
      VisitAllIsLater(first.gets[target].query, first.sock, ToVisit(first.gets[target].query), now);
      LaterTrans(c.sock, first.sock, d.sock, now);
    }
  }

  // === Responses ===

  /** The value of a mutable put in flight, which callers of a get are given at once. */
  function InflightValue(puts: map<Id, PutEntry>, target: Id): seq<Value> {
    if target in puts && puts[target].kind.Signed? then [MutableValue(ItemOf(puts[target].kind.put))] else []
  }

  /** What a caller of a get is given at once, if anything. */
  function FoundNow(c: Core, target: Id): Option<seq<Value>> {
    if target in c.gets then Some(c.gets[target].responses + InflightValue(c.puts, target))
    else if InflightValue(c.puts, target) != [] then Some(InflightValue(c.puts, target))
    else None
  }

  /** What a finished lookup hands to whoever waits for its nodes. */
  ghost function StoreAt(k: Id, e: GetEntry, averages: Averages): seq<Node> {
    if e.findNode then FirstK(e.query.closest) else Taken(k, e.responders, averages.estimate, averages.subnets)
  }

  /** Which is the closest nodes or the first of the responders, and nobody only when there is nobody. */
  ghost predicate FoundBy(e: GetEntry, nodes: seq<Node>) {
    if e.findNode then nodes == FirstK(e.query.closest)
    else nodes <= e.responders && (nodes == [] <==> e.responders == [])
  }

  lemma StoreAtIsFound(k: Id, e: GetEntry, averages: Averages)
    ensures FoundBy(e, StoreAt(k, e, averages))
  {
  }

  // === Replies ===

  datatype Payload =
    | PeersPayload(peers: seq<Addr>)
    | ImmutablePayload(v: Bytes)
    | MutablePayload(v: Bytes, k: Bytes, sequence: int, sig: Bytes)

  datatype Reply = Reply(tid: nat, readOnly: bool, answer: Answer, closer: seq<Node>,
                         token: Option<(Id, Bytes)>, requesterIp: Option<Addr>, payload: Option<Payload>)

  /** The value in a reply, if it passes its check. */
  function ValueIn(checks: Checks, target: Id, e: GetEntry, r: Reply): Option<Value> {
    match r.payload
    case None => None
    case Some(PeersPayload(peers)) => Some(PeersValue(peers))
    case Some(ImmutablePayload(v)) =>
      if ValidateImmutable(checks.crypto, v, target) then Some(ImmutableValue(v)) else None
    case Some(MutablePayload(v, k, sequence, sig)) =>
      match FromDhtMessage(checks.crypto, PutMutable(target, v, k, sequence, sig, e.salt, None))
      case Some(item) => Some(MutableValue(item))
      case None => None
  }

  lemma ValueIsGenuine(checks: Checks, target: Id, e: GetEntry, r: Reply)
    ensures var v := ValueIn(checks, target, e, r); v.Some? ==> Genuine(checks, target, e.salt, v.value)
  {
  }

  /** What a lookup learns from a reply. */
  function Informed(checks: Checks, target: Id, e: GetEntry, from: Addr, r: Reply, now: nat): GetEntry {
    var key, blocks := KeyFor(checks.crc, target), BlocksFor(checks.crc);
    var closest := AddAll(key, blocks, e.query.closest, r.closer);
    var responders :=
      match r.token
      case Some(t) => AddOne(key, blocks, e.responders, Node(t.0, from, Some(t.1), now))
      case None => e.responders;
    var votes :=
      match r.requesterIp
      case Some(a) => e.votes[a := VotesFor(e.votes, a) + 1]
      case None => e.votes;
    var responses :=
      match ValueIn(checks, target, e, r)
      case Some(v) => e.responses + [v]
      case None => e.responses;
    e.(query := e.query.(closest := closest), responders := responders, votes := votes, responses := responses)
  }

  lemma InformedOk(checks: Checks, target: Id, e: GetEntry, from: Addr, r: Reply, now: nat)
    requires LookupOk(checks, target, e)
    ensures LookupOk(checks, target, Informed(checks, target, e, from, r, now))
  {
    var key, blocks := KeyFor(checks.crc, target), BlocksFor(checks.crc);
    AddAllSorted(key, blocks, e.query.closest, r.closer);
    ValueIsGenuine(checks, target, e, r);
    if r.token.Some? {
      var n := Node(r.token.value.0, from, Some(r.token.value.1), now);
      AddKeepsSorted(key, blocks, e.responders, n);
      AddOneMembers(key, blocks, e.responders, n);
    }
  }

  /** A lookup gains the value of a reply, and nothing else happens to its responses or its requests. */
  lemma InformedGains(checks: Checks, target: Id, e: GetEntry, from: Addr, r: Reply, now: nat)
    ensures var after, value := Informed(checks, target, e, from, r, now), ValueIn(checks, target, e, r);
            && after.responses == e.responses + (if value.Some? then [value.value] else [])
            && after.findNode == e.findNode && after.salt == e.salt && after.query.inflight == e.query.inflight
  {
  }

  lemma AddOneMembers(key: Node -> Key, blocks: (Node, Node) -> bool, ns: seq<Node>, n: Node)
    requires Sorted(key, ns)
    ensures forall m <- AddOne(key, blocks, ns, n) :: m in ns || m == n
  {
    AddKeepsSorted(key, blocks, ns, n);
    forall m <- AddOne(key, blocks, ns, n) ensures m in ns || m == n {
      assert m in multiset(AddOne(key, blocks, ns, n));
    }
  }

  // === Puts ===

  /** `after` is the put `before`, started: one request went to each node with a token. */
  ghost predicate StartedAt(before: PutEntry, after: PutEntry, nodes: seq<Node>, now: nat) {
    && after == before.(state := before.state.(inflight := after.state.inflight),
                        asked := Holders(nodes + before.extra), sentAt := now)
    && |after.state.inflight| == |Holders(nodes + before.extra)|
  }

  /** A start at some nodes sends a request exactly when there is a token. */
  lemma {:induction false} StartsSafely(c: Core, target: Id, e: PutEntry, closest: seq<Node>, now: nat)
    requires Healthy(c) && !Started(e.state)
    requires e == NewEntry(e.kind, e.extra) || (target in c.puts && c.puts[target] == e)
    requires closest != []
    ensures var (d, error) := WithPut(c, target, e, closest, now);
            && Healthy(d) && error == None && d.gets == c.gets && d.puts.Keys == c.puts.Keys + {target}
            && (forall k :: k in c.puts && k != target ==> d.puts[k] == c.puts[k])
            && (Started(d.puts[target].state) <==> exists n <- closest + e.extra :: n.token.Some?)
            && StartedAt(e, d.puts[target], closest, now) && c.sock.issued <= d.sock.issued
  {
    SendAllSent(c.sock, Holders(closest + e.extra), now);
    StartKeepsHealthy(c, target, e, closest, now);
    StartedIffSomeToken(e.state, c.sock, closest, e.extra, now);
  }

  lemma WithPutIsLater(c: Core, target: Id, e: PutEntry, closest: seq<Node>, now: nat)
    ensures Later(c.sock, WithPut(c, target, e, closest, now).0.sock, now)
  {
    hide Later, SendAll;
    LaterItself(c.sock, now);
    SendAllIsLater(c.sock, Holders(closest + e.extra), now);
  }

  /** A put that waits has sent nothing. */
  lemma EnrolKeepsHealthy(c: Core, target: Id, e: PutEntry)
    requires Healthy(c) && e == NewEntry(e.kind, e.extra)
    ensures Healthy(c.(puts := c.puts[target := e]))
  {
    if c.sock.issued <= TID_COUNT {
      ForgetTids(ListsOf(c.puts, c.gets), c.sock.issued, ListsOf(c.puts[target := e], c.gets), c.sock.issued);
      StartedBounded(e.state.inflight, c.sock.table);
    }
  }

  /** Whether a put is turned down because of the one in flight for its target, and why. */
  function Rejection(existing: Option<PutEntry>, kind: PutKind): Option<PutError> {
    if kind.Plain? || existing.None? || existing.value.kind.Plain? then None
    else
      var inflight := existing.value.kind;
      if kind.put.sig == inflight.put.sig then None
      else if kind.put.sequence < inflight.put.sequence then Some(NotMostRecent)
      else if kind.put.cas.None? then Some(ConflictRisk)
      else if kind.put.cas.value == inflight.put.sequence then None
      else Some(PutError.CasFailed)
  }

  function Existing(puts: map<Id, PutEntry>, target: Id): Option<PutEntry> {
    if target in puts then Some(puts[target]) else None
  }

  /** The put in flight already is this one. */
  predicate SamePut(existing: Option<PutEntry>, kind: PutKind) {
    kind.Signed? && existing.Some? && existing.value.kind.Signed? && existing.value.kind.put.sig == kind.put.sig
  }

  /** Cached nodes are used when some node is recent enough, which says nothing about tokens. */
  predicate Usable(nodes: seq<Node>, now: nat) {
    nodes != [] && exists i :: 0 <= i < |nodes| && ValidToken(nodes[i], now)
  }

  /** A put that starts at cached nodes starts at more than it can take. */
  predicate StartsAtTooMany(nodes: seq<Node>, now: nat) { Usable(nodes, now) && |nodes| > MAX_CLOSEST }

  /** A new put starts at usable cached nodes; otherwise it has sent nothing, and a lookup of its target is active. */
  ghost predicate Enrolled(e: PutEntry, kind: PutKind, extra: seq<Node>, cached: seq<Node>,
                           before: map<Id, GetEntry>, after: map<Id, GetEntry>, target: Id, now: nat)
  {
    if Usable(cached, now) then
      && StartedAt(NewEntry(kind, extra), e, cached, now) && after == before
      && (Started(e.state) <==> exists n <- cached + extra :: n.token.Some?)
    else e == NewEntry(kind, extra) && target in after
  }

  /** The targets of a report. */
  function TargetsOf<T>(done: seq<(Id, T)>): set<Id> { set i | 0 <= i < |done| :: done[i].0 }

  ghost predicate NoTargetTwice<T>(done: seq<(Id, T)>) {
    forall i, j :: 0 <= i < j < |done| ==> done[i].0 != done[j].0
  }

  lemma TargetsSnoc<T>(done: seq<(Id, T)>, k: Id, x: T)
    ensures TargetsOf(done + [(k, x)]) == TargetsOf(done) + {k}
    ensures NoTargetTwice(done) && k !in TargetsOf(done) ==> NoTargetTwice(done + [(k, x)])
  {
    var more := done + [(k, x)];
    forall t | t in TargetsOf(done) + {k} ensures t in TargetsOf(more) {
      if t == k {
        assert more[|done|].0 == k;
      } else {
        var i :| 0 <= i < |done| && done[i].0 == t;
        assert more[i].0 == t;
      }
    }
  }

  function ResultOf(v: Verdict): Option<PutError> { if v.Failed? then Some(v.error) else None }

  // === Ticks ===

  /** The puts outside `left` that have ended, each once, with their verdicts. */
  ghost predicate PutsReported(done: seq<(Id, Option<PutError>)>, puts: map<Id, PutEntry>, left: set<Id>,
                               t: Table, now: nat, timeout: nat)
  {
    && NoTargetTwice(done)
    && (forall k :: k in TargetsOf(done) <==>
          k in puts && k !in left && TickPut(puts[k].state, t, now, timeout) != Pending)
    && (forall i :: 0 <= i < |done| ==>
          done[i].0 in puts && done[i].1 == ResultOf(TickPut(puts[done[i].0].state, t, now, timeout)))
  }

  ghost predicate Expired(e: GetEntry, t: Table, now: nat, timeout: nat) {
    AllExpired(e.query.inflight, t, now, timeout)
  }

  /** Nobody among the 20 closest is left to ask. */
  ghost predicate AskedClosest(q: Query) { forall n <- FirstK(q.closest) :: n.addr in q.visited }

  ghost predicate AllAskedClosest(gets: map<Id, GetEntry>) { forall k :: k in gets ==> AskedClosest(gets[k].query) }

  /** The lookups outside `left` that have ended, each once, with the nodes they found. */
  ghost predicate GetsReported(done: seq<(Id, seq<Node>)>, gets: map<Id, GetEntry>, left: set<Id>,
                               s: Sock, now: nat, timeout: nat)
  {
    && NoTargetTwice(done)
    && (forall i :: 0 <= i < |done| ==>
          done[i].0 in gets && done[i].0 !in left && FoundBy(gets[done[i].0], done[i].1))
    && (forall k :: k in gets && k !in left ==> AskedClosest(gets[k].query))
    && (s.issued <= TID_COUNT ==>
          forall k :: k in gets && k !in left ==> (k in TargetsOf(done) <==> Expired(gets[k], s.table, now, timeout)))
  }

  /** They are the closest nodes, or where the walk over the responders ends with these averages. */
  ghost predicate NodesStored(done: seq<(Id, seq<Node>)>, gets: map<Id, GetEntry>, averages: Averages) {
    forall i :: 0 <= i < |done| ==>
      done[i].0 in gets && done[i].1 == StoreAt(done[i].0, gets[done[i].0], averages)
  }

  lemma NodesStoredStep(done: seq<(Id, seq<Node>)>, gets: map<Id, GetEntry>, gets': map<Id, GetEntry>, k: Id,
                        nodes: seq<Node>, averages: Averages)
    requires NodesStored(done, gets, averages) && k in gets && k !in TargetsOf(done)
    requires gets'.Keys == gets.Keys && forall j :: j in gets && j != k ==> gets'[j] == gets[j]
    requires nodes == StoreAt(k, gets'[k], averages)
    ensures NodesStored(done, gets', averages) && NodesStored(done + [(k, nodes)], gets', averages)
  {
    hide StoreAt;
  }

  lemma NothingStored(gets: map<Id, GetEntry>, averages: Averages)
    ensures NodesStored([], gets, averages)
  {
  }

  lemma LeftIsUnreported(done: seq<(Id, seq<Node>)>, gets: map<Id, GetEntry>, left: set<Id>, s: Sock, k: Id, now: nat,
                         timeout: nat)
    requires GetsReported(done, gets, left, s, now, timeout) && k in left
    ensures k !in TargetsOf(done)
  {
  }

  lemma NothingReported(gets: map<Id, GetEntry>, s: Sock, now: nat, timeout: nat)
    ensures GetsReported([], gets, gets.Keys, s, now, timeout)
  {
  }

  /** One more lookup was ticked, and is reported if it ended. */
  lemma GetsReportedStep(done: seq<(Id, seq<Node>)>, gets: map<Id, GetEntry>, s: Sock, gets': map<Id, GetEntry>,
                         s': Sock, left: set<Id>, k: Id, finished: bool, nodes: seq<Node>, now: nat, timeout: nat)
    requires GetsReported(done, gets, left, s, now, timeout) && k in left && k in gets
    requires gets'.Keys == gets.Keys && forall j :: j in gets && j != k ==> gets'[j] == gets[j]
    requires FoundBy(gets'[k], nodes) && AskedClosest(gets'[k].query) && s.issued <= s'.issued
    requires finished <==> Expired(gets'[k], s'.table, now, timeout)
    requires s'.issued <= TID_COUNT ==> forall j :: j in gets' && j != k ==>
               (Expired(gets'[j], s.table, now, timeout) <==> Expired(gets'[j], s'.table, now, timeout))
    ensures GetsReported(if finished then done + [(k, nodes)] else done, gets', left - {k}, s', now, timeout)
  {
    hide AskedClosest, FoundBy, Expired;
    TargetsSnoc(done, k, nodes);
  }

  /** A tick only lets a lookup ask more nodes: those of the closest that it has not asked. */
  ghost predicate OnlyAsked(before: GetEntry, after: GetEntry) {
    && after == before.(query := after.query) && after.query.closest == before.query.closest
    && (forall a :: a in after.query.visited <==> a in before.query.visited || a in ToVisit(before.query))
    && (ToVisit(before.query) == [] ==> after == before)
  }

  function TickedGet(c: Core, k: Id, now: nat): Core
    requires k in c.gets
  {
    WithVisits(c, k, c.gets[k], ToVisit(c.gets[k].query), now)
  }

  lemma TickGetKeeps(checks: Checks, c: Core, k: Id, now: nat)
    requires Healthy(c) && LookupsOk(checks, c.gets) && k in c.gets
    ensures var d := TickedGet(c, k, now);
            && Healthy(d) && LookupsOk(checks, d.gets) && d.puts == c.puts && d.gets.Keys == c.gets.Keys
            && (forall j :: j in c.gets && j != k ==> d.gets[j] == c.gets[j])
            && OnlyAsked(c.gets[k], d.gets[k]) && AskedClosest(d.gets[k].query)
            && c.sock.issued <= d.sock.issued && (AskedClosest(c.gets[k].query) ==> d == c)
  {
    var q := c.gets[k].query;
    VisitsKeepHealthy(c, k, c.gets[k], ToVisit(q), now);
    VisitAllSpec(q, c.sock, ToVisit(q), now);
    DoneMeansVisitedAndAnswered(q, c.sock, now, 0);
    assert LookupOk(checks, k, c.gets[k]);
  }

  /** Whether another lookup has ended does not depend on the ids issued since. */
  lemma OthersStayExpired(c: Core, k: Id, j: Id, now: nat, timeout: nat)
    requires Healthy(c) && k in c.gets && j in c.gets && j != k
    requires TickedGet(c, k, now).sock.issued <= TID_COUNT && c.sock.issued <= TickedGet(c, k, now).sock.issued
    ensures Expired(c.gets[j], c.sock.table, now, timeout)
        <==> Expired(c.gets[j], TickedGet(c, k, now).sock.table, now, timeout)
  {
    var q := c.gets[k].query;
    var _ := VisitAllTids(q, c.sock, ToVisit(q), now);
    var l := ListsOf(c.puts, c.gets)(GetOwner(j));
    assert Below(l, c.sock.issued);
  }

  // === Finished lookups ===

  /** A finished lookup fails the put that waits for it when it found nobody to store at. */
  ghost predicate FailsPut(puts: map<Id, PutEntry>, k: Id, e: GetEntry, nodes: seq<Node>) {
    k in puts && !Started(puts[k].state) && !e.findNode && nodes == []
  }

  lemma RemoveGetKeeps(checks: Checks, c: Core, k: Id)
    requires Healthy(c) && LookupsOk(checks, c.gets) && k in c.gets
    ensures Healthy(c.(gets := c.gets - {k})) && LookupsOk(checks, c.gets - {k}) && LookupOk(checks, k, c.gets[k])
  {
    ForgetKeepsHealthy(c, c.puts, c.gets - {k});
  }

  function CachedAfter(c: Cache<Id, CachedQuery>, k: Id, e: GetEntry, nodes: seq<Node>, size: (real, real))
    : Cache<Id, CachedQuery>
  {
    if e.query.closest == [] then MadeRoom(c)
    else Put(MadeRoom(c), k, CachedQuery(nodes, size.0, size.1, SubnetCount(e.query.closest), e.findNode))
  }

  /** The cache after all finished lookups, one after the other. */
  ghost function CachedAll(c: Cache<Id, CachedQuery>, gets: map<Id, GetEntry>, done: seq<(Id, seq<Node>)>,
                           sizes: Id -> (real, real)): Cache<Id, CachedQuery>
    requires TargetsOf(done) <= gets.Keys
  {
    if done == [] then c
    else
      var init, (k, nodes) := done[..|done| - 1], done[|done| - 1];
      assert k in TargetsOf(done);
      PrefixTargets(done, |done| - 1);
      assert done[..|done|] == done;
      CachedAfter(CachedAll(c, gets, init, sizes), k, gets[k], nodes, sizes(k))
  }

  lemma {:induction false} CachedNone(c: Cache<Id, CachedQuery>, gets: map<Id, GetEntry>, sizes: Id -> (real, real))
    ensures TargetsOf<seq<Node>>([]) <= gets.Keys && CachedAll(c, gets, [], sizes) == c
  {
  }

  lemma {:induction false} CachedStep(c: Cache<Id, CachedQuery>, gets: map<Id, GetEntry>,
                                      done: seq<(Id, seq<Node>)>, n: nat, sizes: Id -> (real, real))
    requires n < |done| && TargetsOf(done) <= gets.Keys
    ensures TargetsOf(done[..n]) <= TargetsOf(done[..n + 1]) <= gets.Keys && done[n].0 in gets
    ensures CachedAll(c, gets, done[..n + 1], sizes)
         == CachedAfter(CachedAll(c, gets, done[..n], sizes), done[n].0, gets[done[n].0], done[n].1, sizes(done[n].0))
  {
    hide CachedAfter;
    PrefixTargets(done, n);
    assert done[..n + 1][..n] == done[..n] && done[..n + 1][n] == done[n];
    forall k | k in TargetsOf(done[..n + 1]) ensures k in TargetsOf(done) {
      var i :| 0 <= i < n + 1 && done[..n + 1][i].0 == k;
      assert done[i].0 == k;
    }
  }

  /** Responders have tokens, so a put started at some of them sends requests. */
  lemma RespondersHaveTokens(checks: Checks, k: Id, e: GetEntry, nodes: seq<Node>, extra: seq<Node>)
    requires LookupOk(checks, k, e) && !e.findNode && FoundBy(e, nodes) && nodes != []
    ensures exists n <- nodes + extra :: n.token.Some?
  {
    var n := nodes[0];
    assert e.responders[0] == n && n in e.responders;
    assert n in nodes + extra;
  }

  /** What a finished lookup does to the put of its target. */
  ghost predicate PutAfterGet(before: PutEntry, after: PutEntry, e: GetEntry, nodes: seq<Node>, now: nat) {
    if Started(before.state) || e.findNode || nodes == [] then after == before
    else Started(after.state) && StartedAt(before, after, nodes, now)
  }

  ghost predicate PutsAfterGet(puts: map<Id, PutEntry>, puts': map<Id, PutEntry>, k: Id, e: GetEntry,
                               nodes: seq<Node>, now: nat)
  {
    && puts'.Keys == puts.Keys && (forall j :: j in puts && j != k ==> puts'[j] == puts[j])
    && (k in puts ==> PutAfterGet(puts[k], puts'[k], e, nodes, now))
  }

  /** The puts that fail because their lookup found nobody. */
  ghost function Failures(puts: map<Id, PutEntry>, gets: map<Id, GetEntry>, done: seq<(Id, seq<Node>)>)
    : seq<(Id, Option<PutError>)>
  {
    if done == [] then []
    else
      var last := done[|done| - 1];
      Failures(puts, gets, done[..|done| - 1])
      + if last.0 in gets && FailsPut(puts, last.0, gets[last.0], last.1) then [(last.0, Some(NoClosestNodes))] else []
  }

  /** The first `n` finished lookups were dealt with: only the puts of their targets changed. */
  ghost predicate Cleaned(puts: map<Id, PutEntry>, gets: map<Id, GetEntry>, puts': map<Id, PutEntry>,
                          gets': map<Id, GetEntry>, done: seq<(Id, seq<Node>)>, n: nat, now: nat)
  {
    && n <= |done| && puts'.Keys == puts.Keys && gets' == gets - TargetsOf(done[..n])
    && (forall k :: k in puts && k !in TargetsOf(done[..n]) ==> puts'[k] == puts[k])
    && (forall i :: 0 <= i < n && done[i].0 in puts && done[i].0 in gets ==>
          PutAfterGet(puts[done[i].0], puts'[done[i].0], gets[done[i].0], done[i].1, now))
  }

  lemma PrefixTargets<T>(done: seq<(Id, T)>, n: nat)
    requires n < |done|
    ensures TargetsOf(done[..n + 1]) == TargetsOf(done[..n]) + {done[n].0}
    ensures NoTargetTwice(done) ==> done[n].0 !in TargetsOf(done[..n])
  {
    assert done[..n + 1] == done[..n] + [(done[n].0, done[n].1)];
    TargetsSnoc(done[..n], done[n].0, done[n].1);
  }

  lemma CleanedStep(puts: map<Id, PutEntry>, gets: map<Id, GetEntry>, before: map<Id, PutEntry>,
                    active: map<Id, GetEntry>, after: map<Id, PutEntry>, done: seq<(Id, seq<Node>)>, n: nat, now: nat)
    requires Cleaned(puts, gets, before, active, done, n, now)
    requires n < |done| && NoTargetTwice(done) && done[n].0 in gets
    requires PutsAfterGet(before, after, done[n].0, gets[done[n].0], done[n].1, now)
    ensures Cleaned(puts, gets, after, active - {done[n].0}, done, n + 1, now)
  {
    hide PutAfterGet;
    PrefixTargets(done, n);
    forall i | 0 <= i < n ensures done[i].0 != done[n].0 {
    }
  }

  lemma StillActive(puts: map<Id, PutEntry>, gets: map<Id, GetEntry>, before: map<Id, PutEntry>,
                    active: map<Id, GetEntry>, done: seq<(Id, seq<Node>)>, n: nat, now: nat)
    requires Cleaned(puts, gets, before, active, done, n, now)
    requires n < |done| && NoTargetTwice(done) && done[n].0 in gets
    ensures done[n].0 in active && active[done[n].0] == gets[done[n].0]
    ensures done[n].0 in puts ==> before[done[n].0] == puts[done[n].0]
    ensures before.Keys == puts.Keys
    ensures FailsPut(before, done[n].0, gets[done[n].0], done[n].1)
       <==> FailsPut(puts, done[n].0, gets[done[n].0], done[n].1)
    ensures TooManyAt(before, done[n].0, gets[done[n].0], done[n].1)
       <==> TooManyAt(puts, done[n].0, gets[done[n].0], done[n].1)
  {
    PrefixTargets(done, n);
  }

  lemma {:induction false} FailuresStep(puts: map<Id, PutEntry>, gets: map<Id, GetEntry>, done: seq<(Id, seq<Node>)>,
                                        n: nat)
    requires n < |done|
    ensures Failures(puts, gets, done[..n + 1]) == Failures(puts, gets, done[..n])
              + if done[n].0 in gets && FailsPut(puts, done[n].0, gets[done[n].0], done[n].1)
                then [(done[n].0, Some(NoClosestNodes))] else []
  {
    assert done[..n + 1][..n] == done[..n];
  }

  lemma RemovePutsKeeps(c: Core, targets: set<Id>)
    requires Healthy(c)
    ensures Healthy(c.(puts := c.puts - targets))
  {
    ForgetKeepsHealthy(c, c.puts - targets, c.gets);
  }

  lemma CleanedStart(puts: map<Id, PutEntry>, gets: map<Id, GetEntry>, done: seq<(Id, seq<Node>)>, now: nat)
    ensures Cleaned(puts, gets, puts, gets, done, 0, now)
  {
    assert TargetsOf(done[..0]) == {};
  }

  /** A put without a lookup among the finished ones is as before; one that was not started has started or failed. */
  ghost predicate PutsCleaned(puts: map<Id, PutEntry>, gets: map<Id, GetEntry>, puts': map<Id, PutEntry>,
                              done: seq<(Id, seq<Node>)>, now: nat)
  {
    && (forall k :: k in puts' ==> k in puts)
    && (forall k :: k in puts' && k !in TargetsOf(done) ==> puts'[k] == puts[k])
    && (forall i :: 0 <= i < |done| && done[i].0 in puts' && done[i].0 in gets ==>
          && PutAfterGet(puts[done[i].0], puts'[done[i].0], gets[done[i].0], done[i].1, now)
          && !FailsPut(puts, done[i].0, gets[done[i].0], done[i].1))
  }

  lemma {:induction false} CleanedEnd(puts: map<Id, PutEntry>, gets: map<Id, GetEntry>, after: map<Id, PutEntry>,
                                      active: map<Id, GetEntry>, done: seq<(Id, seq<Node>)>,
                                      ended: seq<(Id, Option<PutError>)>, donePuts: seq<(Id, Option<PutError>)>,
                                      now: nat)
    requires Cleaned(puts, gets, after, active, done, |done|, now) && ended == donePuts + Failures(puts, gets, done)
    ensures active == gets - TargetsOf(done)
    ensures (after - TargetsOf(ended)).Keys == puts.Keys - TargetsOf(ended)
    ensures PutsCleaned(puts, gets, after - TargetsOf(ended), done, now)
  {
    hide PutAfterGet;
    assert done[..|done|] == done;
    forall i | 0 <= i < |done| && done[i].0 in gets && FailsPut(puts, done[i].0, gets[done[i].0], done[i].1)
      ensures done[i].0 in TargetsOf(ended)
    {
      FailureIsListed(puts, gets, done, i);
      var f := Failures(puts, gets, done);
      var j :| 0 <= j < |f| && f[j].0 == done[i].0;
      assert ended[|donePuts| + j].0 == done[i].0;
    }
  }

  lemma {:induction false} FailureIsListed(puts: map<Id, PutEntry>, gets: map<Id, GetEntry>,
                                           done: seq<(Id, seq<Node>)>, i: nat)
    requires i < |done| && done[i].0 in gets && FailsPut(puts, done[i].0, gets[done[i].0], done[i].1)
    ensures exists j :: 0 <= j < |Failures(puts, gets, done)| && Failures(puts, gets, done)[j].0 == done[i].0
  {
    var n := |done| - 1;
    var f := Failures(puts, gets, done[..n]);
    if i < n {
      FailureIsListed(puts, gets, done[..n], i);
      var j :| 0 <= j < |f| && f[j].0 == done[i].0;
      assert Failures(puts, gets, done)[j] == f[j];
    } else {
      assert Failures(puts, gets, done)[|f|].0 == done[i].0;
    }
  }

  lemma {:induction false} SendNone(s: Sock, now: nat)
    ensures SendAll(s, [], now).0 == s
  {
  }

  // === Panics ===

  /** A put that waits is started at more nodes than a put can take. */
  ghost predicate TooManyAt(puts: map<Id, PutEntry>, k: Id, e: GetEntry, nodes: seq<Node>) {
    k in puts && !Started(puts[k].state) && !e.findNode && |nodes| > MAX_CLOSEST
  }

  ghost predicate SomeTooMany(puts: map<Id, PutEntry>, gets: map<Id, GetEntry>, done: seq<(Id, seq<Node>)>) {
    exists i :: 0 <= i < |done| && done[i].0 in gets && TooManyAt(puts, done[i].0, gets[done[i].0], done[i].1)
  }

  lemma {:induction false} TooManyStep(puts: map<Id, PutEntry>, gets: map<Id, GetEntry>, done: seq<(Id, seq<Node>)>,
                                       n: nat)
    requires n < |done| && done[n].0 in gets
    ensures SomeTooMany(puts, gets, done[..n + 1])
       <==> SomeTooMany(puts, gets, done[..n]) || TooManyAt(puts, done[n].0, gets[done[n].0], done[n].1)
  {
    hide TooManyAt;
    assert forall i :: 0 <= i < n ==> done[..n + 1][i] == done[..n][i];
    assert done[..n + 1][n] == done[n];
  }

  /**
   * A waiting put whose value lookup ended with more than 255 responders, where the walk over them
   * may stop at none of the first 256.
   */
  ghost predicate StartsTooFar(puts: map<Id, PutEntry>, gets: map<Id, GetEntry>, done: seq<(Id, seq<Node>)>,
                               averages: Averages, k: Id)
  {
    && k in puts && !Started(puts[k].state) && k in gets && !gets[k].findNode && k in TargetsOf(done)
    && WalksTooFar(k, gets[k].responders, averages.estimate, averages.subnets)
  }

  lemma SomeTooManyIff(puts: map<Id, PutEntry>, gets: map<Id, GetEntry>, done: seq<(Id, seq<Node>)>,
                       averages: Averages)
    requires NodesStored(done, gets, averages)
    ensures SomeTooMany(puts, gets, done) <==> exists k :: StartsTooFar(puts, gets, done, averages, k)
  {
    hide WalksTooFar, Started;
    if SomeTooMany(puts, gets, done) {
      var i :| 0 <= i < |done| && done[i].0 in gets && TooManyAt(puts, done[i].0, gets[done[i].0], done[i].1);
      TooManyTakenIff(done[i].0, gets[done[i].0].responders, averages.estimate, averages.subnets);
      assert StartsTooFar(puts, gets, done, averages, done[i].0);
    }
    if k :| StartsTooFar(puts, gets, done, averages, k) {
      var i :| 0 <= i < |done| && done[i].0 == k;
      TooManyTakenIff(k, gets[k].responders, averages.estimate, averages.subnets);
      assert TooManyAt(puts, done[i].0, gets[done[i].0], done[i].1);
    }
  }

  // === Votes ===

  /** What a node takes its own address to be. */
  datatype Standing = Standing(address: Option<Addr>, firewalled: bool)

  /** A new best address is taken over, and counts as firewalled until a ping confirms it. */
  function Voted(s: Standing, best: Option<Addr>): Standing {
    if best.Some? then Standing(best, s.firewalled || best != s.address) else s
  }

  function VotedAll(s: Standing, bests: seq<Option<Addr>>): Standing {
    if bests == [] then s else Voted(VotedAll(s, bests[..|bests| - 1]), bests[|bests| - 1])
  }

  lemma {:induction false} VotedAllStep(s: Standing, bests: seq<Option<Addr>>, best: Option<Addr>)
    ensures VotedAll(s, bests + [best]) == Voted(VotedAll(s, bests), best)
  {
    assert (bests + [best])[..|bests|] == bests;
  }

  /** The best addresses of the finished lookups, in turn. */
  ghost predicate BestsOf(done: seq<(Id, seq<Node>)>, gets: map<Id, GetEntry>, bests: seq<Option<Addr>>) {
    |bests| <= |done| && forall i :: 0 <= i < |bests| ==> done[i].0 in gets && IsBest(gets[done[i].0].votes, bests[i])
  }

  lemma {:induction false} NothingCleaned(puts: map<Id, PutEntry>, gets: map<Id, GetEntry>, done: seq<(Id, seq<Node>)>,
                                          s: Standing)
    ensures BestsOf(done, gets, []) && VotedAll(s, []) == s && !SomeTooMany(puts, gets, done[..0])
  {
  }

  // === Puts after a tick ===

  /** Of the puts a tick leaves, none is already rejected. */
  lemma LeftAreSettled(done: seq<(Id, Option<PutError>)>, puts: map<Id, PutEntry>, gets: map<Id, GetEntry>,
                       after: map<Id, PutEntry>, doneGets: seq<(Id, seq<Node>)>, t: Table, now: nat, timeout: nat)
    requires AllLogged(puts) && PutsEnded(done, puts, gets, doneGets, t, now, timeout)
    requires PutsCleaned(puts, gets, after, doneGets, now) && after.Keys == puts.Keys - TargetsOf(done)
    requires forall i :: 0 <= i < |doneGets| ==> doneGets[i].0 in gets
    ensures AllSettled(after)
  {
    hide Settled, FoundNobody, TickPut, StartedAt, Started, Logged;
    forall k | k in after ensures Settled(after[k]) {
      assert Logged(puts[k]) && !Ends(puts, gets, doneGets, k, t, now, timeout);
      PendingIsSettled(puts[k], t, now, timeout);
      if k in TargetsOf(doneGets) {
        var i :| 0 <= i < |doneGets| && doneGets[i].0 == k;
        assert PutAfterGet(puts[k], after[k], gets[k], doneGets[i].1, now);
        JustStartedIsSettled(puts[k], after[k], gets[k], doneGets[i].1, now);
      }
    }
  }

  lemma PendingIsSettled(e: PutEntry, t: Table, now: nat, timeout: nat)
    requires Logged(e) && TickPut(e.state, t, now, timeout) == Pending
    ensures Settled(e)
  {
    if !Started(e.state) {
      assert e.state.errors == [];
    }
  }

  lemma JustStartedIsSettled(before: PutEntry, after: PutEntry, g: GetEntry, nodes: seq<Node>, now: nat)
    requires Logged(before) && Settled(before) && PutAfterGet(before, after, g, nodes, now)
    ensures Settled(after)
  {
    if after != before {
      assert before.state.errors == [] && after.state.errors == [];
    }
  }

  /**
   * While requests are open, a put of at most 509 requests is ended early exactly when a majority of
   * its nodes sent one of the two codes, and with that code.
   */
  lemma EarlyVerdictIsRight(c: Core, k: Id, now: nat, timeout: nat)
    requires Healthy(c) && c.sock.issued <= TID_COUNT && k in c.puts && c.puts[k].kind.Signed?
    requires |c.puts[k].state.inflight| <= 509 && AnyInflight(c.puts[k].state.inflight, c.sock.table, now, timeout)
    ensures var (p, log) := (c.puts[k].state, Refusals(c.puts[k].answers));
            var requests, verdict := |p.inflight|, TickPut(p, c.sock.table, now, timeout);
            && (verdict == Failed(CasFailed) <==> Majority(requests, log, 301))
            && (verdict == Failed(NotMostRecent) <==> Majority(requests, log, 302))
            && (verdict == Pending <==> !Majority(requests, log, 301) && !Majority(requests, log, 302))
  {
    hide MajorityRejected, Majority, Unrejected, TallyAll;
    var e := c.puts[k];
    assert Logged(e) && WithinRequests(e, c.sock.table);
    var i :| 0 <= i < |e.state.inflight| && ContainsTid(c.sock.table, e.state.inflight[i], now, timeout);
    OpenMeansFewer(|e.answers|, e.state.inflight, c.sock.table, e.state.inflight[i]);
    FewerRefusals(e.answers);
    VerdictIsRight(|e.state.inflight|, Refusals(e.answers));
    RejectionsAre(|e.state.inflight|, e.state.errors);
  }

  lemma RejectionsAre(requests: nat, es: seq<Tallied>)
    ensures MajorityRejected(requests, es) in {None, Some(CasFailed), Some(NotMostRecent)}
  {
  }

  lemma {:induction false} FewerRefusals(answers: seq<Answer>)
    ensures |Refusals(answers)| <= |answers|
  {
    if answers != [] {
      FewerRefusals(answers[..|answers| - 1]);
    }
  }

  /**
   * When none is open: stored unless the acknowledgements are a multiple of 256, and otherwise, while
   * no error count wraps, the error that is commonest.
   */
  lemma LateVerdictIs(e: PutEntry, t: Table, now: nat, timeout: nat)
    requires Logged(e) && Started(e.state) && !AnyInflight(e.state.inflight, t, now, timeout)
    ensures var v, log := TickPut(e.state, t, now, timeout), Refusals(e.answers);
            && (v == Verdict.Stored <==> Acks(e.answers) % 256 != 0)
            && (NoneWraps(log) ==>
                  && (v == Failed(CasFailed) ==> Commonest(log, 301))
                  && (v == Failed(NotMostRecent) ==> Commonest(log, 302)))
  {
    hide TickPut, Commonest, NoneWraps, AnyInflight, TallyAll;
    var asked := e.state.(storedAt := 0, errors := []);
    AnswersAre(asked, e.answers);
    FinalVerdict(asked, e.answers, t, now, timeout);
  }

  // === Accepted replies ===

  predicate Accepts(t: Table, from: Addr, r: Reply, now: nat, timeout: nat) {
    RemoveRequest(t, r.tid, from, now, timeout).1.Some?
  }

  /** A reply reaches exactly the queries that wait for its id; there is never more than one. */
  ghost predicate Delivered(checks: Checks, c: Core, d: Core, from: Addr, r: Reply, now: nat) {
    && d.puts.Keys == c.puts.Keys && d.gets.Keys == c.gets.Keys
    && (forall k :: k in c.puts ==>
          d.puts[k] == if r.tid in c.puts[k].state.inflight
                       then AnswerEntry(c.puts[k], r.answer) else c.puts[k])
    && (forall k :: k in c.gets ==>
          d.gets[k] == if r.tid in c.gets[k].query.inflight
                       then Informed(checks, k, c.gets[k], from, r, now) else c.gets[k])
  }

  /** The value a packet brought, if any, is the one response that one lookup gained. */
  ghost predicate Gained(before: map<Id, GetEntry>, after: map<Id, GetEntry>, heard: Option<(Id, Value)>) {
    && (heard.Some? ==> heard.value.0 in before)
    && forall k :: k in before ==>
         && k in after && after[k].findNode == before[k].findNode
         && after[k].responses == before[k].responses + HeardBy(heard, k)
  }

  lemma NothingHeard(c: Core, d: Core)
    requires d.puts == c.puts && d.gets == c.gets
    ensures OnlyHeard(c, d, None)
  {
  }

  function HeardFrom(k: Id, value: Option<Value>): Option<(Id, Value)> {
    if value.Some? then Some((k, value.value)) else None
  }

  function HeardBy(heard: Option<(Id, Value)>, k: Id): seq<Value> {
    if heard.Some? && heard.value.0 == k then [heard.value.1] else []
  }

  /** A packet changes no put's requests, and opens only find_node lookups. */
  ghost predicate OnlyHeard(c: Core, d: Core, heard: Option<(Id, Value)>) {
    && d.puts.Keys == c.puts.Keys && Gained(c.gets, d.gets, heard)
    && (forall k :: k in c.puts ==> SameRequests(c.puts[k], d.puts[k]))
    && (forall k :: k in d.gets && k !in c.gets ==> d.gets[k].findNode && d.gets[k].responses == [])
  }

  ghost predicate SameRequests(before: PutEntry, after: PutEntry) {
    && after == before.(state := after.state, answers := after.answers)
    && after.state.inflight == before.state.inflight
  }

  /** Whoever waits for this id asked the sender, or an unspecified address with its port. */
  ghost predicate WasAsked(c: Core, tid: nat, from: Addr) {
    && (forall k :: k in c.puts && tid in c.puts[k].state.inflight ==> SomeMatches(c.puts[k].asked, from))
    && (forall k :: k in c.gets && tid in c.gets[k].query.inflight ==>
          exists a :: a in c.gets[k].query.visited && Matches(a, from))
  }

  predicate Matches(a: Addr, from: Addr) { a.port == from.port && (a.ip == 0 || a.ip == from.ip) }

  ghost predicate SomeMatches(asked: seq<Addr>, from: Addr) { exists a :: a in asked && Matches(a, from) }

  /** A reply is accepted exactly while its request is open and from an address that matches the one asked. */
  lemma AcceptsIff(t: Table, from: Addr, r: Reply, now: nat, timeout: nat)
    ensures Accepts(t, from, r, now, timeout) <==>
              r.tid in t && Elapsed(now, t[r.tid].sentAt) < timeout && Matches(t[r.tid].to, from)
    ensures Matches(from, from)
  {
  }

  /** An accepted reply comes from an address that the query waiting for it asked. */
  lemma AcceptedWasAsked(c: Core, from: Addr, r: Reply, now: nat, timeout: nat)
    requires Healthy(c) && c.sock.issued <= TID_COUNT && Accepts(c.sock.table, from, r, now, timeout)
    ensures WasAsked(c, r.tid, from)
  {
    hide TidInv, Logged, AnswersBounded;
    var to := c.sock.table[r.tid].to;
    forall k | k in c.puts && r.tid in c.puts[k].state.inflight ensures SomeMatches(c.puts[k].asked, from) {
      var e := c.puts[k];
      assert WithinRequests(e, c.sock.table);
      var i :| 0 <= i < |e.state.inflight| && e.state.inflight[i] == r.tid;
      assert e.asked[i] == to && to in e.asked;
    }
    forall k | k in c.gets && r.tid in c.gets[k].query.inflight
      ensures exists a :: a in c.gets[k].query.visited && Matches(a, from)
    {
      assert SentToVisited(c.gets[k].query, c.sock.table);
      assert to in c.gets[k].query.visited && Matches(to, from);
    }
  }

  function Closed(c: Core, tid: nat): Core { c.(sock := c.sock.(table := c.sock.table - {tid})) }

  lemma DeliverToPut(checks: Checks, c: Core, k: Id, from: Addr, r: Reply, now: nat)
    requires Healthy(c) && k in c.puts && r.tid in c.puts[k].state.inflight && r.tid in c.sock.table
    requires Settled(c.puts[k])
    ensures var d := Closed(c, r.tid).(puts := c.puts[k := AnswerEntry(c.puts[k], r.answer)]);
            && Healthy(d) && OnlyHeard(c, d, None)
            && (c.sock.issued <= TID_COUNT ==> Delivered(checks, c, d, from, r, now))
  {
    AnswerKeepsHealthy(c, k, r.tid, r.answer);
    AnswerKeepsLogged(c.puts[k], r.answer);
    if c.sock.issued <= TID_COUNT {
      forall j | j in c.puts && r.tid in c.puts[j].state.inflight ensures j == k {
        ReplyHasOneAddressee(c, r.tid, PutOwner(k), PutOwner(j));
      }
      forall j | j in c.gets ensures r.tid !in c.gets[j].query.inflight {
        if r.tid in c.gets[j].query.inflight {
          ReplyHasOneAddressee(c, r.tid, PutOwner(k), GetOwner(j));
        }
      }
    }
  }

  lemma NobodyWaits(checks: Checks, c: Core, t: Table, from: Addr, r: Reply, now: nat)
    requires !exists k :: k in c.puts && r.tid in c.puts[k].state.inflight
    requires !exists k :: k in c.gets && r.tid in c.gets[k].query.inflight
    ensures Delivered(checks, c, c.(sock := c.sock.(table := t)), from, r, now)
    ensures OnlyHeard(c, c.(sock := c.sock.(table := t)), None)
  {
  }

  lemma DeliverToGet(checks: Checks, c: Core, k: Id, from: Addr, r: Reply, now: nat)
    requires Healthy(c) && LookupsOk(checks, c.gets) && k in c.gets && r.tid in c.gets[k].query.inflight
    ensures var d := Closed(c, r.tid).(gets := c.gets[k := Informed(checks, k, c.gets[k], from, r, now)]);
            && Healthy(d) && LookupsOk(checks, d.gets)
            && OnlyHeard(c, d, HeardFrom(k, ValueIn(checks, k, c.gets[k], r)))
            && (c.sock.issued <= TID_COUNT ==> Delivered(checks, c, d, from, r, now))
  {
    hide Sorted;
    InformedGains(checks, k, c.gets[k], from, r, now);
    var e := Informed(checks, k, c.gets[k], from, r, now);
    InformedOk(checks, k, c.gets[k], from, r, now);
    TableShrinkKeepsHealthy(c, c.sock.table - {r.tid});
    UpdateGetKeepsHealthy(Closed(c, r.tid), k, e);
    if c.sock.issued <= TID_COUNT {
      forall j | j in c.gets && r.tid in c.gets[j].query.inflight ensures j == k {
        ReplyHasOneAddressee(c, r.tid, GetOwner(k), GetOwner(j));
      }
      forall j | j in c.puts ensures r.tid !in c.puts[j].state.inflight {
        if r.tid in c.puts[j].state.inflight {
          ReplyHasOneAddressee(c, r.tid, GetOwner(k), PutOwner(j));
        }
      }
    }
  }

  // === A whole tick ===

  datatype Incoming =
    | Nothing
    | Request(from: Addr, isPing: bool, bytes: Id, r: bv8)
    | Response(from: Addr, reply: Reply)

  /** What a tick finds around it: time, the routing table's answers, random bytes and one packet. */
  datatype Around = Around(now: nat, sizes: Id -> (real, real), seeds: Id -> seq<Node>,
                           tableEmpty: bool, toPing: seq<Addr>, incoming: Incoming)

  /** What one packet does: replies reach their query, and only a ping from our own address opens a lookup. */
  ghost predicate Heard(checks: Checks, c: Core, d: Core, publicAddress: Option<Addr>, incoming: Incoming, now: nat,
                        timeout: nat)
  {
    match incoming
    case Nothing => d == c
    case Request(from, isPing, _, _) => if isPing && publicAddress == Some(from) then Joined(c, d, true) else d == c
    case Response(from, r) =>
      if from.port == 0 then d == c
      else
        && d.sock == c.sock.(table := RemoveRequest(c.sock.table, r.tid, from, now, timeout).0)
        && (!Accepts(c.sock.table, from, r, now, timeout) || r.readOnly ==> d.puts == c.puts && d.gets == c.gets)
        && (Accepts(c.sock.table, from, r, now, timeout) && !r.readOnly && c.sock.issued <= TID_COUNT ==>
              Delivered(checks, c, d, from, r, now))
  }

  /** The lookups and the puts that a tick ended, and the value that it brought. */
  datatype Report =
    Report(doneGets: seq<(Id, seq<Node>)>, donePuts: seq<(Id, Option<PutError>)>, heard: Option<(Id, Value)>)

  /** A value lookup of the target ended without a single responder. */
  ghost predicate FoundNobody(gets: map<Id, GetEntry>, done: seq<(Id, seq<Node>)>, k: Id) {
    k in gets && !gets[k].findNode && exists i :: 0 <= i < |done| && done[i].0 == k && done[i].1 == []
  }

  /** A value lookup of the target ended with responders. */
  ghost predicate FoundSome(gets: map<Id, GetEntry>, done: seq<(Id, seq<Node>)>, k: Id) {
    k in gets && !gets[k].findNode && exists i :: 0 <= i < |done| && done[i].0 == k && done[i].1 != []
  }

  lemma {:induction false} FailuresFacts(puts: map<Id, PutEntry>, gets: map<Id, GetEntry>, done: seq<(Id, seq<Node>)>)
    ensures var f := Failures(puts, gets, done);
            && (forall i :: 0 <= i < |f| ==>
                  f[i].1 == Some(NoClosestNodes) && f[i].0 in puts && !Started(puts[f[i].0].state)
                  && f[i].0 in TargetsOf(done) && FoundNobody(gets, done, f[i].0))
            && (NoTargetTwice(done) ==> NoTargetTwice(f))
  {
    if done != [] {
      var n := |done| - 1;
      var f, all := Failures(puts, gets, done[..n]), Failures(puts, gets, done);
      FailuresFacts(puts, gets, done[..n]);
      PrefixTargets(done, n);
      assert done[..n + 1] == done;
      FailuresStep(puts, gets, done, n);
      TargetsSnoc(f, done[n].0, Some(NoClosestNodes));
      assert forall i :: 0 <= i < |all| ==> all[i] == if i < |f| then f[i] else (done[n].0, Some(NoClosestNodes));
      forall i | 0 <= i < |f| ensures FoundNobody(gets, done, f[i].0) {
        var j :| 0 <= j < n && done[..n][j].0 == f[i].0 && done[..n][j].1 == [];
        assert done[j] == done[..n][j];
      }
    }
  }

  /** A put ends with a verdict on its answers, or unsent because a lookup of its target found nobody. */
  ghost predicate Ends(puts: map<Id, PutEntry>, gets: map<Id, GetEntry>, doneGets: seq<(Id, seq<Node>)>, k: Id,
                       t: Table, now: nat, timeout: nat)
  {
    && k in puts
    && (TickPut(puts[k].state, t, now, timeout) != Pending
        || (!Started(puts[k].state) && FoundNobody(gets, doneGets, k)))
  }

  /** The puts that a tick ends, each once, and why. */
  ghost predicate PutsEnded(done: seq<(Id, Option<PutError>)>, puts: map<Id, PutEntry>, gets: map<Id, GetEntry>,
                            doneGets: seq<(Id, seq<Node>)>, t: Table, now: nat, timeout: nat)
  {
    && NoTargetTwice(done)
    && (forall k :: k in TargetsOf(done) <==> Ends(puts, gets, doneGets, k, t, now, timeout))
    && (forall i :: 0 <= i < |done| ==>
          var (k, result) := done[i];
          && k in puts
          && result == if Started(puts[k].state) then ResultOf(TickPut(puts[k].state, t, now, timeout))
                       else Some(NoClosestNodes))
  }

  lemma UnsentIsPending(p: PutState, t: Table, now: nat, timeout: nat)
    ensures !Started(p) ==> TickPut(p, t, now, timeout) == Pending
  {
  }

  lemma {:induction false} FailureFollows(puts: map<Id, PutEntry>, gets: map<Id, GetEntry>, done: seq<(Id, seq<Node>)>,
                                          k: Id)
    requires k in puts && !Started(puts[k].state) && FoundNobody(gets, done, k)
    ensures exists i :: 0 <= i < |Failures(puts, gets, done)| && Failures(puts, gets, done)[i].0 == k
  {
    var j :| 0 <= j < |done| && done[j].0 == k && done[j].1 == [];
    FailureIsListed(puts, gets, done, j);
  }

  lemma {:induction false} AllEndings(done: seq<(Id, Option<PutError>)>, puts: map<Id, PutEntry>,
                                      gets: map<Id, GetEntry>, doneGets: seq<(Id, seq<Node>)>, t: Table, now: nat,
                                      timeout: nat)
    requires PutsReported(done, puts, {}, t, now, timeout) && NoTargetTwice(doneGets)
    ensures PutsEnded(done + Failures(puts, gets, doneGets), puts, gets, doneGets, t, now, timeout)
  {
    hide TickPut, Started, FoundNobody, FailsPut, Failures;
    var f := Failures(puts, gets, doneGets);
    var all := done + f;
    FailuresFacts(puts, gets, doneGets);
    forall i | 0 <= i < |done| ensures Started(puts[done[i].0].state) {
      assert done[i].0 in TargetsOf(done);
      UnsentIsPending(puts[done[i].0].state, t, now, timeout);
    }
    TargetsConcat(done, f);
    forall k | Ends(puts, gets, doneGets, k, t, now, timeout) ensures k in TargetsOf(all) {
      if TickPut(puts[k].state, t, now, timeout) == Pending {
        FailureFollows(puts, gets, doneGets, k);
      }
    }
    forall k | k in TargetsOf(all) ensures Ends(puts, gets, doneGets, k, t, now, timeout) {
      if k !in TargetsOf(done) {
        var i :| 0 <= i < |f| && f[i].0 == k;
      }
    }
  }

  lemma TargetsConcat<T>(a: seq<(Id, T)>, b: seq<(Id, T)>)
    ensures TargetsOf(a + b) == TargetsOf(a) + TargetsOf(b)
  {
    forall k | k in TargetsOf(a) + TargetsOf(b) ensures k in TargetsOf(a + b) {
      if k in TargetsOf(a) {
        var i :| 0 <= i < |a| && a[i].0 == k;
        assert (a + b)[i].0 == k;
      } else {
        var i :| 0 <= i < |b| && b[i].0 == k;
        assert (a + b)[|a| + i].0 == k;
      }
    }
  }

  ghost predicate Laters(before: Core, asked: Core, ready: Core, after: Core, now: nat) {
    Later(before.sock, asked.sock, now) && Later(asked.sock, ready.sock, now) && Later(ready.sock, after.sock, now)
  }

  /** A whole tick: lookups ask (`asked`), what is done is removed and upkeep follows (`ready`), a packet is heard. */
  ghost predicate Advanced(checks: Checks, before: Core, asked: Core, ready: Core, after: Core,
                           publicAddress: Option<Addr>, report: Report, around: Around, timeout: nat)
  {
    var left := asked.gets - TargetsOf(report.doneGets);
    && asked.gets.Keys == before.gets.Keys && Laters(before, asked, ready, after, around.now)
    && (forall k :: k in before.gets ==> OnlyAsked(before.gets[k], asked.gets[k]))
    && (AllAskedClosest(before.gets) ==> asked == before)
    && GetsReported(report.doneGets, asked.gets, {}, asked.sock, around.now, timeout)
    && PutsEnded(report.donePuts, before.puts, asked.gets, report.doneGets, before.sock.table, around.now, timeout)
    && PutsCleaned(before.puts, asked.gets, ready.puts, report.doneGets, around.now)
    && ready.puts.Keys == before.puts.Keys - TargetsOf(report.donePuts)
    && Joined(Core(asked.sock, ready.puts, left), ready, true)
    && Heard(checks, ready, after, publicAddress, around.incoming, around.now, timeout)
    && OnlyHeard(ready, after, report.heard)
  }

  /** A started put whose requests are all a timeout old has ended. */
  lemma StartedEnds(c: Core, k: Id, now: nat, timeout: nat)
    requires Healthy(c) && c.sock.issued <= TID_COUNT && k in c.puts && Started(c.puts[k].state)
    requires now >= c.puts[k].sentAt + timeout
    ensures TickPut(c.puts[k].state, c.sock.table, now, timeout) != Pending
  {
    var e := c.puts[k];
    forall tid | tid in e.state.inflight ensures tid in c.sock.table ==> c.sock.table[tid].sentAt == e.sentAt {
      var i :| 0 <= i < |e.state.inflight| && e.state.inflight[i] == tid;
    }
  }
}
