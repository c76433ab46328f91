/** What becomes of the put of one target, as its callers see it. */
module Phases {
  import opened Ids
  import opened Nodes
  import opened Options
  import opened Socket
  import opened PutQueries
  import opened RpcCore
  import opened RpcSteps
  import opened Callers

  /** A put waits unsent, or was sent at some time; its callers wait with it. */
  datatype Phase = Idle | Unsent(callers: seq<nat>) | Sent(callers: seq<nat>, at: nat)

  function CallersOf(p: Phase): seq<nat> { if p.Idle? then [] else p.callers }

  /**
   * What happens to puts: one is accepted, perhaps as a repetition of the one in flight, or a tick
   * ends some; `found` and `nobody` are the targets of the value lookups that ended, with and
   * without responders.
   */
  datatype Event =
    | Accepted(target: Id, ticket: nat, isNew: bool, isSent: bool, at: nat)
    | Ticked(ended: set<Id>, found: set<Id>, nobody: set<Id>, at: nat)

  function Next(p: Phase, k: Id, e: Event): Phase {
    match e
    case Accepted(target, ticket, isNew, isSent, at) =>
      if target != k then p
      else
        var callers := CallersOf(p) + [ticket];
        if !isNew && !p.Idle? then p.(callers := callers)
        else if isSent then Sent(callers, at)
        else Unsent(callers)
    case Ticked(ended, found, nobody, at) =>
      match p
      case Idle => Idle
      case Unsent(callers) => if k in found then Sent(callers, at) else if k in nobody then Idle else p
      case Sent(_, _) => if k in ended then Idle else p
  }

  function PhaseOf(history: seq<Event>, k: Id): Phase {
    if history == [] then Idle else Next(PhaseOf(history[..|history| - 1], k), k, history[|history| - 1])
  }

  lemma {:induction false} PhaseStep(history: seq<Event>, e: Event)
    ensures forall k: Id :: PhaseOf(history + [e], k) == Next(PhaseOf(history, k), k, e)
  {
    assert (history + [e])[..|history|] == history;
  }

  /** The put of a target and the callers who wait for it are as its phase says. */
  ghost predicate Refines(p: Phase, k: Id, puts: map<Id, PutEntry>, senders: Senders) {
    && (k in puts <==> !p.Idle?)
    && (k in puts ==> k in senders && senders[k] == CallersOf(p) && (Started(puts[k].state) <==> p.Sent?))
    && (p.Sent? && k in puts ==> puts[k].sentAt == p.at)
  }

  ghost predicate Refined(history: seq<Event>, puts: map<Id, PutEntry>, senders: Senders) {
    forall k: Id :: Refines(PhaseOf(history, k), k, puts, senders)
  }

  /** An accepted put is as the event says: a repetition changes no put, and a new one is sent or not. */
  lemma AcceptRefines(history: seq<Event>, puts: map<Id, PutEntry>, puts': map<Id, PutEntry>, senders: Senders,
                      target: Id, ticket: nat, isNew: bool, now: nat)
    requires Refined(history, puts, senders) && senders.Keys == puts.Keys
    requires puts'.Keys == puts.Keys + {target} && forall k :: k in puts && k != target ==> puts'[k] == puts[k]
    requires !isNew ==> target in puts && puts'[target] == puts[target]
    requires isNew && Started(puts'[target].state) ==> puts'[target].sentAt == now
    ensures Refined(history + [Accepted(target, ticket, isNew, Started(puts'[target].state), now)], puts',
                    Enlist(senders, target, ticket))
  {
    hide Started;
    var e := Accepted(target, ticket, isNew, Started(puts'[target].state), now);
    PhaseStep(history, e);
    forall k: Id
      ensures Refines(PhaseOf(history + [e], k), k, puts', Enlist(senders, target, ticket))
    {
      assert Refines(PhaseOf(history, k), k, puts, senders);
    }
  }

  // === Ticks ===

  /** The event of a tick. */
  ghost function TickEvent(gets: map<Id, GetEntry>, report: Report, now: nat): Event {
    Ticked(TargetsOf(report.donePuts), (set k | k in gets && FoundSome(gets, report.doneGets, k)),
           (set k | k in gets && FoundNobody(gets, report.doneGets, k)), now)
  }

  /** A put that waits is started by a value lookup of its target that found someone, and by nothing else. */
  lemma UnsentAfter(checks: Checks, before: Core, asked: Core, ready: Core, after: Core,
                    publicAddress: Option<Addr>, report: Report, around: Around, timeout: nat, k: Id)
    requires Advanced(checks, before, asked, ready, after, publicAddress, report, around, timeout)
    requires k in before.puts && !Started(before.puts[k].state)
    ensures k in after.puts <==> !FoundNobody(asked.gets, report.doneGets, k)
    ensures k in after.puts ==>
              && (Started(after.puts[k].state) <==> FoundSome(asked.gets, report.doneGets, k))
              && (Started(after.puts[k].state) ==> after.puts[k].sentAt == around.now)
    ensures !(FoundSome(asked.gets, report.doneGets, k) && FoundNobody(asked.gets, report.doneGets, k))
  {
    hide Heard, Joined, OnlyAsked, AskedClosest, Expired, FoundBy, Gained, TickPut, Holders;
    UnsentIsPending(before.puts[k].state, before.sock.table, around.now, timeout);
    var done := report.doneGets;
    assert k in TargetsOf(report.donePuts) <==> FoundNobody(asked.gets, done, k);
    if k in after.puts {
      assert SameRequests(ready.puts[k], after.puts[k]);
      if k in TargetsOf(done) {
        var i :| 0 <= i < |done| && done[i].0 == k;
        assert PutAfterGet(before.puts[k], ready.puts[k], asked.gets[k], done[i].1, around.now);
      }
    }
  }

  /** A put that was sent is untouched until its answers, or their absence, decide it. */
  lemma SentAfter(checks: Checks, before: Core, asked: Core, ready: Core, after: Core,
                  publicAddress: Option<Addr>, report: Report, around: Around, timeout: nat, k: Id)
    requires Advanced(checks, before, asked, ready, after, publicAddress, report, around, timeout)
    requires k in before.puts && Started(before.puts[k].state)
    ensures k in after.puts <==> k !in TargetsOf(report.donePuts)
    ensures k in TargetsOf(report.donePuts)
       <==> TickPut(before.puts[k].state, before.sock.table, around.now, timeout) != Pending
    ensures k in after.puts ==> Started(after.puts[k].state) && after.puts[k].sentAt == before.puts[k].sentAt
  {
    hide Heard, Joined, OnlyAsked, AskedClosest, Expired, FoundBy, Gained, FoundNobody, TickPut, Holders;
    var done := report.doneGets;
    if k in after.puts {
      assert SameRequests(ready.puts[k], after.puts[k]);
      if k in TargetsOf(done) {
        var i :| 0 <= i < |done| && done[i].0 == k;
        assert PutAfterGet(before.puts[k], ready.puts[k], asked.gets[k], done[i].1, around.now);
      }
    }
  }

  lemma PutsAfter(checks: Checks, before: Core, asked: Core, ready: Core, after: Core,
                  publicAddress: Option<Addr>, report: Report, around: Around, timeout: nat)
    requires Advanced(checks, before, asked, ready, after, publicAddress, report, around, timeout)
    ensures after.puts.Keys == before.puts.Keys - TargetsOf(report.donePuts)
    ensures NoTargetTwice(report.donePuts) && NoTargetTwice(report.doneGets)
  {
    hide Heard, Joined, OnlyAsked, Ends, Gained, PutsCleaned, AskedClosest, Expired, FoundBy, TickPut;
  }

  /** A tick moves every put as the event says. */
  lemma TickRefines(checks: Checks, before: Core, asked: Core, ready: Core, after: Core,
                    publicAddress: Option<Addr>, report: Report, around: Around, timeout: nat,
                    history: seq<Event>, senders: Senders)
    requires Advanced(checks, before, asked, ready, after, publicAddress, report, around, timeout)
    requires Refined(history, before.puts, senders)
    ensures Refined(history + [TickEvent(asked.gets, report, around.now)], after.puts,
                    senders - TargetsOf(report.donePuts))
  {
    hide Advanced, FoundSome, FoundNobody, Started, TickPut;
    var e := TickEvent(asked.gets, report, around.now);
    PhaseStep(history, e);
    PutsAfter(checks, before, asked, ready, after, publicAddress, report, around, timeout);
    forall k: Id
      ensures Refines(PhaseOf(history + [e], k), k, after.puts, senders - TargetsOf(report.donePuts))
    {
      assert Refines(PhaseOf(history, k), k, before.puts, senders);
      FoundInGets(asked.gets, report.doneGets, k);
      if k in before.puts {
        if Started(before.puts[k].state) {
          SentAfter(checks, before, asked, ready, after, publicAddress, report, around, timeout, k);
        } else {
          UnsentAfter(checks, before, asked, ready, after, publicAddress, report, around, timeout, k);
        }
      }
    }
  }

  lemma FoundInGets(gets: map<Id, GetEntry>, done: seq<(Id, seq<Node>)>, k: Id)
    ensures FoundSome(gets, done, k) || FoundNobody(gets, done, k) ==> k in gets
  {
  }

  // === Puts that are overdue ===

  /** Every put that was sent was sent less than a timeout ago, or just now. */
  ghost predicate NoneOverdue(puts: map<Id, PutEntry>, now: nat, timeout: nat) {
    forall k :: k in puts && Started(puts[k].state) ==> puts[k].sentAt == now || now < puts[k].sentAt + timeout
  }

  /** The first tick a timeout after the start of a put ends it. */
  lemma TickEndsOverdue(checks: Checks, before: Core, asked: Core, ready: Core, after: Core,
                        publicAddress: Option<Addr>, report: Report, around: Around, timeout: nat)
    requires Advanced(checks, before, asked, ready, after, publicAddress, report, around, timeout)
    requires Healthy(before) && before.sock.issued <= TID_COUNT
    ensures NoneOverdue(after.puts, around.now, timeout)
  {
    hide Advanced, Healthy, FoundSome, FoundNobody, TickPut, Started;
    PutsAfter(checks, before, asked, ready, after, publicAddress, report, around, timeout);
    forall k | k in after.puts && Started(after.puts[k].state)
      ensures after.puts[k].sentAt == around.now || around.now < after.puts[k].sentAt + timeout
    {
      if Started(before.puts[k].state) {
        SentAfter(checks, before, asked, ready, after, publicAddress, report, around, timeout, k);
        if around.now >= before.puts[k].sentAt + timeout {
          StartedEnds(before, k, around.now, timeout);
        }
      } else {
        UnsentAfter(checks, before, asked, ready, after, publicAddress, report, around, timeout, k);
      }
    }
  }

  // === Puts that nothing will start ===

  /** The put of a target waits unsent, and no value lookup of the target is active. */
  ghost predicate Stuck(puts: map<Id, PutEntry>, gets: map<Id, GetEntry>, k: Id) {
    k in puts && !Started(puts[k].state) && (k in gets ==> gets[k].findNode)
  }

  /**
   * A new put is left behind exactly when no value lookup of its target is active and either the
   * cached nodes are recent enough but gave no token, or a find_node lookup is in the way of a
   * value lookup.
   */
  ghost predicate LeftBehind(cached: seq<Node>, extra: seq<Node>, gets: map<Id, GetEntry>, target: Id, now: nat) {
    && (target in gets ==> gets[target].findNode)
    && if Usable(cached, now) then forall n <- cached + extra :: n.token.None? else target in gets
  }

  /** A put and its lookup concern no other target. */
  lemma OthersStayStuck(c: Core, d: Core, target: Id)
    requires Joined(c, d.(puts := c.puts), false) && d.gets.Keys <= c.gets.Keys + {target}
    requires forall k :: k != target ==> (k in c.puts <==> k in d.puts) && (k in c.puts ==> d.puts[k] == c.puts[k])
    ensures forall k :: k != target ==> (Stuck(c.puts, c.gets, k) <==> Stuck(d.puts, d.gets, k))
  {
    hide Started;
  }

  /** A lookup of the target frees its put, if it is a value lookup that can be opened. */
  lemma LookupFrees(c: Core, d: Core, target: Id, findNode: bool)
    requires Joined(c, d, findNode) && d.gets.Keys == c.gets.Keys + {target}
    ensures forall k :: Stuck(d.puts, d.gets, k) <==>
                          Stuck(c.puts, c.gets, k) && !(k == target && !findNode && k !in c.gets)
  {
    hide Started;
  }

  lemma SamePutExists(puts: map<Id, PutEntry>, target: Id, kind: PutKind)
    requires SamePut(Existing(puts, target), kind)
    ensures target in puts
  {
  }

  lemma EnrolledStuckIff(c: Core, d: Core, target: Id, kind: PutKind, extra: seq<Node>, cached: seq<Node>, now: nat)
    requires target in d.puts && Enrolled(d.puts[target], kind, extra, cached, c.gets, d.gets, target, now)
    requires Joined(c, d.(puts := c.puts), false)
    ensures Stuck(d.puts, d.gets, target) <==> LeftBehind(cached, extra, c.gets, target, now)
    ensures Started(d.puts[target].state) ==> d.puts[target].sentAt == now
  {
    hide Usable, Holders;
  }

  /** A tick neither leaves a put behind nor helps one that was. */
  lemma TickKeepsStuck(checks: Checks, before: Core, asked: Core, ready: Core, after: Core,
                       publicAddress: Option<Addr>, report: Report, around: Around, timeout: nat, k: Id)
    requires Advanced(checks, before, asked, ready, after, publicAddress, report, around, timeout)
    ensures Stuck(before.puts, before.gets, k) <==> Stuck(after.puts, after.gets, k)
    ensures Stuck(before.puts, before.gets, k) ==>
              !FoundSome(asked.gets, report.doneGets, k) && !FoundNobody(asked.gets, report.doneGets, k)
  {
    hide Advanced, Started, TickPut;
    PutsAfter(checks, before, asked, ready, after, publicAddress, report, around, timeout);
    GetsAfter(checks, before, asked, ready, after, publicAddress, report, around, timeout, k);
    if k in before.puts {
      if Started(before.puts[k].state) {
        SentAfter(checks, before, asked, ready, after, publicAddress, report, around, timeout, k);
      } else {
        UnsentAfter(checks, before, asked, ready, after, publicAddress, report, around, timeout, k);
      }
    }
  }

  /** A value lookup is active after a tick exactly when it was before and the tick did not report it. */
  lemma GetsAfter(checks: Checks, before: Core, asked: Core, ready: Core, after: Core,
                  publicAddress: Option<Addr>, report: Report, around: Around, timeout: nat, k: Id)
    requires Advanced(checks, before, asked, ready, after, publicAddress, report, around, timeout)
    ensures k in after.gets && !after.gets[k].findNode
       <==> k in before.gets && !before.gets[k].findNode && k !in TargetsOf(report.doneGets)
    ensures k in asked.gets <==> k in before.gets
    ensures k in before.gets ==> asked.gets[k].findNode == before.gets[k].findNode
    ensures FoundSome(asked.gets, report.doneGets, k) || FoundNobody(asked.gets, report.doneGets, k)
       <==> k in before.gets && !before.gets[k].findNode && k in TargetsOf(report.doneGets)
  {
    hide Heard, PutsEnded, PutsCleaned, AskedClosest, Expired, StoreAt;
    var done := report.doneGets;
    if k in TargetsOf(done) {
      var i :| 0 <= i < |done| && done[i].0 == k;
    }
  }

  /** A put that is left behind is in the same phase as long as nobody finds anything for it. */
  lemma {:induction false} StuckKeepsPhase(history: seq<Event>, gets: map<Id, GetEntry>, report: Report, now: nat,
                                           puts: map<Id, PutEntry>, active: map<Id, GetEntry>, senders: Senders, k: Id)
    requires Refined(history, puts, senders) && Stuck(puts, active, k)
    requires !FoundSome(gets, report.doneGets, k) && !FoundNobody(gets, report.doneGets, k)
    ensures PhaseOf(history + [TickEvent(gets, report, now)], k) == PhaseOf(history, k)
  {
    hide Started, FoundSome, FoundNobody;
    PhaseStep(history, TickEvent(gets, report, now));
    assert Refines(PhaseOf(history, k), k, puts, senders);
  }
}
