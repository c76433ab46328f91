/** The actor loop: one caller's message and one tick at a time. */
module Actors {
  import opened Ids
  import opened Nodes
  import opened Options
  import opened Lru
  import opened Socket
  import opened PutQueries
  import opened RpcCore
  import opened RpcSteps
  import opened Rpcs
  import opened Callers
  import opened Phases
  import opened Channels
  import opened Progress

  datatype Message =
    | NoMessage
    | PutMessage(target: Id, kind: PutKind, extra: seq<Node>, seeds: seq<Node>)
    | GetMessage(target: Id, findNode: bool, salt: Option<Bytes>, wants: Wants, seeds: seq<Node>)

  class Actor {
    const rpc: Rpc
    var putSenders: Senders
    var getSenders: Senders
    var putAnswered: seq<Answered<Option<PutError>>>
    var getAnswered: seq<Answered<seq<Node>>>
    var received: Channel
    var wants: map<nat, Wants>
    var tickets: nat
    ghost var putAsked: map<nat, Id>
    ghost var getAsked: map<nat, Id>
    ghost var joinings: map<nat, Joining>
    ghost var history: seq<Event>

    ghost predicate Valid()
      reads this, rpc, rpc.statistics
    {
      && rpc.Valid()
      && putSenders.Keys == rpc.puts.Keys
      && Conserved(putAsked, putSenders, putAnswered) && Conserved(getAsked, getSenders, getAnswered)
      && Issued(putAsked, tickets) && Issued(getAsked, tickets)
      && Refined(history, rpc.puts, putSenders)
      && Fed(getSenders, rpc.gets, None, wants, received, joinings)
    }

    constructor (rpc: Rpc)
      requires rpc.Valid() && rpc.puts == map[] && rpc.gets == map[]
      ensures Valid() && this.rpc == rpc && putAsked == map[] && getAsked == map[] && tickets == 0
    {
      this.rpc := rpc;
      putSenders, getSenders, putAnswered, getAnswered, tickets := map[], map[], [], [], 0;
      received, wants, joinings := map[], map[], map[];
      putAsked, getAsked, history := map[], map[], [];
    }

    /** The put of this target waits unsent, and no value lookup of the target is active. */
    ghost predicate IsStuck(k: Id)
      reads this, rpc
    {
      Stuck(rpc.puts, rpc.gets, k)
    }

    /**
     * A caller's put: turned down at once, or enlisted for its target. A new put may be left
     * behind; a repetition changes nothing.
     */
    method ReceivePut(target: Id, kind: PutKind, extra: seq<Node>, seeds: seq<Node>, now: nat)
      requires Valid()
      modifies this, rpc, rpc.statistics
      ensures Valid() && tickets == old(tickets) + 1 && Undisturbed(old(rpc.State()), rpc.State(), now)
      ensures putAsked == old(putAsked)[old(tickets) := target] && getAsked == old(getAsked)
      ensures old(putAnswered) <= putAnswered && getAnswered == old(getAnswered) && received == old(received)
      ensures HasAnswer(putAnswered, old(tickets)) <==> Rejection(Existing(old(rpc.puts), target), kind).Some?
      ensures if Rejection(Existing(old(rpc.puts), target), kind).Some?
                 || SamePut(Existing(old(rpc.puts), target), kind)
              then IsStuck(target) == old(IsStuck(target))
              else IsStuck(target) <==> LeftBehind(CachedNodes(old(rpc.statistics.cached), target), extra,
                                                   old(rpc.gets), target, now)
      ensures forall k :: k != target ==>
                (IsStuck(k) <==> old(IsStuck(k))) && PhaseOf(history, k) == PhaseOf(old(history), k)
    {
      hide Valid, Rpc.Valid, Conserved, Rejection, Existing, Issued, SamePut, Enlist, Refined, Fed, Enrolled, Peek,
           Started, LeftBehind, PhaseOf, Stuck, Joined, Healthy, Later, Undisturbed;
      Parts();
      ghost var before, isNew := rpc.State(), !SamePut(Existing(rpc.puts, target), kind);
      var error := rpc.Put(target, kind, extra, seeds, now);
      OthersStayStuck(before, rpc.State(), target);
      JoinedUndisturbed(before, rpc.State(), false, now);
      OthersStayFed(before, rpc.State().(puts := before.puts), false, getSenders, wants, received, joinings);
      if error.Some? {
        RefusePut(target, error);
      } else {
        if isNew {
          EnrolledStuckIff(before, rpc.State(), target, kind, extra, CachedNodes(old(rpc.statistics.cached), target),
                           now);
        } else {
          SamePutExists(before.puts, target, kind);
        }
        EnlistPut(target, before.puts, isNew, now);
      }
    }

    method RefusePut(target: Id, error: Option<PutError>)
      requires rpc.Valid() && putSenders.Keys == rpc.puts.Keys
      requires Conserved(putAsked, putSenders, putAnswered) && Conserved(getAsked, getSenders, getAnswered)
      requires Issued(putAsked, tickets) && Issued(getAsked, tickets) && Refined(history, rpc.puts, putSenders)
      requires Fed(getSenders, rpc.gets, None, wants, received, joinings)
      modifies this`putAnswered, this`putAsked, this`tickets
      ensures Valid() && tickets == old(tickets) + 1 && putAsked == old(putAsked)[old(tickets) := target]
      ensures putAnswered == old(putAnswered) + [Answered(old(tickets), target, error)]
      ensures HasAnswer(putAnswered, old(tickets))
    {
      hide Rpc.Valid, Conserved, Issued, Refined, Fed;
      NewTicket(putAsked, getAsked, tickets, target);
      RefuseConserves(putAsked, putSenders, putAnswered, target, tickets, error);
      putAnswered := putAnswered + [Answered(tickets, target, error)];
      assert putAnswered[|putAnswered| - 1].ticket == tickets;
      putAsked := putAsked[tickets := target];
      tickets := tickets + 1;
    }

    method EnlistPut(target: Id, ghost puts: map<Id, PutEntry>, ghost isNew: bool, ghost now: nat)
      requires rpc.Valid() && putSenders.Keys == puts.Keys
      requires Conserved(putAsked, putSenders, putAnswered) && Conserved(getAsked, getSenders, getAnswered)
      requires Issued(putAsked, tickets) && Issued(getAsked, tickets) && Refined(history, puts, putSenders)
      requires Fed(getSenders, rpc.gets, None, wants, received, joinings)
      requires rpc.puts.Keys == puts.Keys + {target} && forall k :: k in puts && k != target ==> rpc.puts[k] == puts[k]
      requires !isNew ==> target in puts && rpc.puts[target] == puts[target]
      requires isNew && Started(rpc.puts[target].state) ==> rpc.puts[target].sentAt == now
      modifies this`putSenders, this`putAsked, this`tickets, this`history
      ensures Valid() && tickets == old(tickets) + 1 && putAsked == old(putAsked)[old(tickets) := target]
      ensures !HasAnswer(putAnswered, old(tickets)) && putSenders == Enlist(old(putSenders), target, old(tickets))
      ensures forall k :: k != target ==> PhaseOf(history, k) == PhaseOf(old(history), k)
    {
      hide Rpc.Valid, Conserved, Issued, Enlist, Refined, Fed, Started, PhaseOf;
      NewTicket(putAsked, getAsked, tickets, target);
      EnlistConserves(putAsked, putSenders, putAnswered, target, tickets);
      AcceptRefines(history, puts, rpc.puts, putSenders, target, tickets, isNew, now);
      NoAnswerYet(putAsked, putSenders, putAnswered, tickets);
      ghost var e := Accepted(target, tickets, isNew, Started(rpc.puts[target].state), now);
      PhaseStep(history, e);
      history := history + [e];
      putSenders := Enlist(putSenders, target, tickets);
      putAsked := putAsked[tickets := target];
      tickets := tickets + 1;
    }

    /**
     * A caller's get: it is sent at once what is known, and joins the lookup of its target. Only a
     * value lookup that can be opened helps a put that was left behind.
     */
    method ReceiveGet(target: Id, findNode: bool, salt: Option<Bytes>, w: Wants, seeds: seq<Node>, now: nat)
      requires Valid()
      modifies this, rpc, rpc.statistics
      ensures Valid() && tickets == old(tickets) + 1 && Undisturbed(old(rpc.State()), rpc.State(), now)
      ensures getAsked == old(getAsked)[old(tickets) := target] && putAsked == old(putAsked)
      ensures putAnswered == old(putAnswered) && getAnswered == old(getAnswered)
      ensures putSenders == old(putSenders) && history == old(history)
      ensures joinings == old(joinings)[old(tickets) := JoiningAt(old(rpc.State()), target)]
      ensures wants == old(wants)[old(tickets) := w] && old(tickets) in received
      ensures received[old(tickets)] == Fitting(w, GivenAtOnce(old(rpc.State()), target))
      ensures forall t :: t in old(received) && t != old(tickets) ==> t in received && received[t] == old(received)[t]
      ensures rpc.State() == Looked(rpc.checks, rpc.bootstrap, old(rpc.State()), old(rpc.statistics.cached), target,
                                    findNode, salt, seeds, [], now)
      ensures forall k :: IsStuck(k) <==> old(IsStuck(k)) && !(k == target && !findNode && k !in old(rpc.gets))
    {
      hide Valid, Rpc.Valid, Conserved, Looked, Issued, Enlist, Refined, Fed, Fitting, Peek, Touch, Stuck, Joined,
           FoundNow, Healthy, Later, Undisturbed;
      Parts();
      ghost var before := rpc.State();
      var found := rpc.Get(target, findNode, salt, seeds, [], now);
      LookupFrees(before, rpc.State(), target, findNode);
      JoinedUndisturbed(before, rpc.State(), findNode, now);
      EnlistGet(target, w, if found.Some? then found.value else [], before, findNode);
    }

    method EnlistGet(target: Id, w: Wants, values: seq<Value>, ghost before: Core, ghost findNode: bool)
      requires rpc.Valid() && putSenders.Keys == rpc.puts.Keys
      requires Conserved(putAsked, putSenders, putAnswered) && Conserved(getAsked, getSenders, getAnswered)
      requires Issued(putAsked, tickets) && Issued(getAsked, tickets) && Refined(history, rpc.puts, putSenders)
      requires Fed(getSenders, before.gets, None, wants, received, joinings)
      requires Joined(before, rpc.State(), findNode) && target in rpc.gets && values == GivenAtOnce(before, target)
      modifies this`getSenders, this`getAsked, this`tickets, this`wants, this`received, this`joinings
      ensures Valid() && tickets == old(tickets) + 1 && getAsked == old(getAsked)[old(tickets) := target]
      ensures joinings == old(joinings)[old(tickets) := JoiningAt(before, target)]
      ensures wants == old(wants)[old(tickets) := w] && received == old(received)[old(tickets) := Fitting(w, values)]
      ensures getSenders == Enlist(old(getSenders), target, old(tickets))
    {
      hide Rpc.Valid, Conserved, Issued, Enlist, Refined, Fed, Fitting, Joined, FoundNow, JoiningAt,
           GivenAtOnce;
      JoinKeeps(before, rpc.State(), target, findNode, getAsked, putAsked, getSenders, getAnswered, wants, received,
                joinings, tickets, w);
      joinings, getAsked := joinings[tickets := JoiningAt(before, target)], getAsked[tickets := target];
      wants, received := wants[tickets := w], received[tickets := Fitting(w, values)];
      getSenders, tickets := Enlist(getSenders, target, tickets), tickets + 1;
    }

    /**
     * One tick: a value goes to those who wait for it, and whoever waits for a put or a lookup
     * that ended is told its result. Puts that are overdue end; no put is left behind by a tick.
     */
    method Tick(around: Around) returns (report: Report, ghost asked: Core, ghost ready: Core)
      requires Valid()
      modifies this, rpc, rpc.statistics
      ensures Valid() && tickets == old(tickets) && putAsked == old(putAsked) && getAsked == old(getAsked)
      ensures Later(old(rpc.sock), rpc.sock, around.now) && wants == old(wants) && joinings == old(joinings)
      ensures Advanced(rpc.checks, old(rpc.State()), asked, ready, rpc.State(), rpc.publicAddress, report, around,
                       rpc.timeout)
      ensures putAnswered == old(putAnswered) + AllTold(report.donePuts, old(putSenders))
      ensures getAnswered == old(getAnswered) + AllTold(report.doneGets, old(getSenders))
      ensures getSenders == old(getSenders) - TargetsOf(report.doneGets)
      ensures Fed(old(getSenders), old(rpc.gets), report.heard, wants, received, joinings)
      ensures history == old(history) + [TickEvent(asked.gets, report, around.now)]
      ensures old(rpc.sock).issued <= TID_COUNT ==> NoneOverdue(rpc.puts, around.now, rpc.timeout)
      ensures forall k :: IsStuck(k) <==> old(IsStuck(k))
      ensures forall k :: IsStuck(k) ==> PhaseOf(history, k) == PhaseOf(old(history), k)
      ensures forall k :: Peek(rpc.statistics.cached, k)
                       == Peek(CachedAll(old(rpc.statistics.cached), asked.gets, report.doneGets, around.sizes), k)
    {
      hide Valid, Rpc.Valid, Conserved, AllTold, Advanced, Fed, Refined, NoneOverdue, Stuck, PhaseOf, CachedAll, Peek,
           Issued, Healthy, Later;
      ghost var before, past, waiting := rpc.State(), history, putSenders;
      Parts();
      report, asked, ready := rpc.Tick(around);
      if before.sock.issued <= TID_COUNT {
        TickEndsOverdue(rpc.checks, before, asked, ready, rpc.State(), rpc.publicAddress, report, around, rpc.timeout);
      }
      forall k ensures IsStuck(k) <==> Stuck(before.puts, before.gets, k)
        ensures IsStuck(k) ==> PhaseOf(past + [TickEvent(asked.gets, report, around.now)], k) == PhaseOf(past, k)
      {
        TickKeepsStuck(rpc.checks, before, asked, ready, rpc.State(), rpc.publicAddress, report, around, rpc.timeout,
                       k);
        if IsStuck(k) {
          StuckKeepsPhase(past, asked.gets, report, around.now, before.puts, before.gets, waiting, k);
        }
      }
      PutsAfter(rpc.checks, before, asked, ready, rpc.State(), rpc.publicAddress, report, around, rpc.timeout);
      TickRefines(rpc.checks, before, asked, ready, rpc.State(), rpc.publicAddress, report, around, rpc.timeout,
                  history, putSenders);
      ForwardHeard(report, before, asked, ready, around);
      TellResults(report, asked, around.now);
    }

    /** A value goes to those who wait for it. */
    method ForwardHeard(report: Report, ghost before: Core, ghost asked: Core, ghost ready: Core, ghost around: Around)
      requires Conserved(getAsked, getSenders, getAnswered)
      requires Fed(getSenders, before.gets, None, wants, received, joinings)
      requires Advanced(rpc.checks, before, asked, ready, rpc.State(), rpc.publicAddress, report, around, rpc.timeout)
      modifies this`received
      ensures Fed(getSenders, before.gets, report.heard, wants, received, joinings)
      ensures Fed(getSenders - TargetsOf(report.doneGets), rpc.gets, None, wants, received, joinings)
    {
      hide Conserved, Advanced, Fed;
      WaitersAre(getSenders, getAsked, getAnswered, before.gets, wants, received, joinings);
      var channels := Forward(report.heard, getSenders, wants, received);
      ForwardFeeds(getSenders, getAsked, before.gets, report.heard, wants, received, channels, joinings);
      TickFeeds(rpc.checks, before, asked, ready, rpc.State(), rpc.publicAddress, report, around, rpc.timeout,
                getSenders, wants, channels, joinings);
      received := channels;
    }

    /** Whoever waits for a put or a lookup that ended is told its result. */
    method TellResults(report: Report, ghost asked: Core, ghost now: nat)
      requires rpc.Valid() && rpc.puts.Keys == putSenders.Keys - TargetsOf(report.donePuts)
      requires Conserved(putAsked, putSenders, putAnswered) && Conserved(getAsked, getSenders, getAnswered)
      requires Issued(putAsked, tickets) && Issued(getAsked, tickets)
      requires NoTargetTwice(report.doneGets) && NoTargetTwice(report.donePuts)
      requires Refined(history + [TickEvent(asked.gets, report, now)], rpc.puts,
                       putSenders - TargetsOf(report.donePuts))
      requires Fed(getSenders - TargetsOf(report.doneGets), rpc.gets, None, wants, received, joinings)
      modifies this`putSenders, this`getSenders, this`putAnswered, this`getAnswered, this`history
      ensures Valid() && history == old(history) + [TickEvent(asked.gets, report, now)]
      ensures putAnswered == old(putAnswered) + AllTold(report.donePuts, old(putSenders))
      ensures getAnswered == old(getAnswered) + AllTold(report.doneGets, old(getSenders))
      ensures getSenders == old(getSenders) - TargetsOf(report.doneGets)
    {
      hide Rpc.Valid, Conserved, AllTold, Fed, Refined, Issued, TickEvent, NoTargetTwice;
      var gs, ga := TellAll(report.doneGets, getSenders, getAnswered, getAsked);
      var ps, pa := TellAll(report.donePuts, putSenders, putAnswered, putAsked);
      getSenders, getAnswered, putSenders, putAnswered := gs, ga, ps, pa;
      history := history + [TickEvent(asked.gets, report, now)];
    }

    lemma Parts()
      requires Valid()
      ensures rpc.Valid() && Healthy(rpc.State()) && LookupsOk(rpc.checks, rpc.gets)
      ensures putSenders.Keys == rpc.puts.Keys
      ensures Conserved(putAsked, putSenders, putAnswered) && Conserved(getAsked, getSenders, getAnswered)
      ensures Issued(putAsked, tickets) && Issued(getAsked, tickets) && Refined(history, rpc.puts, putSenders)
      ensures Fed(getSenders, rpc.gets, None, wants, received, joinings)
    {
    }

    lemma CacheIsValid()
      requires Valid()
      ensures Lru.Valid(rpc.statistics.cached)
    {
    }

    /** One turn of the loop: at most one message, then a tick. */
    method Step(m: Message, at: nat, around: Around)
      returns (report: Report, ghost middle: Core, ghost asked: Core, ghost ready: Core)
      requires Valid()
      modifies this, rpc, rpc.statistics
      ensures Valid() && old(putAnswered) <= putAnswered && old(getAnswered) <= getAnswered
      ensures putAsked == if m.PutMessage? then old(putAsked)[old(tickets) := m.target] else old(putAsked)
      ensures getAsked == if m.GetMessage? then old(getAsked)[old(tickets) := m.target] else old(getAsked)
      ensures tickets == old(tickets) + if m.NoMessage? then 0 else 1
      ensures Undisturbed(old(rpc.State()), middle, at) && Healthy(middle) && LookupsOk(rpc.checks, middle.gets)
      ensures Advanced(rpc.checks, middle, asked, ready, rpc.State(), rpc.publicAddress, report, around, rpc.timeout)
      ensures old(rpc.sock).issued <= middle.sock.issued <= rpc.sock.issued
      ensures forall k <- TargetsOf(report.doneGets) :: k !in getSenders
      ensures forall k :: !(m.PutMessage? && m.target == k) ==>
                var event := TickEvent(asked.gets, report, around.now);
                PhaseOf(history, k) == Next(PhaseOf(old(history), k), k, event)
      ensures rpc.sock.issued <= TID_COUNT ==> NoneOverdue(rpc.puts, around.now, rpc.timeout)
      ensures forall k :: old(IsStuck(k)) && !MayFree(m, k) ==>
                IsStuck(k) && PhaseOf(history, k) == PhaseOf(old(history), k)
      ensures forall k :: IsStuck(k) ==> old(IsStuck(k)) || (m.PutMessage? && m.target == k)
    {
      hide Rpc.Valid, Valid, Stuck, PhaseOf, AllTold, Rejection, LeftBehind, Looked, Advanced, Fed, NoneOverdue,
           CachedAll, Peek, HasAnswer, Undisturbed, Later, Healthy, LookupsOk, FoundNow, Next, TickEvent, SendAll;
      match m {
        case NoMessage => UndisturbedItself(rpc.State(), at);
        case PutMessage(target, kind, extra, seeds) => ReceivePut(target, kind, extra, seeds, at);
        case GetMessage(target, findNode, salt, w, seeds) => ReceiveGet(target, findNode, salt, w, seeds, at);
      }
      Parts();
      middle := rpc.State();
      UndisturbedGrows(old(rpc.State()), middle, at);
      ghost var past := history;
      report, asked, ready := Tick(around);
      PhaseStep(past, TickEvent(asked.gets, report, around.now));
      LaterGrows(middle.sock, rpc.sock, around.now);
    }

    /**
     * Any schedule of messages, packets and times: no caller is lost and none is answered twice.
     * After it no put is overdue. A put that was left behind stays so, and its callers with it,
     * until someone puts to or looks up its target; and only a put message leaves a put behind.
     */
    method Run(schedule: seq<Turn>)
      requires Valid()
      modifies this, rpc, rpc.statistics
      ensures Valid() && old(putAnswered) <= putAnswered && old(getAnswered) <= getAnswered
      ensures putAsked == AskedBy(schedule, true, old(tickets), old(putAsked))
      ensures getAsked == AskedBy(schedule, false, old(tickets), old(getAsked))
      ensures schedule != [] && rpc.sock.issued <= TID_COUNT ==>
                NoneOverdue(rpc.puts, schedule[|schedule| - 1].around.now, rpc.timeout)
      ensures forall k :: old(IsStuck(k)) && Quiet(schedule, k) ==>
                IsStuck(k) && PhaseOf(history, k) == PhaseOf(old(history), k)
      ensures forall k :: IsStuck(k) ==> old(IsStuck(k)) || PutIn(schedule, k)
    {
      hide Rpc.Valid, Valid, Stuck, PhaseOf, NoneOverdue, MayFree, Advanced, Undisturbed, Healthy, LookupsOk, Next;
      for i := 0 to |schedule|
        invariant Valid() && old(putAnswered) <= putAnswered && old(getAnswered) <= getAnswered
        invariant tickets == old(tickets) + Calls(schedule[..i])
        invariant putAsked == AskedBy(schedule[..i], true, old(tickets), old(putAsked))
        invariant getAsked == AskedBy(schedule[..i], false, old(tickets), old(getAsked))
        invariant i > 0 && rpc.sock.issued <= TID_COUNT ==>
                    NoneOverdue(rpc.puts, schedule[i - 1].around.now, rpc.timeout)
        invariant forall k :: old(IsStuck(k)) && Quiet(schedule, k) ==>
                    IsStuck(k) && PhaseOf(history, k) == PhaseOf(old(history), k)
        invariant forall k :: IsStuck(k) ==> old(IsStuck(k)) || PutIn(schedule, k)
      {
        assert schedule[..i + 1][..i] == schedule[..i];
        var _, _, _, _ := Step(schedule[i].message, schedule[i].at, schedule[i].around);
      }
      assert schedule[..|schedule|] == schedule;
    }

    /**
     * A put that is not left behind ends in time, and all its callers are answered: with ticks at
     * most a gap apart, within (addresses + 2) times (timeout + gap), whatever packets are lost and
     * whatever other callers do.
     */
    method RunToAnswer(schedule: seq<Turn>, ghost k: Id, ghost universe: set<Addr>, ghost d: Deadline)
      requires Valid() && k in rpc.puts && !IsStuck(k) && d.timeout == rpc.timeout
      requires AllSentBy(rpc.sock.table, d.start)
      requires if Started(rpc.puts[k].state) then rpc.puts[k].sentAt <= d.start
               else Within(rpc.gets[k].query.closest, universe)
      requires Timely(schedule, d) && LeavesAlone(schedule, k, universe)
      requires schedule != [] && TickTime(schedule, |schedule|, d.start) > Due(d, |universe| + 2)
      modifies this, rpc, rpc.statistics
      ensures Valid()
      ensures rpc.sock.issued <= TID_COUNT ==>
                k !in rpc.puts && forall t <- old(putSenders)[k] :: HasAnswer(putAnswered, t)
    {
      hide Rpc.Valid, Valid, IsStuck, HasAnswer, Due, AllSentBy, Started, Within, InTime, LearnsWithin,
           OnTrack, PhaseOf, NoneOverdue;
      ghost var last := d.start;
      StartsOnTrack(k, universe, d);
      for i := 0 to |schedule|
        invariant Valid() && OnTime(k, universe, last, TickTime(schedule, i, d.start), d)
        invariant forall t :: t in old(putAsked) ==> t in putAsked && putAsked[t] == old(putAsked)[t]
        invariant i > 0 && rpc.sock.issued <= TID_COUNT ==>
                    NoneOverdue(rpc.puts, TickTime(schedule, i, d.start), rpc.timeout)
      {
        last := TakeTurn(schedule[i], k, universe, last, TickTime(schedule, i, d.start), d);
      }
      if rpc.sock.issued <= TID_COUNT {
        EndsOnTrack(k, universe, last, TickTime(schedule, |schedule|, d.start), d);
      }
    }

    /** The put of this target is on track, unless ids have wrapped around. */
    ghost predicate OnTime(k: Id, universe: set<Addr>, last: nat, tick: nat, d: Deadline)
      reads this, rpc
    {
      rpc.sock.issued <= TID_COUNT ==>
        AllSentBy(rpc.sock.table, tick) && OnTrack(PhaseOf(history, k), rpc.State(), k, universe, last, tick, d)
    }

    method TakeTurn(turn: Turn, ghost k: Id, ghost universe: set<Addr>, ghost last: nat, ghost tick: nat,
                    ghost d: Deadline) returns (ghost next: nat)
      requires Valid() && OnTime(k, universe, last, tick, d) && d.timeout == rpc.timeout
      requires InTime(turn, tick, d.gap) && LearnsWithin(turn.around.incoming, universe)
      requires !(turn.message.PutMessage? && turn.message.target == k)
      modifies this, rpc, rpc.statistics
      ensures Valid() && OnTime(k, universe, next, turn.around.now, d)
      ensures rpc.sock.issued <= TID_COUNT ==> NoneOverdue(rpc.puts, turn.around.now, rpc.timeout)
      ensures forall t :: t in old(putAsked) ==> t in putAsked && putAsked[t] == old(putAsked)[t]
    {
      hide Rpc.Valid, Valid, IsStuck, PhaseOf, NoneOverdue, Advanced, Undisturbed, Healthy, LookupsOk, Next, AllSentBy,
           OnTrack, HasAnswer, LearnsWithin, TickEvent, MayFree;
      ghost var before, phase := rpc.State(), PhaseOf(history, k);
      Parts();
      TicketsAreOld();
      var report, middle, asked, ready := Step(turn.message, turn.at, turn.around);
      next := last;
      if rpc.sock.issued <= TID_COUNT {
        next := TurnKeepsTrack(rpc.checks, before, middle, asked, ready, rpc.State(), rpc.publicAddress, report,
                               turn.around, phase, k, universe, last, tick, turn.at, d);
      }
    }

    /**
     * A lookup is reported in time, and whoever waited for it is told: with ticks at most a gap
     * apart, within (addresses + 1) times (timeout + gap), whatever packets are lost and whatever
     * other callers do.
     */
    method RunToReport(schedule: seq<Turn>, ghost k: Id, ghost universe: set<Addr>, ghost d: Deadline)
      requires Valid() && k in getSenders && d.timeout == rpc.timeout
      requires AllSentBy(rpc.sock.table, d.start) && Within(rpc.gets[k].query.closest, universe)
      requires Timely(schedule, d) && forall i :: 0 <= i < |schedule| ==>
                                        LearnsWithin(schedule[i].around.incoming, universe)
      requires TickTime(schedule, |schedule|, d.start) > Due(d, |universe| + 1)
      modifies this, rpc, rpc.statistics
      ensures Valid()
      ensures rpc.sock.issued <= TID_COUNT ==> forall t <- old(getSenders)[k] :: HasAnswer(getAnswered, t)
    {
      hide Rpc.Valid, Valid, HasAnswer, Due, AllSentBy, Within, InTime, LearnsWithin, Asking;
      ghost var last, callers := d.start, getSenders[k];
      StartsAsking(k, universe, d);
      for i := 0 to |schedule|
        invariant Valid() && ToldOrAsking(callers, k, universe, last, TickTime(schedule, i, d.start), d)
        invariant forall t <- callers :: t in getAsked && getAsked[t] == k
      {
        last := TakeTurnForGet(schedule[i], callers, k, universe, last, TickTime(schedule, i, d.start), d);
      }
      if rpc.sock.issued <= TID_COUNT && !Told(callers) {
        AskingEnds(rpc.State(), k, universe, last, TickTime(schedule, |schedule|, d.start), d);
        assert false;
      }
    }

    ghost predicate Told(callers: seq<nat>)
      reads this
    {
      forall t <- callers :: HasAnswer(getAnswered, t)
    }

    /** All of these callers were told what their lookup found, or it is asking in time. */
    ghost predicate ToldOrAsking(callers: seq<nat>, k: Id, universe: set<Addr>, last: nat, tick: nat, d: Deadline)
      reads this, rpc
    {
      Told(callers)
      || (rpc.sock.issued <= TID_COUNT ==>
            AllSentBy(rpc.sock.table, tick) && Asking(rpc.State(), k, universe, last, tick, d))
    }

    method TakeTurnForGet(turn: Turn, ghost callers: seq<nat>, ghost k: Id, ghost universe: set<Addr>,
                          ghost last: nat, ghost tick: nat, ghost d: Deadline) returns (ghost next: nat)
      requires Valid() && ToldOrAsking(callers, k, universe, last, tick, d) && d.timeout == rpc.timeout
      requires InTime(turn, tick, d.gap) && LearnsWithin(turn.around.incoming, universe)
      requires forall t <- callers :: t in getAsked && getAsked[t] == k
      modifies this, rpc, rpc.statistics
      ensures Valid() && ToldOrAsking(callers, k, universe, next, turn.around.now, d)
      ensures forall t <- callers :: t in getAsked && getAsked[t] == k
    {
      hide Rpc.Valid, Valid, IsStuck, PhaseOf, NoneOverdue, Advanced, Undisturbed, Healthy, LookupsOk, Next, AllSentBy,
           Asking, HasAnswer, LearnsWithin, TickEvent, MayFree;
      ghost var before, told, answered := rpc.State(), Told(callers), getAnswered;
      Parts();
      TicketsAreOld();
      var report, middle, asked, ready := Step(turn.message, turn.at, turn.around);
      next := last;
      if told {
        StaysTold(answered, getAnswered, callers);
      } else if k in TargetsOf(report.doneGets) {
        ReportedAreTold(k);
      } else if rpc.sock.issued <= TID_COUNT {
        next := TurnKeepsAsking(rpc.checks, before, middle, asked, ready, rpc.State(), rpc.publicAddress, report,
                                turn.around, k, universe, last, tick, turn.at, d);
      }
    }

    lemma ReportedAreTold(k: Id)
      requires Valid() && k !in getSenders
      ensures forall t :: t in getAsked && getAsked[t] == k ==> HasAnswer(getAnswered, t)
    {
      forall t | t in getAsked && getAsked[t] == k ensures HasAnswer(getAnswered, t) {
        assert HasAnswer(getAnswered, t) <==> !IsWaiting(getAsked, getSenders, t);
      }
    }

    lemma StartsAsking(k: Id, universe: set<Addr>, d: Deadline)
      requires Valid() && k in getSenders && AllSentBy(rpc.sock.table, d.start)
      ensures k in rpc.gets && forall t <- getSenders[k] :: t in getAsked && getAsked[t] == k
      ensures Within(rpc.gets[k].query.closest, universe) ==>
                Asking(rpc.State(), k, universe, d.start, d.start, d)
    {
      hide Rpc.Valid, Refined, Due, Within;
      if Within(rpc.gets[k].query.closest, universe) {
        AllMeansThese(rpc.gets[k].query, rpc.sock.table, d.start);
        AskingStarts(rpc.State(), k, universe, d);
      }
    }

    lemma TicketsAreOld()
      requires Valid()
      ensures forall t :: t in putAsked ==> t < tickets
      ensures forall t :: t in getAsked ==> t < tickets
    {
    }

    lemma {:induction false} StartsOnTrack(k: Id, universe: set<Addr>, d: Deadline)
      requires Valid() && k in rpc.puts && !IsStuck(k) && AllSentBy(rpc.sock.table, d.start)
      requires if Started(rpc.puts[k].state) then rpc.puts[k].sentAt <= d.start
               else Within(rpc.gets[k].query.closest, universe)
      ensures OnTrack(PhaseOf(history, k), rpc.State(), k, universe, d.start, d.start, d)
      ensures k in putSenders && forall t <- putSenders[k] :: t in putAsked && putAsked[t] == k
    {
      hide Rpc.Valid, Fed, Due, PhaseOf, Started, Within;
      assert Refines(PhaseOf(history, k), k, rpc.puts, putSenders);
      if !Started(rpc.puts[k].state) {
        AllMeansThese(rpc.gets[k].query, rpc.sock.table, d.start);
      }
      DueGrows(d, 0, |universe| + 1);
      TrackStarts(PhaseOf(history, k), rpc.State(), k, universe, d);
    }

    lemma {:induction false} EndsOnTrack(k: Id, universe: set<Addr>, last: nat, tick: nat, d: Deadline)
      requires Valid() && OnTrack(PhaseOf(history, k), rpc.State(), k, universe, last, tick, d)
      requires d.timeout == rpc.timeout && tick > Due(d, |universe| + 2) && NoneOverdue(rpc.puts, tick, rpc.timeout)
      ensures k !in rpc.puts && forall t :: t in putAsked && putAsked[t] == k ==> HasAnswer(putAnswered, t)
    {
      hide Rpc.Valid, Conserved, Fed, Due, PhaseOf, Started, OnTrack, HasAnswer;
      assert Refines(PhaseOf(history, k), k, rpc.puts, putSenders);
      TrackEnds(PhaseOf(history, k), rpc.State(), k, universe, last, tick, d);
      forall t | t in putAsked && putAsked[t] == k ensures HasAnswer(putAnswered, t) {
        CallerHasNoAnswerIff(t);
      }
    }

    /** A caller of a put has no answer exactly while it is among the callers of the put's phase. */
    lemma CallerHasNoAnswerIff(ticket: nat)
      requires Valid() && ticket in putAsked
      ensures !HasAnswer(putAnswered, ticket) <==> ticket in CallersOf(PhaseOf(history, putAsked[ticket]))
    {
      var k := putAsked[ticket];
      assert Refines(PhaseOf(history, k), k, rpc.puts, putSenders);
      assert HasAnswer(putAnswered, ticket) <==> !IsWaiting(putAsked, putSenders, ticket);
    }

    /**
     * When no put is overdue and this one was not sent within the last timeout, its callers have
     * no answer exactly because it was never sent.
     */
    lemma UnansweredIffUnsent(ticket: nat, now: nat)
      requires Valid() && ticket in putAsked && NoneOverdue(rpc.puts, now, rpc.timeout)
      requires var p := PhaseOf(history, putAsked[ticket]); p.Sent? ==> p.at != now && p.at + rpc.timeout <= now
      ensures var p := PhaseOf(history, putAsked[ticket]);
              !HasAnswer(putAnswered, ticket) <==> p.Unsent? && ticket in p.callers
    {
      CallerHasNoAnswerIff(ticket);
      var k := putAsked[ticket];
      assert Refines(PhaseOf(history, k), k, rpc.puts, putSenders);
    }
  }

  // === Schedules ===

  datatype Turn = Turn(message: Message, at: nat, around: Around)

  /** When the last tick before this turn was. */
  function TickTime(schedule: seq<Turn>, i: nat, start: nat): nat
    requires i <= |schedule|
  {
    if i == 0 then start else schedule[i - 1].around.now
  }

  /** Times do not run backwards, and the next tick comes within a gap. */
  ghost predicate Timely(schedule: seq<Turn>, d: Deadline) {
    forall i :: 0 <= i < |schedule| ==> InTime(schedule[i], TickTime(schedule, i, d.start), d.gap)
  }

  predicate InTime(turn: Turn, tick: nat, gap: nat) { tick <= turn.at <= turn.around.now <= tick + gap }

  /** Nobody puts to the target, and packets name only addresses of the universe. */
  ghost predicate LeavesAlone(schedule: seq<Turn>, k: Id, universe: set<Addr>) {
    forall i :: 0 <= i < |schedule| ==>
      && !(schedule[i].message.PutMessage? && schedule[i].message.target == k)
      && LearnsWithin(schedule[i].around.incoming, universe)
  }

  /** How many callers a schedule brings, and what they ask for. */
  function Calls(schedule: seq<Turn>): nat {
    if schedule == [] then 0
    else Calls(schedule[..|schedule| - 1]) + if schedule[|schedule| - 1].message.NoMessage? then 0 else 1
  }

  function AskedBy(schedule: seq<Turn>, puts: bool, tickets: nat, asked: map<nat, Id>): map<nat, Id> {
    if schedule == [] then asked
    else
      var init, m := schedule[..|schedule| - 1], schedule[|schedule| - 1].message;
      var before := AskedBy(init, puts, tickets, asked);
      if (if puts then m.PutMessage? else m.GetMessage?) then before[tickets + Calls(init) := m.target] else before
  }

  /** Later callers have later tickets. */
  lemma {:induction false} AskedByKeeps(schedule: seq<Turn>, puts: bool, tickets: nat, asked: map<nat, Id>,
                                        ticket: nat)
    requires ticket in asked && ticket < tickets
    ensures ticket in AskedBy(schedule, puts, tickets, asked)
    ensures AskedBy(schedule, puts, tickets, asked)[ticket] == asked[ticket]
  {
    if schedule != [] {
      AskedByKeeps(schedule[..|schedule| - 1], puts, tickets, asked, ticket);
    }
  }

  /** Puts to this target and value lookups of it: nothing else can start a put that was left behind. */
  predicate MayFree(m: Message, k: Id) {
    (m.PutMessage? && m.target == k) || (m.GetMessage? && m.target == k && !m.findNode)
  }

  ghost predicate Quiet(schedule: seq<Turn>, k: Id) {
    forall i :: 0 <= i < |schedule| ==> !MayFree(schedule[i].message, k)
  }

  ghost predicate PutIn(schedule: seq<Turn>, k: Id) {
    exists i :: 0 <= i < |schedule| && schedule[i].message.PutMessage? && schedule[i].message.target == k
  }
}
