/** The actor's waiting callers and their answers: nobody is lost and nobody is answered twice. */
module Callers {
  import opened Ids
  import opened RpcSteps

  /** What a caller was sent: callers are told apart by a ticket. */
  datatype Answered<T> = Answered(ticket: nat, target: Id, result: T)

  type Senders = map<Id, seq<nat>>

  ghost predicate HasAnswer<T>(answered: seq<Answered<T>>, ticket: nat) {
    exists i :: 0 <= i < |answered| && answered[i].ticket == ticket
  }

  ghost predicate IsWaiting(asked: map<nat, Id>, senders: Senders, ticket: nat)
    requires ticket in asked
  {
    asked[ticket] in senders && ticket in senders[asked[ticket]]
  }

  /**
   * Every caller waits in the list of its own target or was answered for it: never both, never
   * neither, and never twice.
   */
  ghost predicate Conserved<T>(asked: map<nat, Id>, senders: Senders, answered: seq<Answered<T>>) {
    && (forall k, i :: k in senders && 0 <= i < |senders[k]| ==> senders[k][i] in asked && asked[senders[k][i]] == k)
    && (forall k, i, j :: k in senders && 0 <= i < j < |senders[k]| ==> senders[k][i] != senders[k][j])
    && (forall i :: 0 <= i < |answered| ==>
          answered[i].ticket in asked && asked[answered[i].ticket] == answered[i].target)
    && (forall i, j :: 0 <= i < j < |answered| ==> answered[i].ticket != answered[j].ticket)
    && (forall t :: t in asked ==> (HasAnswer(answered, t) <==> !IsWaiting(asked, senders, t)))
  }

  function Entry(senders: Senders, k: Id): seq<nat> { if k in senders then senders[k] else [] }

  function Enlist(senders: Senders, k: Id, ticket: nat): Senders { senders[k := Entry(senders, k) + [ticket]] }

  function Tell<T>(tickets: seq<nat>, k: Id, result: T): (r: seq<Answered<T>>)
    ensures |r| == |tickets| && forall i :: 0 <= i < |r| ==> r[i] == Answered(tickets[i], k, result)
  {
    seq(|tickets|, i requires 0 <= i < |tickets| => Answered(tickets[i], k, result))
  }

  /** A new caller joins the list of its target. */
  lemma EnlistConserves<T>(asked: map<nat, Id>, senders: Senders, answered: seq<Answered<T>>, k: Id, ticket: nat)
    requires Conserved(asked, senders, answered) && ticket !in asked
    ensures Conserved(asked[ticket := k], Enlist(senders, k, ticket), answered)
    ensures Enlist(senders, k, ticket).Keys == senders.Keys + {k}
  {
    var after := Enlist(senders, k, ticket);
    forall t | t in asked[ticket := k] ensures HasAnswer(answered, t) <==> !IsWaiting(asked[ticket := k], after, t) {
      if t == ticket {
        assert after[k][|Entry(senders, k)|] == ticket;
      } else {
        assert HasAnswer(answered, t) <==> !IsWaiting(asked, senders, t);
      }
    }
  }

  /** A caller that is turned down is answered at once. */
  lemma RefuseConserves<T>(asked: map<nat, Id>, senders: Senders, answered: seq<Answered<T>>, k: Id, ticket: nat,
                           result: T)
    requires Conserved(asked, senders, answered) && ticket !in asked
    ensures Conserved(asked[ticket := k], senders, answered + [Answered(ticket, k, result)])
  {
    var after := answered + [Answered(ticket, k, result)];
    assert after[|answered|].ticket == ticket;
    forall t | t in asked[ticket := k] ensures HasAnswer(after, t) <==> !IsWaiting(asked[ticket := k], senders, t) {
      HasAnswerAppend(answered, [Answered(ticket, k, result)], t);
      if t != ticket {
        assert HasAnswer(answered, t) <==> !IsWaiting(asked, senders, t);
      }
    }
  }

  lemma HasAnswerAppend<T>(a: seq<Answered<T>>, b: seq<Answered<T>>, t: nat)
    ensures HasAnswer(a + b, t) <==> HasAnswer(a, t) || HasAnswer(b, t)
  {
    if HasAnswer(a, t) {
      var i :| 0 <= i < |a| && a[i].ticket == t;
      assert (a + b)[i].ticket == t;
    }
    if HasAnswer(b, t) {
      var i :| 0 <= i < |b| && b[i].ticket == t;
      assert (a + b)[|a| + i].ticket == t;
    }
  }

  /** All who wait for a target are answered and wait no more. */
  lemma TellConserves<T>(asked: map<nat, Id>, senders: Senders, answered: seq<Answered<T>>, k: Id, result: T)
    requires Conserved(asked, senders, answered)
    ensures Conserved(asked, senders - {k}, answered + Tell(Entry(senders, k), k, result))
  {
    var told := Tell(Entry(senders, k), k, result);
    var after := answered + told;
    forall t | t in asked ensures HasAnswer(after, t) <==> !IsWaiting(asked, senders - {k}, t) {
      HasAnswerAppend(answered, told, t);
      assert HasAnswer(answered, t) <==> !IsWaiting(asked, senders, t);
      if asked[t] == k && IsWaiting(asked, senders, t) {
        var i :| 0 <= i < |senders[k]| && senders[k][i] == t;
        assert told[i].ticket == t;
      }
      if HasAnswer(told, t) {
        var i :| 0 <= i < |told| && told[i].ticket == t;
        assert senders[k][i] == t;
      }
    }
    forall i, j | 0 <= i < j < |after| ensures after[i].ticket != after[j].ticket {
      if i < |answered| <= j {
        assert senders[k][j - |answered|] == after[j].ticket;
        assert HasAnswer(answered, after[i].ticket);
        assert IsWaiting(asked, senders, after[j].ticket);
      }
    }
  }

  // === A report ===

  /** Everyone who waits for a reported target is told its result. */
  ghost function AllTold<R>(done: seq<(Id, R)>, senders: Senders): seq<Answered<R>> {
    if done == [] then []
    else
      var (k, result) := done[|done| - 1];
      AllTold(done[..|done| - 1], senders) + Tell(Entry(senders, k), k, result)
  }

  lemma {:induction false} AllToldStep<R>(done: seq<(Id, R)>, n: nat, senders: Senders)
    requires n < |done|
    ensures AllTold(done[..n + 1], senders)
         == AllTold(done[..n], senders) + Tell(Entry(senders, done[n].0), done[n].0, done[n].1)
  {
    assert done[..n + 1][..n] == done[..n];
  }

  method TellAll<R>(done: seq<(Id, R)>, senders: Senders, answered: seq<Answered<R>>, ghost asked: map<nat, Id>)
    returns (left: Senders, told: seq<Answered<R>>)
    requires Conserved(asked, senders, answered) && NoTargetTwice(done)
    ensures Conserved(asked, left, told) && left == senders - TargetsOf(done)
    ensures told == answered + AllTold(done, senders)
  {
    hide Conserved, Tell;
    left, told := senders, answered;
    for i := 0 to |done|
      invariant Conserved(asked, left, told)
      invariant left == senders - TargetsOf(done[..i]) && told == answered + AllTold(done[..i], senders)
    {
      var (k, result) := done[i];
      PrefixTargets(done, i);
      AllToldStep(done, i, senders);
      TellConserves(asked, left, told, k, result);
      assert Entry(left, k) == Entry(senders, k);
      AppendOnce(answered, AllTold(done[..i], senders), Tell(Entry(senders, k), k, result));
      told := told + Tell(Entry(left, k), k, result);
      left := left - {k};
    }
    assert done[..|done|] == done;
  }

  lemma AppendOnce<T>(a: seq<T>, b: seq<T>, c: seq<T>)
    ensures (a + b) + c == a + (b + c)
  {
  }

  /** Whoever waits for a reported target is told that target's own result. */
  lemma {:induction false} CallersAreTold<R>(done: seq<(Id, R)>, senders: Senders, n: nat, ticket: nat)
    requires n < |done| && done[n].0 in senders && ticket in senders[done[n].0]
    ensures Answered(ticket, done[n].0, done[n].1) in AllTold(done, senders)
  {
    var last := |done| - 1;
    if n == last {
      var i :| 0 <= i < |senders[done[n].0]| && senders[done[n].0][i] == ticket;
      assert Tell(Entry(senders, done[n].0), done[n].0, done[n].1)[i] == Answered(ticket, done[n].0, done[n].1);
    } else {
      CallersAreTold(done[..last], senders, n, ticket);
    }
  }

  // === New callers ===

  ghost predicate Issued(asked: map<nat, Id>, tickets: nat) { forall t :: t in asked ==> t < tickets }

  lemma NewTicket(asked: map<nat, Id>, other: map<nat, Id>, tickets: nat, k: Id)
    requires Issued(asked, tickets) && Issued(other, tickets)
    ensures tickets !in asked
    ensures Issued(asked[tickets := k], tickets + 1) && Issued(other, tickets + 1)
  {
  }

  lemma NoAnswerYet<T>(asked: map<nat, Id>, senders: Senders, answered: seq<Answered<T>>, ticket: nat)
    requires Conserved(asked, senders, answered) && ticket !in asked
    ensures !HasAnswer(answered, ticket)
  {
  }

  lemma NobodyHasTicket<T>(asked: map<nat, Id>, senders: Senders, answered: seq<Answered<T>>, ticket: nat)
    requires Conserved(asked, senders, answered) && ticket !in asked
    ensures forall k, i :: k in senders && 0 <= i < |senders[k]| ==> senders[k][i] != ticket
  {
  }

  /** Answers are never taken back. */
  lemma StaysTold<T>(before: seq<Answered<T>>, after: seq<Answered<T>>, tickets: seq<nat>)
    requires before <= after && forall t <- tickets :: HasAnswer(before, t)
    ensures forall t <- tickets :: HasAnswer(after, t)
  {
    forall t <- tickets ensures HasAnswer(after, t) {
      assert HasAnswer(before, t);
      var i :| 0 <= i < |before| && before[i].ticket == t;
      assert after[i] == before[i];
    }
  }
}
