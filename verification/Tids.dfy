/** Who owns which transaction id: the lists of all queries stay disjoint, so a reply has one addressee. */
module Tids {
  import opened Ids
  import opened Sets
  import opened Nodes
  import opened Socket
  import opened IterativeQueries
  import opened PutQueries

  datatype Owner = PutOwner(target: Id) | GetOwner(target: Id)

  /** The transaction ids that each query waits for. */
  type Lists = Owner -> seq<nat>

  ghost predicate Distinct(l: seq<nat>) { forall i, j :: 0 <= i < j < |l| ==> l[i] != l[j] }

  ghost predicate Below(l: seq<nat>, n: nat) { forall i :: 0 <= i < |l| ==> l[i] < n }

  ghost predicate From(l: seq<nat>, n: nat) { forall i :: 0 <= i < |l| ==> l[i] >= n }

  ghost predicate Apart(a: seq<nat>, b: seq<nat>) { forall t <- a :: t !in b }

  /** No id is twice in a list or in two lists, and all were issued. */
  ghost predicate TidInv(lists: Lists, issued: nat) {
    && (forall o :: Distinct(lists(o)) && Below(lists(o), issued))
    && (forall o, p :: o != p ==> Apart(lists(o), lists(p)))
  }

  /** A reply can have at most one addressee. */
  lemma OneAddressee(lists: Lists, issued: nat, tid: nat, o: Owner, p: Owner)
    requires TidInv(lists, issued) && tid in lists(o) && tid in lists(p)
    ensures o == p
  {
    assert o != p ==> Apart(lists(o), lists(p));
  }

  /** Ids issued since are new to every list, so a query may take them. */
  lemma TakeNewTids(lists: Lists, issued: nat, after: Lists, issued': nat, o: Owner, kept: seq<nat>, new_: seq<nat>)
    requires TidInv(lists, issued) && issued <= issued'
    requires forall p :: p != o ==> after(p) == lists(p)
    requires after(o) == kept + new_ && (kept == lists(o) || kept == [])
    requires Distinct(new_) && From(new_, issued) && Below(new_, issued')
    ensures TidInv(after, issued')
  {
    forall p ensures Distinct(after(p)) && Below(after(p), issued') {
      assert Distinct(lists(p)) && Below(lists(p), issued);
      assert Distinct(lists(o)) && Below(lists(o), issued);
    }
    forall p, q | p != q ensures Apart(after(p), after(q)) {
      assert Apart(lists(p), lists(q));
      assert Below(lists(p), issued) && Below(lists(q), issued);
    }
  }

  /** Forgetting queries, or issuing ids that no query waits for, disturbs nobody. */
  lemma ForgetTids(lists: Lists, issued: nat, after: Lists, issued': nat)
    requires TidInv(lists, issued) && issued <= issued'
    requires forall p :: after(p) == lists(p) || after(p) == []
    ensures TidInv(after, issued')
  {
    forall p ensures Distinct(after(p)) && Below(after(p), issued') {
      assert Distinct(lists(p)) && Below(lists(p), issued);
    }
    forall p, q | p != q ensures Apart(after(p), after(q)) {
      assert Apart(lists(p), lists(q));
    }
  }

  // === What queries issue ===

  /** The new end of a list: consecutive ids from `issued` on. */
  ghost predicate Consecutive(l: seq<nat>, issued: nat) { forall i :: 0 <= i < |l| ==> l[i] == issued + i }

  /** Entries below `issued` are as before. */
  ghost predicate OldKept(before: Table, after: Table, issued: nat) {
    forall tid :: tid < issued ==> (tid in after <==> tid in before) && (tid in before ==> after[tid] == before[tid])
  }

  lemma VisitTids(q: Query, s: Sock, addr: Addr, now: nat)
    requires s.issued + 2 <= TID_COUNT
    ensures var (p, t) := VisitOne(q, s, addr, now);
            && p.inflight == q.inflight + [s.issued, s.issued + 1]
            && t.issued == s.issued + 2 && OldKept(s.table, t.table, s.issued)
  {
    assert s.issued % TID_COUNT == s.issued && (s.issued + 1) % TID_COUNT == s.issued + 1;
    assert (q.inflight + [s.issued]) + [s.issued + 1] == q.inflight + [s.issued, s.issued + 1];
  }

  lemma {:induction false} VisitAllTids(q: Query, s: Sock, addrs: seq<Addr>, now: nat) returns (new_: seq<nat>)
    requires VisitAll(q, s, addrs, now).1.issued <= TID_COUNT
    ensures var (p, t) := VisitAll(q, s, addrs, now);
            && p.inflight == q.inflight + new_ && Consecutive(new_, s.issued)
            && t.issued == s.issued + |new_| && OldKept(s.table, t.table, s.issued)
  {
    if addrs == [] {
      new_ := [];
      assert q.inflight + [] == q.inflight;
    } else {
      var init, last := addrs[..|addrs| - 1], addrs[|addrs| - 1];
      var (p, t) := VisitAll(q, s, init, now);
      assert VisitAll(q, s, addrs, now) == VisitOne(p, t, last, now);
      var rest := VisitAllTids(q, s, init, now);
      VisitTids(p, t, last, now);
      new_ := rest + [t.issued, t.issued + 1];
      AppendTwice(q.inflight, rest, [t.issued, t.issued + 1]);
    }
  }

  lemma AppendTwice(a: seq<nat>, b: seq<nat>, c: seq<nat>)
    ensures (a + b) + c == a + (b + c)
  {
  }

  lemma StartTids(p: PutState, s: Sock, closest: seq<Node>, extra: seq<Node>, now: nat) returns (new_: seq<nat>)
    requires Start(p, s, closest, extra, now).1.issued <= TID_COUNT
    ensures var (q, t, error) := Start(p, s, closest, extra, now);
            && q.inflight == p.inflight + new_ && Consecutive(new_, s.issued)
            && t.issued == s.issued + |new_| && OldKept(s.table, t.table, s.issued)
            && q.storedAt == p.storedAt && q.errors == p.errors
  {
    if closest == [] {
      new_ := [];
      assert p.inflight + [] == p.inflight;
    } else {
      SendAllSent(s, Holders(closest + extra), now);
      SendAllSpec(s, Holders(closest + extra), now);
      new_ := SendAll(s, Holders(closest + extra), now).1;
    }
  }

  lemma ConsecutiveIsNew(l: seq<nat>, issued: nat)
    requires Consecutive(l, issued)
    ensures Distinct(l) && From(l, issued) && Below(l, issued + |l|)
  {
  }

  // === Answers never outnumber requests ===

  ghost function Outstanding(tids: seq<nat>, t: Table): set<nat> { set tid | tid in tids && tid in t }

  /** Every request is answered at most once: answers and open requests are at most the requests sent. */
  ghost predicate AnswersBounded(answers: nat, tids: seq<nat>, t: Table) {
    answers + |Outstanding(tids, t)| <= |tids|
  }

  /** An accepted reply closes one request and is one answer. */
  lemma AnswerOneRequest(answers: nat, tids: seq<nat>, t: Table, tid: nat)
    requires AnswersBounded(answers, tids, t) && tid in tids && tid in t
    ensures AnswersBounded(answers + 1, tids, t - {tid})
  {
    assert Outstanding(tids, t - {tid}) == Outstanding(tids, t) - {tid};
  }

  /** What happens to other requests, or to expired ones, leaves the bound in place. */
  lemma FewerOutstanding(answers: nat, tids: seq<nat>, t: Table, u: Table)
    requires AnswersBounded(answers, tids, t) && forall tid <- tids :: tid in u ==> tid in t
    ensures AnswersBounded(answers, tids, u)
  {
    SubsetCard(Outstanding(tids, u), Outstanding(tids, t));
  }

  function ToSet(l: seq<nat>): set<nat> { set tid | tid in l }

  lemma {:induction false} SetOfList(l: seq<nat>)
    ensures |ToSet(l)| <= |l|
  {
    if l == [] {
      assert ToSet(l) == {};
    } else {
      var init, last := l[..|l| - 1], l[|l| - 1];
      SetOfList(init);
      assert l == init + [last];
      assert ToSet(l) == ToSet(init) + {last};
    }
  }

  /** A query that has just started has no answers. */
  lemma StartedBounded(tids: seq<nat>, t: Table)
    ensures AnswersBounded(0, tids, t)
  {
    SetOfList(tids);
    SubsetCard(Outstanding(tids, t), ToSet(tids));
  }

  /** While a request is open, fewer answers came than requests were sent. */
  lemma OpenMeansFewer(answers: nat, tids: seq<nat>, t: Table, tid: nat)
    requires AnswersBounded(answers, tids, t) && tid in tids && tid in t
    ensures answers < |tids|
  {
    assert tid in Outstanding(tids, t);
  }
}
