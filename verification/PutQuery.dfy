/** Storing a value at the closest nodes: acknowledgements, the error tally and the verdict. */
module PutQueries {
  import opened Nodes
  import opened Options
  import opened Socket

  datatype RemoteError = RemoteError(code: int, description: string)

  datatype PutError = NoClosestNodes | Timeout | CasFailed | NotMostRecent | ConflictRisk

  // A code and how often it came; counts are bytes and wrap around.
  datatype Tallied = Tallied(count: nat, error: RemoteError)

  datatype PutState = PutState(inflight: seq<nat>, isMutable: bool, storedAt: nat, errors: seq<Tallied>)

  function NewPut(isMutable: bool): PutState { PutState([], isMutable, 0, []) }

  predicate Started(p: PutState) { p.inflight != [] }

  function Increment(count: nat): nat { (count + 1) % 256 }

  function Success(p: PutState): PutState { p.(storedAt := Increment(p.storedAt)) }

  // === The error list ===

  /** The index of the entry with this code, or the length. */
  function CodeAt(es: seq<Tallied>, code: int): (i: nat)
    ensures i <= |es|
    ensures i < |es| ==> es[i].error.code == code
    ensures forall j :: 0 <= j < i ==> es[j].error.code != code
  {
    if es == [] then 0 else if es[0].error.code == code then 0 else 1 + CodeAt(es[1..], code)
  }

  /** The entry at `i` moves forward past smaller counts. */
  function BubbleUp(es: seq<Tallied>, i: nat): (r: seq<Tallied>)
    requires i < |es|
    ensures |r| == |es|
    decreases i
  {
    if i > 0 && es[i].count > es[i - 1].count then BubbleUp(es[i := es[i - 1]][i - 1 := es[i]], i - 1) else es
  }

  function TallyError(es: seq<Tallied>, e: RemoteError): seq<Tallied> {
    var pos := CodeAt(es, e.code);
    if pos < |es| then BubbleUp(es[pos := es[pos].(count := Increment(es[pos].count))], pos)
    else es + [Tallied(1, e)]
  }

  function Error(p: PutState, e: RemoteError): PutState { p.(errors := TallyError(p.errors, e)) }

  function TallyAll(log: seq<RemoteError>): seq<Tallied> {
    if log == [] then [] else TallyError(TallyAll(log[..|log| - 1]), log[|log| - 1])
  }

  /** How often a code occurs in a log. */
  function Count(log: seq<RemoteError>, code: int): (n: nat)
    ensures n <= |log|
  {
    if log == [] then 0
    else Count(log[..|log| - 1], code) + if log[|log| - 1].code == code then 1 else 0
  }

  ghost predicate UniqueCodes(es: seq<Tallied>) {
    forall i, j :: 0 <= i < j < |es| ==> es[i].error.code != es[j].error.code
  }

  ghost predicate NonIncreasing(es: seq<Tallied>) {
    forall i, j :: 0 <= i < j < |es| ==> es[i].count >= es[j].count
  }

  function CountIn(es: seq<Tallied>, code: int): nat {
    var i := CodeAt(es, code);
    if i < |es| then es[i].count else 0
  }

  /** `es` is the tally of `log`: every code once, with its number of occurrences, most frequent first. */
  ghost predicate Represents(es: seq<Tallied>, log: seq<RemoteError>) {
    && UniqueCodes(es) && NonIncreasing(es)
    && (forall i :: 0 <= i < |es| ==> es[i].count > 0)
    && forall code :: CountIn(es, code) == Count(log, code)
  }

  lemma EntryIs(es: seq<Tallied>, i: nat)
    requires UniqueCodes(es) && i < |es|
    ensures CountIn(es, es[i].error.code) == es[i].count
  {
  }

  lemma SwapKeeps(es: seq<Tallied>, i: nat)
    requires 0 < i < |es| && UniqueCodes(es)
    ensures var sw := es[i := es[i - 1]][i - 1 := es[i]];
            && UniqueCodes(sw)
            && (forall code :: CountIn(sw, code) == CountIn(es, code))
            && ((forall k :: 0 <= k < |es| ==> es[k].count > 0) ==> forall k :: 0 <= k < |sw| ==> sw[k].count > 0)
  {
    var sw := es[i := es[i - 1]][i - 1 := es[i]];
    forall code ensures CountIn(sw, code) == CountIn(es, code) {
      var k := CodeAt(es, code);
      if k < |es| {
        var k' := if k == i then i - 1 else if k == i - 1 then i else k;
        assert sw[k'] == es[k];
        EntryIs(sw, k');
      } else {
        assert forall j :: 0 <= j < |sw| ==> sw[j].error.code != code;
      }
    }
  }

  /** Sorted but for the entry at `i`, which may be too far back. */
  ghost predicate SortedExcept(es: seq<Tallied>, i: nat) {
    && (forall j, k :: 0 <= j < k < |es| && j != i && k != i ==> es[j].count >= es[k].count)
    && (forall k :: i < k < |es| ==> es[i].count >= es[k].count)
  }

  lemma {:induction false} BubbleUpSorts(es: seq<Tallied>, i: nat)
    requires i < |es| && UniqueCodes(es) && SortedExcept(es, i)
    requires forall k :: 0 <= k < |es| ==> es[k].count > 0
    ensures var r := BubbleUp(es, i);
            && UniqueCodes(r) && NonIncreasing(r)
            && (forall code :: CountIn(r, code) == CountIn(es, code))
            && (forall k :: 0 <= k < |r| ==> r[k].count > 0)
    decreases i
  {
    if i > 0 && es[i].count > es[i - 1].count {
      SwapKeeps(es, i);
      BubbleUpSorts(es[i := es[i - 1]][i - 1 := es[i]], i - 1);
    }
  }

  /** No code came so often that its byte wraps around. */
  ghost predicate NoneWraps(log: seq<RemoteError>) { forall code :: Count(log, code) <= 255 }

  /** While its count cannot wrap, one more error keeps the list a tally of everything received. */
  lemma {:induction false} TallyErrorKeeps(es: seq<Tallied>, log: seq<RemoteError>, e: RemoteError)
    requires Represents(es, log) && Count(log, e.code) < 255
    ensures Represents(TallyError(es, e), log + [e])
  {
    var pos, after := CodeAt(es, e.code), log + [e];
    assert after[..|log|] == log;
    assert forall code :: Count(after, code) == Count(log, code) + if code == e.code then 1 else 0;
    if pos < |es| {
      assert CountIn(es, e.code) == es[pos].count;
      assert Increment(es[pos].count) == es[pos].count + 1;
      var bumped := es[pos := es[pos].(count := Increment(es[pos].count))];
      forall code ensures CountIn(bumped, code) == Count(after, code) {
        BumpedCount(es, pos, bumped, code);
      }
      BubbleUpSorts(bumped, pos);
    } else {
      PushedRepresents(es, log, e);
    }
  }

  lemma BumpedCount(es: seq<Tallied>, pos: nat, bumped: seq<Tallied>, code: int)
    requires pos < |es| && UniqueCodes(es)
    requires bumped == es[pos := es[pos].(count := Increment(es[pos].count))]
    ensures UniqueCodes(bumped)
    ensures CountIn(bumped, code)
         == if code == es[pos].error.code then Increment(CountIn(es, code)) else CountIn(es, code)
  {
    var k := CodeAt(es, code);
    if k < |es| {
      EntryIs(bumped, k);
    } else {
      assert forall j :: 0 <= j < |bumped| ==> bumped[j].error.code != code;
    }
  }

  lemma {:induction false} PushedRepresents(es: seq<Tallied>, log: seq<RemoteError>, e: RemoteError)
    requires Represents(es, log) && CodeAt(es, e.code) == |es|
    ensures Represents(es + [Tallied(1, e)], log + [e])
  {
    var r, after := es + [Tallied(1, e)], log + [e];
    assert after[..|log|] == log;
    forall code ensures UniqueCodes(r) && CountIn(r, code) == Count(after, code) {
      PushedCount(es, e, code);
      assert CountIn(es, code) == Count(log, code);
    }
  }

  /** While no count wraps the list is the exact tally: unique codes, true counts, most frequent first. */
  lemma {:induction false} TallyAllRepresents(log: seq<RemoteError>)
    requires NoneWraps(log)
    ensures Represents(TallyAll(log), log)
  {
    if log != [] {
      var init, last := log[..|log| - 1], log[|log| - 1];
      assert forall code :: Count(init, code) <= Count(log, code);
      assert Count(log, last.code) == Count(init, last.code) + 1;
      TallyAllRepresents(init);
      TallyErrorKeeps(TallyAll(init), init, last);
      assert init + [last] == log;
    }
  }

  lemma {:induction false} BubbleUpCounts(es: seq<Tallied>, i: nat)
    requires i < |es| && UniqueCodes(es)
    ensures UniqueCodes(BubbleUp(es, i)) && forall code :: CountIn(BubbleUp(es, i), code) == CountIn(es, code)
    decreases i
  {
    if i > 0 && es[i].count > es[i - 1].count {
      SwapKeeps(es, i);
      BubbleUpCounts(es[i := es[i - 1]][i - 1 := es[i]], i - 1);
    }
  }

  /** Whatever was received, each code is listed once, with the last byte of its count. */
  lemma {:induction false} TallyIsModulo(log: seq<RemoteError>)
    ensures UniqueCodes(TallyAll(log))
    ensures forall code :: CountIn(TallyAll(log), code) == Count(log, code) % 256
  {
    if log != [] {
      var init, e := log[..|log| - 1], log[|log| - 1];
      var es := TallyAll(init);
      TallyIsModulo(init);
      var pos := CodeAt(es, e.code);
      forall code ensures CountIn(TallyAll(log), code) == Count(log, code) % 256 && UniqueCodes(TallyAll(log)) {
        NextByte(Count(init, code));
        if pos < |es| {
          var bumped := es[pos := es[pos].(count := Increment(es[pos].count))];
          BumpedCount(es, pos, bumped, code);
          BubbleUpCounts(bumped, pos);
        } else {
          PushedCount(es, e, code);
        }
      }
    }
  }

  lemma {:induction false} PushedCount(es: seq<Tallied>, e: RemoteError, code: int)
    requires UniqueCodes(es) && CodeAt(es, e.code) == |es|
    ensures UniqueCodes(es + [Tallied(1, e)])
    ensures CountIn(es + [Tallied(1, e)], code) == if code == e.code then 1 else CountIn(es, code)
  {
    var r, k := es + [Tallied(1, e)], CodeAt(es, code);
    assert forall i :: 0 <= i < |es| ==> r[i] == es[i];
    assert UniqueCodes(r);
    if k < |es| {
      EntryIs(r, k);
    } else if code == e.code {
      EntryIs(r, |es|);
    } else {
      assert forall j :: 0 <= j < |r| ==> r[j].error.code != code;
    }
  }

  lemma NextByte(n: nat)
    ensures Increment(n % 256) == (n + 1) % 256
  {
  }

  /** Counts of two codes never add up to more than the errors received. */
  lemma {:induction false} TwoCounts(log: seq<RemoteError>, a: int, b: int)
    requires a != b
    ensures Count(log, a) + Count(log, b) <= |log|
  {
    if log != [] {
      TwoCounts(log[..|log| - 1], a, b);
    }
  }

  // === The verdict ===

  function MostCommonError(es: seq<Tallied>): Option<Tallied> {
    if es == [] then None
    else if es[0].error.code == 301 || es[0].error.code == 302 then Some(es[0])
    else None
  }

  function ErrorFor(code: int): PutError { if code == 301 then CasFailed else NotMostRecent }

  /** The early rejection; half of the requests is computed as a byte. */
  function MajorityRejected(requests: nat, es: seq<Tallied>): Option<PutError> {
    var half := (requests / 2 + 1) % 256;
    match MostCommonError(es)
    case Some(t) => if t.count >= half then Some(ErrorFor(t.error.code)) else None
    case None => None
  }

  predicate AnyInflight(tids: seq<nat>, t: Table, now: nat, timeout: nat) {
    exists i :: 0 <= i < |tids| && ContainsTid(t, tids[i], now, timeout)
  }

  datatype Verdict = Pending | Stored | Failed(error: PutError)

  function TickPut(p: PutState, t: Table, now: nat, timeout: nat): Verdict {
    if p.inflight == [] then Pending
    else if !AnyInflight(p.inflight, t, now, timeout) then
      if p.storedAt == 0 then
        match MostCommonError(p.errors)
        case Some(e) => Failed(ErrorFor(e.error.code))
        case None => Failed(Timeout)
      else Stored
    else if p.isMutable && MajorityRejected(|p.inflight|, p.errors).Some? then
      Failed(MajorityRejected(|p.inflight|, p.errors).value)
    else Pending
  }

  /** Strictly more than half of the asked nodes answered with this code. */
  ghost predicate Majority(requests: nat, log: seq<RemoteError>, code: int) { 2 * Count(log, code) > requests }

  /** A tick looks at the tally after every single answer, so the answers before the last rejected nothing. */
  ghost predicate Unrejected(requests: nat, log: seq<RemoteError>) {
    forall n: nat :: n < |log| ==> MajorityRejected(requests, TallyAll(log[..n])) == None
  }

  /** Every verdict that an unfinished query of this size can reach tells whether a majority rejected it. */
  ghost predicate VerdictsRight(requests: nat) {
    forall log: seq<RemoteError> :: |log| < requests && Unrejected(requests, log) ==> VerdictRight(requests, log)
  }

  ghost predicate VerdictRight(requests: nat, log: seq<RemoteError>) {
    var verdict := MajorityRejected(requests, TallyAll(log));
    && (verdict == Some(CasFailed) <==> Majority(requests, log, 301))
    && (verdict == Some(NotMostRecent) <==> Majority(requests, log, 302))
  }

  /** A listed count never exceeds the true one, so no rejection comes too early. */
  lemma {:induction false} RejectedByMajority(requests: nat, log: seq<RemoteError>)
    requires requests <= 509
    ensures var verdict := MajorityRejected(requests, TallyAll(log));
            && (verdict == Some(CasFailed) ==> Majority(requests, log, 301))
            && (verdict == Some(NotMostRecent) ==> Majority(requests, log, 302))
  {
    var es := TallyAll(log);
    TallyIsModulo(log);
    if es != [] {
      EntryIs(es, 0);
      LastByte(Count(log, es[0].error.code));
      assert (requests / 2 + 1) % 256 == requests / 2 + 1;
    }
  }

  lemma LastByte(n: nat)
    ensures n % 256 <= n
  {
  }

  /** A count that gets past `n` was `n` after some answer. */
  lemma {:induction false} ReachedAt(log: seq<RemoteError>, code: int, n: nat) returns (m: nat)
    requires Count(log, code) >= n
    ensures m <= |log| && Count(log[..m], code) == n
  {
    if Count(log, code) == n {
      m := |log|;
      assert log[..m] == log;
    } else {
      m := ReachedAt(log[..|log| - 1], code, n);
      assert log[..|log| - 1][..m] == log[..m];
    }
  }

  /** When a code reaches its majority no count has wrapped, so the code comes first and the query is rejected. */
  lemma {:induction false} JustReached(requests: nat, log: seq<RemoteError>, code: int)
    requires |log| < requests <= 509 && (code == 301 || code == 302) && Count(log, code) == requests / 2 + 1
    ensures MajorityRejected(requests, TallyAll(log)) == Some(ErrorFor(code))
  {
    var es := TallyAll(log);
    forall c ensures Count(log, c) <= 255 && (c != code ==> Count(log, c) < Count(log, code)) {
      if c != code {
        TwoCounts(log, c, code);
      }
    }
    TallyAllRepresents(log);
    assert CountIn(es, code) == Count(log, code);
    EntryIs(es, 0);
    assert CountIn(es, es[0].error.code) == Count(log, es[0].error.code);
    assert (requests / 2 + 1) % 256 == requests / 2 + 1;
  }

  lemma VerdictIsRight(requests: nat, log: seq<RemoteError>)
    requires |log| < requests <= 509 && Unrejected(requests, log)
    ensures VerdictRight(requests, log)
  {
    RejectedByMajority(requests, log);
    if Majority(requests, log, 301) {
      MajorityRejects(requests, log, 301);
    }
    if Majority(requests, log, 302) {
      MajorityRejects(requests, log, 302);
    }
  }

  lemma {:induction false} MajorityRejects(requests: nat, log: seq<RemoteError>, code: int)
    requires |log| < requests <= 509 && Unrejected(requests, log) && (code == 301 || code == 302)
    requires Majority(requests, log, code)
    ensures MajorityRejected(requests, TallyAll(log)) == Some(ErrorFor(code))
  {
    hide MajorityRejected, TallyAll, Count, ErrorFor;
    assert Count(log, code) >= requests / 2 + 1;
    var m := ReachedAt(log, code, requests / 2 + 1);
    JustReached(requests, log[..m], code);
    assert log[..|log|] == log;
  }

  function Repeat(e: RemoteError, n: nat): (log: seq<RemoteError>)
    ensures |log| == n
  {
    if n == 0 then [] else Repeat(e, n - 1) + [e]
  }

  lemma {:induction false} RepeatTally(e: RemoteError, n: nat)
    requires n > 0
    ensures TallyAll(Repeat(e, n)) == [Tallied(n % 256, e)]
    ensures Count(Repeat(e, n), e.code) == n
  {
    if n == 1 {
      assert Repeat(e, 1)[..0] == [];
    } else {
      RepeatTally(e, n - 1);
      RepeatOnce(e, n);
    }
  }

  lemma RepeatOnce(e: RemoteError, n: nat)
    requires n > 1 && TallyAll(Repeat(e, n - 1)) == [Tallied((n - 1) % 256, e)]
    ensures TallyAll(Repeat(e, n)) == [Tallied(n % 256, e)]
    ensures Count(Repeat(e, n), e.code) == Count(Repeat(e, n - 1), e.code) + 1
  {
    OneMore(Repeat(e, n - 1), e);
    TallyOne((n - 1) % 256, e);
    NextByte(n - 1);
    assert Repeat(e, n) == Repeat(e, n - 1) + [e];
  }

  lemma {:induction false} OneMore(log: seq<RemoteError>, e: RemoteError)
    ensures TallyAll(log + [e]) == TallyError(TallyAll(log), e)
    ensures Count(log + [e], e.code) == Count(log, e.code) + 1
  {
    assert (log + [e])[..|log|] == log;
  }

  lemma TallyOne(count: nat, e: RemoteError)
    ensures TallyError([Tallied(count, e)], e) == [Tallied(Increment(count), e)]
  {
    var es := [Tallied(count, e)];
    assert CodeAt(es, e.code) == 0;
    assert es[0 := Tallied(Increment(count), e)] == [Tallied(Increment(count), e)];
  }

  /** A number of equal rejections on which the verdict of a larger query is wrong: the wrapped half, or one. */
  function WrongAt(requests: nat): (n: nat)
    requires requests > 509
    ensures 0 < n <= 255
  {
    var half := (requests / 2 + 1) % 256;
    if half > 0 then half else 1
  }

  lemma {:induction false} RepeatPrefix(e: RemoteError, n: nat, m: nat)
    requires m <= n
    ensures Repeat(e, n)[..m] == Repeat(e, m)
  {
    if m < n {
      RepeatPrefix(e, n - 1, m);
      assert Repeat(e, n)[..m] == Repeat(e, n - 1)[..m];
    }
  }

  lemma {:induction false} RepeatVerdict(requests: nat, n: nat)
    ensures var log := Repeat(RemoteError(301, ""), n);
            && MajorityRejected(requests, TallyAll(log))
               == (if n > 0 && n % 256 >= (requests / 2 + 1) % 256 then Some(CasFailed) else None)
            && Count(log, 301) == n
  {
    if n > 0 {
      RepeatTally(RemoteError(301, ""), n);
    }
  }

  /** Equal rejections that a ticked query really collects one by one, and that are rejected without a majority. */
  lemma VerdictIsWrong(requests: nat)
    requires requests > 509
    ensures var log := Repeat(RemoteError(301, ""), WrongAt(requests));
            && |log| < requests && Unrejected(requests, log)
            && MajorityRejected(requests, TallyAll(log)) == Some(CasFailed) && !Majority(requests, log, 301)
  {
    hide MajorityRejected, TallyAll, Count, Repeat;
    var e, n := RemoteError(301, ""), WrongAt(requests);
    RepeatVerdict(requests, n);
    forall m: nat | m < n ensures MajorityRejected(requests, TallyAll(Repeat(e, n)[..m])) == None {
      RepeatPrefix(e, n, m);
      RepeatVerdict(requests, m);
    }
  }

  /**
   * The early rejection is right in every state that a query can reach exactly when at most 509
   * nodes were asked: from 510 on, half of the requests does not fit in its byte.
   */
  lemma MajorityVerdictExactlyUpTo509(requests: nat)
    ensures VerdictsRight(requests) <==> requests <= 509
  {
    if requests <= 509 {
      forall log: seq<RemoteError> | |log| < requests && Unrejected(requests, log)
        ensures VerdictRight(requests, log)
      {
        VerdictIsRight(requests, log);
      }
    } else {
      VerdictIsWrong(requests);
      assert !VerdictRight(requests, Repeat(RemoteError(301, ""), WrongAt(requests)));
    }
  }

  lemma {:induction false} EmptyTally(log: seq<RemoteError>)
    ensures TallyAll(log) == [] <==> log == []
  {
  }

  // === Whole queries ===

  /** What an accepted reply means for a put. */
  datatype Answer = Acknowledged | Refused(error: RemoteError) | Otherwise

  function AnswerPut(p: PutState, a: Answer): PutState {
    match a
    case Acknowledged => Success(p)
    case Refused(e) => Error(p, e)
    case Otherwise => p
  }

  function AnswerAll(p: PutState, answers: seq<Answer>): PutState {
    if answers == [] then p else AnswerPut(AnswerAll(p, answers[..|answers| - 1]), answers[|answers| - 1])
  }

  function Acks(answers: seq<Answer>): nat {
    if answers == [] then 0
    else Acks(answers[..|answers| - 1]) + if answers[|answers| - 1].Acknowledged? then 1 else 0
  }

  function Refusals(answers: seq<Answer>): seq<RemoteError> {
    if answers == [] then []
    else
      var last := answers[|answers| - 1];
      Refusals(answers[..|answers| - 1]) + if last.Refused? then [last.error] else []
  }

  /** After any answers, a query holds the last byte of the acknowledgements and the tally of the refusals. */
  lemma {:induction false} AnswersAre(p: PutState, answers: seq<Answer>)
    requires p.storedAt == 0 && p.errors == []
    ensures AnswerAll(p, answers) == p.(storedAt := Acks(answers) % 256, errors := TallyAll(Refusals(answers)))
  {
    if answers != [] {
      var init, last := answers[..|answers| - 1], answers[|answers| - 1];
      AnswersAre(p, init);
      NextByte(Acks(init));
      if last.Refused? {
        OneMore(Refusals(init), last.error);
      } else {
        assert Refusals(init) + [] == Refusals(init);
      }
    }
  }

  /**
   * When every request of a query was answered or has expired: stored unless the acknowledgements
   * are a multiple of 256, and otherwise, while no error count wraps, the error that is commonest.
   */
  lemma {:induction false} FinalVerdict(p: PutState, answers: seq<Answer>, t: Table, now: nat, timeout: nat)
    requires Started(p) && p.storedAt == 0 && p.errors == [] && !AnyInflight(p.inflight, t, now, timeout)
    ensures var v, log := TickPut(AnswerAll(p, answers), t, now, timeout), Refusals(answers);
            && (v == Stored <==> Acks(answers) % 256 != 0)
            && v != Pending
            && (NoneWraps(log) ==>
                  && (v == Failed(CasFailed) ==> Commonest(log, 301))
                  && (v == Failed(NotMostRecent) ==> Commonest(log, 302))
                  && (v == Failed(Timeout) && log != [] ==> exists c :: c != 301 && c != 302 && Commonest(log, c)))
  {
    AnswersAre(p, answers);
    var log := Refusals(answers);
    var es := TallyAll(log);
    EmptyTally(log);
    if NoneWraps(log) && es != [] {
      FirstIsCommonest(log);
    }
  }

  /** No code came more often. */
  ghost predicate Commonest(log: seq<RemoteError>, code: int) {
    Count(log, code) > 0 && forall c :: Count(log, c) <= Count(log, code)
  }

  lemma {:induction false} FirstIsCommonest(log: seq<RemoteError>)
    requires NoneWraps(log) && TallyAll(log) != []
    ensures Commonest(log, TallyAll(log)[0].error.code)
  {
    var es := TallyAll(log);
    TallyAllRepresents(log);
    EntryIs(es, 0);
    forall d ensures Count(log, d) <= Count(log, es[0].error.code) {
      assert CountIn(es, d) == Count(log, d);
      assert CountIn(es, es[0].error.code) == Count(log, es[0].error.code);
    }
  }

  // === Starting ===

  /** The addresses of the nodes that gave us a token, which are those a put is sent to. */
  function Holders(nodes: seq<Node>): seq<Addr> {
    if nodes == [] then []
    else
      Holders(nodes[..|nodes| - 1]) + if nodes[|nodes| - 1].token.Some? then [nodes[|nodes| - 1].addr] else []
  }

  function Start(p: PutState, s: Sock, closest: seq<Node>, extra: seq<Node>, now: nat)
    : (PutState, Sock, Option<PutError>)
  {
    if closest == [] then (p, s, Some(NoClosestNodes))
    else
      var (u, tids) := SendAll(s, Holders(closest + extra), now);
      (p.(inflight := p.inflight + tids), u, None)
  }

  lemma {:induction false} HoldersSome(nodes: seq<Node>)
    ensures Holders(nodes) == [] <==> forall n <- nodes :: n.token.None?
  {
    if nodes != [] {
      var init, last := nodes[..|nodes| - 1], nodes[|nodes| - 1];
      HoldersSome(init);
      assert nodes == init + [last];
      assert forall n :: n in nodes <==> n in init || n == last;
    }
  }

  /** A start sends nothing, and leaves the query unstarted, exactly when no node has a token. */
  lemma StartedIffSomeToken(p: PutState, s: Sock, closest: seq<Node>, extra: seq<Node>, now: nat)
    requires !Started(p) && closest != []
    ensures Start(p, s, closest, extra, now).2.None?
    ensures Started(Start(p, s, closest, extra, now).0) <==> exists n <- closest + extra :: n.token.Some?
  {
    HoldersSome(closest + extra);
    SendAllSent(s, Holders(closest + extra), now);
  }

  function AllAcknowledged(n: nat): seq<Answer> { if n == 0 then [] else AllAcknowledged(n - 1) + [Acknowledged] }

  lemma {:induction false} AllAcknowledgedAre(n: nat)
    ensures Acks(AllAcknowledged(n)) == n && Refusals(AllAcknowledged(n)) == []
  {
    if n > 0 {
      AllAcknowledgedAre(n - 1);
      assert AllAcknowledged(n)[..|AllAcknowledged(n)| - 1] == AllAcknowledged(n - 1);
      assert AllAcknowledged(n)[|AllAcknowledged(n)| - 1] == Acknowledged;
    }
  }

  lemma {:induction false} AllHold(nodes: seq<Node>)
    requires forall n <- nodes :: n.token.Some?
    ensures |Holders(nodes)| == |nodes|
  {
    if nodes != [] {
      var init := nodes[..|nodes| - 1];
      assert forall n <- init :: n in nodes;
      AllHold(init);
    }
  }

  /** A put that every asked node stored is reported as failed exactly when their number is a multiple of 256. */
  lemma {:induction false} StoredByAll(isMutable: bool, s: Sock, closest: seq<Node>, extra: seq<Node>, now: nat,
                                       t: Table, later: nat, timeout: nat)
    requires closest != [] && forall n <- closest + extra :: n.token.Some?
    requires !AnyInflight(Start(NewPut(isMutable), s, closest, extra, now).0.inflight, t, later, timeout)
    ensures var p, asked := Start(NewPut(isMutable), s, closest, extra, now).0, |closest + extra|;
            && |p.inflight| == asked
            && TickPut(AnswerAll(p, AllAcknowledged(asked)), t, later, timeout)
               == if asked % 256 == 0 then Failed(Timeout) else Stored
  {
    var asked := |closest + extra|;
    AllHold(closest + extra);
    SendAllSent(s, Holders(closest + extra), now);
    AllAcknowledgedAre(asked);
    AnswersAre(Start(NewPut(isMutable), s, closest, extra, now).0, AllAcknowledged(asked));
  }

  /** The smallest case: 255 closest nodes and one more. */
  lemma StoredAt256NodesButFailed(n: Node, s: Sock, now: nat)
    requires n.token.Some?
    ensures var p := Start(NewPut(false), s, seq(255, _ => n), [n], now).0;
            && |p.inflight| == 256
            && TickPut(AnswerAll(p, AllAcknowledged(256)), map[], now, 2000) == Failed(Timeout)
  {
    StoredByAll(false, s, seq(255, _ => n), [n], now, map[], now, 2000);
  }

  // === The query as an object ===

  class PutQuery {
    const isMutable: bool
    const extraNodes: seq<Node>
    var storedAt: nat
    var inflightRequests: seq<nat>
    var errors: seq<Tallied>

    ghost function State(): PutState
      reads this
    {
      PutState(inflightRequests, isMutable, storedAt, errors)
    }

    constructor (isMutable: bool, extraNodes: seq<Node>)
      ensures State() == NewPut(isMutable) && this.extraNodes == extraNodes
    {
      this.isMutable, this.extraNodes := isMutable, extraNodes;
      storedAt, inflightRequests, errors := 0, [], [];
    }

    /** The source panics on a second start and on more than 255 closest nodes. */
    method StartAt(socket: KrpcSocket, closest: seq<Node>, now: nat) returns (error: Option<PutError>)
      requires socket.Valid() && inflightRequests == [] && |closest| <= 255
      modifies this, socket`nextTid, socket`issued, socket.inflightRequests
      ensures socket.Valid()
      ensures (State(), socket.State(), error) == Start(old(State()), old(socket.State()), closest, extraNodes, now)
    {
      if closest == [] {
        return Some(NoClosestNodes);
      }
      ghost var p, s := State(), socket.State();
      var nodes := closest + extraNodes;
      for i := 0 to |nodes|
        invariant socket.Valid() && storedAt == p.storedAt && errors == p.errors
        invariant (socket.State(), inflightRequests) == SendAll(s, Holders(nodes[..i]), now)
      {
        HoldersStep(nodes, i);
        if nodes[i].token.Some? {
          var tid := socket.Request(nodes[i].addr, now);
          SendAllStep(s, Holders(nodes[..i]), nodes[i].addr, now);
          inflightRequests := inflightRequests + [tid];
        }
      }
      assert nodes[..|nodes|] == nodes;
      assert [] + inflightRequests == inflightRequests;
      return None;
    }

    method Succeed()
      modifies this`storedAt
      ensures State() == Success(old(State()))
    {
      storedAt := Increment(storedAt);
    }

    /** Counts an error in place and moves it forward by swaps while it outnumbers its neighbour. */
    method RecordError(e: RemoteError)
      modifies this`errors
      ensures State() == Error(old(State()), e)
    {
      var pos := 0;
      while pos < |errors| && errors[pos].error.code != e.code
        invariant pos <= |errors| && forall k :: 0 <= k < pos ==> errors[k].error.code != e.code
      {
        pos := pos + 1;
      }
      if pos == |errors| {
        errors := errors + [Tallied(1, e)];
        return;
      }
      errors := errors[pos := errors[pos].(count := Increment(errors[pos].count))];
      ghost var bumped := errors;
      var i := pos;
      while i > 0 && errors[i].count > errors[i - 1].count
        invariant 0 <= i < |errors| && |errors| == |bumped|
        invariant BubbleUp(errors, i) == BubbleUp(bumped, pos)
      {
        errors := errors[i := errors[i - 1]][i - 1 := errors[i]];
        i := i - 1;
      }
    }

    /** What an accepted reply does to the query that waits for it. */
    method Answered(a: Answer)
      modifies this`storedAt, this`errors
      ensures State() == AnswerPut(old(State()), a)
    {
      match a {
        case Acknowledged => Succeed();
        case Refused(e) => RecordError(e);
        case Otherwise =>
      }
    }

    method Tick(socket: KrpcSocket, now: nat) returns (verdict: Verdict)
      ensures verdict == TickPut(State(), socket.inflightRequests.requests, now, socket.inflightRequests.timeout)
    {
      if inflightRequests == [] {
        return Pending;
      }
      var i := 0;
      while i < |inflightRequests| && !socket.inflightRequests.Contains(inflightRequests[i], now)
        invariant i <= |inflightRequests|
        invariant forall k :: 0 <= k < i ==> !socket.inflightRequests.Contains(inflightRequests[k], now)
      {
        i := i + 1;
      }
      if i == |inflightRequests| {
        if storedAt > 0 {
          return Stored;
        }
        var common := MostCommonError(errors);
        return if common.Some? then Failed(ErrorFor(common.value.error.code)) else Failed(Timeout);
      }
      if isMutable {
        var rejected := MajorityRejected(|inflightRequests|, errors);
        if rejected.Some? {
          return Failed(rejected.value);
        }
      }
      return Pending;
    }
  }

  lemma HoldersStep(nodes: seq<Node>, i: nat)
    requires i < |nodes|
    ensures Holders(nodes[..i + 1]) ==
            if nodes[i].token.Some? then Holders(nodes[..i]) + [nodes[i].addr] else Holders(nodes[..i])
  {
    assert nodes[..i + 1][..i] == nodes[..i];
  }

  lemma {:induction false} SendAllStep(s: Sock, tos: seq<Addr>, to: Addr, now: nat)
    ensures var (t, tids) := SendAll(s, tos, now);
            var (u, tid) := Send(t, to, now);
            SendAll(s, tos + [to], now) == (u, tids + [tid])
  {
    assert (tos + [to])[..|tos|] == tos;
  }
}
