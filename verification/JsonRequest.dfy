/**
 * The retry loop, and what the JSON clients send again (`integrations/retry.ts`,
 * `integrations/_json-request.ts`). Delays and answers are any the environment gives; sleeping takes
 * exactly as long as asked, and an attempt no longer than it is allowed.
 */
module JsonRequest {
  import opened Wrappers

  datatype Policy = Policy(maxAttempts: int, totalBudgetMs: int)

  /** What one request came to: `uncertain` when the server may have acted on it although it failed. */
  datatype Outcome = Outcome(ok: bool, status: Option<nat>, retryable: bool, uncertain: bool)

  /** What comes back: a status, perhaps with a body that cannot be read, a redirect that the browser hides, or nothing. */
  datatype Answer = Status(status: nat, readable: bool) | Opaque | Lost

  /** One request: what came back, and whether the server acted on it. */
  datatype Exchange = Exchange(answer: Answer, acted: bool)

  predicate IsSuccess(status: nat) {
    200 <= status < 300
  }

  /**
   * An honest server acts on a request it accepts, and not on one it refuses (4xx) or redirects; but a
   * 303 points at another resource whether it acted or not (section 15.4.4 of RFC 9110), and a hidden
   * redirect may be one.
   */
  predicate IsHonest(e: Exchange) {
    match e.answer
    case Lost => true
    case Opaque => true
    case Status(status, _) =>
      status >= 200 && (IsSuccess(status) ==> e.acted) && (300 <= status < 500 && status != 303 ==> !e.acted)
  }

  ghost predicate AreHonest(exchanges: seq<Exchange>) {
    forall i :: 0 <= i < |exchanges| ==> IsHonest(exchanges[i])
  }

  /** How many of the requests the server acted on. */
  function Acted(exchanges: seq<Exchange>): nat {
    if exchanges == [] then 0
    else Acted(exchanges[..|exchanges| - 1]) + if exchanges[|exchanges| - 1].acted then 1 else 0
  }

  /** `sendOnce`: how an answer is read. */
  function Read(answer: Answer, idempotent: bool, readBody: bool): Outcome {
    match answer
    case Lost => Outcome(false, None, idempotent, true)
    case Opaque => Outcome(false, Some(0), false, false)
    case Status(status, readable) =>
      if 300 <= status < 400 then Outcome(false, Some(status), false, false)
      else if !IsSuccess(status) then
        Outcome(false, Some(status), status == 429 || (idempotent && status >= 500), status >= 500)
      else if readBody && !readable then Outcome(false, None, false, true)
      else Outcome(true, Some(status), false, false)
  }

  /** The answers after which a request may be sent again: for one that is not idempotent, only a 429. */
  predicate AsksToRepeat(answer: Answer, idempotent: bool) {
    match answer
    case Lost => idempotent
    case Opaque => false
    case Status(status, _) => status == 429 || (idempotent && status >= 500)
  }

  /** Every answer but the last asked for the request to be sent again. */
  ghost predicate IsRunOf(exchanges: seq<Exchange>, idempotent: bool) {
    && exchanges != [] && AreHonest(exchanges)
    && forall i :: 0 <= i < |exchanges| - 1 ==> AsksToRepeat(exchanges[i].answer, idempotent)
  }

  /**
   * What an answer is reported as: success for a 2xx whose body can be read if it must be; to be sent
   * again when the answer asks for it; uncertain when the server may have acted.
   */
  predicate IsReadAs(outcome: Outcome, answer: Answer, idempotent: bool, readBody: bool) {
    var unread := answer.Status? && IsSuccess(answer.status) && readBody && !answer.readable;
    && (outcome.ok <==> answer.Status? && IsSuccess(answer.status) && !unread)
    && (outcome.retryable <==> AsksToRepeat(answer, idempotent))
    && (outcome.uncertain <==> answer.Lost? || unread || (answer.Status? && answer.status >= 500))
    && outcome.status == if answer.Lost? || unread then None else if answer.Opaque? then Some(0) else Some(answer.status)
  }

  // ---- When an outcome is to be believed

  ghost predicate SameAnswers(a: seq<Exchange>, b: seq<Exchange>) {
    |a| == |b| && forall i :: 0 <= i < |a| ==> a[i].answer == b[i].answer
  }

  /** Every honest server that gave these answers acted on exactly `n` of the requests. */
  ghost predicate ProvesActed(exchanges: seq<Exchange>, n: nat) {
    forall other: seq<Exchange> :: SameAnswers(exchanges, other) && AreHonest(other) ==> Acted(other) == n
  }

  /** A redirect that may stand for a request the server acted on. */
  predicate IsUnsureRedirect(answer: Answer) {
    answer.Opaque? || (answer.Status? && answer.status == 303)
  }

  lemma {:induction false} NothingActedOn(exchanges: seq<Exchange>)
    requires AreHonest(exchanges)
    requires forall i :: 0 <= i < |exchanges| ==> AsksToRepeat(exchanges[i].answer, false)
    ensures Acted(exchanges) == 0
  {
    if exchanges != [] {
      assert IsHonest(exchanges[|exchanges| - 1]);
      NothingActedOn(exchanges[..|exchanges| - 1]);
    }
  }

  /** Of the requests of a run that are not idempotent only the last can have been acted on. */
  lemma {:induction false} OnlyTheLastActs(exchanges: seq<Exchange>)
    requires IsRunOf(exchanges, false)
    ensures Acted(exchanges) == if exchanges[|exchanges| - 1].acted then 1 else 0
  {
    NothingActedOn(exchanges[..|exchanges| - 1]);
  }

  /**
   * For a request that is not idempotent: success proves that the server acted exactly once; a failure
   * proves that it did not act exactly when it is not called uncertain and no redirect is unsure.
   */
  lemma {:induction false} OutcomeProves(exchanges: seq<Exchange>, readBody: bool)
    requires IsRunOf(exchanges, false)
    ensures var last := exchanges[|exchanges| - 1].answer;
      forall outcome :: IsReadAs(outcome, last, false, readBody) ==>
      && (outcome.ok ==> ProvesActed(exchanges, 1))
      && (!outcome.ok ==> (ProvesActed(exchanges, 0) <==> !outcome.uncertain && !IsUnsureRedirect(last)))
  {
    var last := exchanges[|exchanges| - 1].answer;
    forall other: seq<Exchange> | SameAnswers(exchanges, other) && AreHonest(other)
      ensures Acted(other) == if other[|other| - 1].acted then 1 else 0
      ensures IsHonest(other[|other| - 1])
    {
      OnlyTheLastActs(other);
    }
    var acting := exchanges[|exchanges| - 1 := Exchange(last, true)];
    if IsHonest(Exchange(last, true)) {
      assert SameAnswers(exchanges, acting) && AreHonest(acting);
      OnlyTheLastActs(acting);
    }
  }

  /** A request that is carried out and answered with a 303 is reported as one that certainly was not. */
  lemma {:induction false} SeeOtherHidesTheAction()
    ensures var exchanges := [Exchange(Status(303, true), true)];
      && IsRunOf(exchanges, false) && Acted(exchanges) == 1
      && Read(exchanges[0].answer, false, true) == Outcome(false, Some(303), false, false)
  {
    OnlyTheLastActs([Exchange(Status(303, true), true)]);
  }

  function Max(a: int, b: int): int {
    if a >= b then a else b
  }

  class Environment {
    /** The clock, in milliseconds. */
    var now: int
    ghost var trace: seq<Exchange>
    /** The waits that were asked for. */
    ghost var backoffs: seq<nat>

    constructor ()
      ensures trace == [] && backoffs == []
    {
      now, trace, backoffs := *, [], [];
    }

    /** One request, given up after `remaining` milliseconds. */
    method Fetch(remaining: int) returns (answer: Answer, ghost acted: bool)
      requires remaining >= 0
      modifies this`now, this`trace
      ensures old(now) <= now <= old(now) + remaining
      ensures IsHonest(Exchange(answer, acted)) && trace == old(trace) + [Exchange(answer, acted)]
    {
      var took: int, served: bool := *, *;
      answer := *;
      now := if 0 <= took <= remaining then now + took else now + remaining;
      if !IsHonest(Exchange(answer, served)) {
        answer := Lost;
      }
      acted := served;
      trace := trace + [Exchange(answer, acted)];
    }

    method Sleep(delay: nat)
      modifies this`now
      ensures now == old(now) + delay
    {
      now := now + delay;
    }

    method Backoff() returns (delay: nat)
      modifies this`backoffs
      ensures backoffs == old(backoffs) + [delay]
    {
      var any: int := *;
      delay := if any >= 0 then any else 0;
      backoffs := backoffs + [delay];
    }
  }

  /** The run as it ended. */
  datatype Run = Run(attempts: nat, waitedMs: nat, delays: seq<nat>, outcome: Outcome)

  function Sum(delays: seq<nat>): nat {
    if delays == [] then 0 else Sum(delays[..|delays| - 1]) + delays[|delays| - 1]
  }

  lemma {:induction false} SumStep(delays: seq<nat>, delay: nat)
    ensures Sum(delays + [delay]) == Sum(delays) + delay
  {
    assert (delays + [delay])[..|delays|] == delays;
  }

  /**
   * `sendJson` under `runWithRetry`: attempts and time stay within the policy, the outcome is that of
   * the last answer, and every answer before it asked for a repeat: for a request that is not
   * idempotent each was a 429, so a server acts on it at most once. It gives up on an answer that
   * asks for a repeat only after the last attempt, or when the next wait does not fit the budget.
   */
  method SendJson(env: Environment, policy: Policy, idempotent: bool, readBody: bool)
    returns (run: Run, ghost exchanges: seq<Exchange>, ghost late: seq<nat>)
    modifies env
    ensures 1 <= run.attempts <= Max(policy.maxAttempts, 1)
    ensures env.trace == old(env.trace) + exchanges && |exchanges| == run.attempts
    ensures |run.delays| == run.attempts - 1 && run.waitedMs == Sum(run.delays)
    ensures old(env.now) <= env.now <= old(env.now) + Max(policy.totalBudgetMs, 0)
    ensures IsRunOf(exchanges, idempotent)
    ensures IsReadAs(run.outcome, exchanges[|exchanges| - 1].answer, idempotent, readBody)
    ensures !idempotent ==> Acted(exchanges) <= 1
    ensures env.backoffs == old(env.backoffs) + run.delays + late
    ensures late != [] <==>
      AsksToRepeat(exchanges[|exchanges| - 1].answer, idempotent) && run.attempts < Max(policy.maxAttempts, 1)
    ensures late != [] ==> |late| == 1 && env.now - old(env.now) + late[0] > policy.totalBudgetMs
  {
    hide Sum, Acted;
    exchanges, late := [], [];
    var totalAttempts := Max(policy.maxAttempts, 1);
    var startedAt := env.now;
    var attempts: nat, waitedMs: nat := 0, 0;
    var delays: seq<nat> := [];
    assert Sum(delays) == 0 by {
      NothingSummed();
    }
    var last := Outcome(false, None, true, false);
    var index := 1;
    while index <= totalAttempts
      invariant 1 <= index <= totalAttempts && attempts == index - 1 == |delays|
      invariant waitedMs == Sum(delays) && startedAt == old(env.now)
      invariant env.trace == old(env.trace) + exchanges && |exchanges| == attempts && AreHonest(exchanges)
      invariant env.backoffs == old(env.backoffs) + delays && late == []
      invariant forall i :: 0 <= i < attempts ==> AsksToRepeat(exchanges[i].answer, idempotent)
      invariant startedAt <= env.now <= startedAt + Max(policy.totalBudgetMs, 0)
      decreases totalAttempts - index
    {
      attempts := index;
      var remaining := Max(policy.totalBudgetMs - (env.now - startedAt), 0);
      var answer;
      ghost var acted;
      answer, acted := env.Fetch(remaining);
      exchanges := exchanges + [Exchange(answer, acted)];
      last := Read(answer, idempotent, readBody);
      if last.ok || !last.retryable || index == totalAttempts {
        break;
      }
      var delay := env.Backoff();
      if env.now - startedAt + delay > policy.totalBudgetMs {
        late := [delay];
        break;
      }
      SumStep(delays, delay);
      delays := delays + [delay];
      waitedMs := waitedMs + delay;
      env.Sleep(delay);
      index := index + 1;
    }
    run := Run(attempts, waitedMs, delays, last);
    if !idempotent {
      OnlyTheLastActs(exchanges);
    }
  }

  lemma {:induction false} NothingSummed()
    ensures Sum([]) == 0
  {
  }
}
