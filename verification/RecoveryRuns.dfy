// The retry budget over runs of recovery ticks: every tick stores the decision
// it returned and no tick comes before the stored hold has passed.
module RecoveryRuns {
  import opened Prelude
  import opened RecoveryDecision

  datatype Policy = Policy(
    maxValidationAttempts: nat, validationMinElapsedMs: int, waitingCeilingMs: int, transportCeilingMs: int,
    backoffStartMs: nat, backoffCapMs: nat)

  datatype Counters = Counters(waiting: nat, transport: nat, validation: nat)

  datatype FirstFailures = FirstFailures(waiting: Option<int>, transport: Option<int>, validation: Option<int>)

  datatype BudgetDecision =
    | Hold(attempt: nat, firstFailedAt: int, elapsedMs: nat, nextEligibleAt: Option<int>)
    | GiveUp(attempt: nat, firstFailedAt: int, elapsedMs: nat)

  function Count(counters: Counters, c: RetryClass): nat {
    match c case Waiting => counters.waiting case Transport => counters.transport case Validation => counters.validation
  }

  function First(failures: FirstFailures, c: RetryClass): Option<int> {
    match c case Waiting => failures.waiting case Transport => failures.transport case Validation => failures.validation
  }

  function Ceiling(policy: Policy, c: RetryClass): int {
    if c == Waiting then policy.waitingCeilingMs else policy.transportCeilingMs
  }

  function Min(a: int, b: int): int { if a <= b then a else b }

  function Max(a: int, b: int): int { if a <= b then b else a }

  // `start` times two to the power `n`.
  function Doubled(start: nat, n: nat): nat {
    if n == 0 then start else 2 * Doubled(start, n - 1)
  }

  // Doubling from the first hold, capped.
  function RetryBackoffMs(attempt: nat, policy: Policy): nat {
    Min(policy.backoffCapMs, Doubled(policy.backoffStartMs, Max(0, attempt as int - 1)))
  }

  function ClassifyRetryBudget(policy: Policy, c: RetryClass, now: int, counters: Counters, failures: FirstFailures)
    : BudgetDecision
  {
    var attempt := Count(counters, c) + 1;
    var first := if First(failures, c).Some? then First(failures, c).value else now;
    var elapsed := Max(0, now - first);
    var spent := if c == Validation then attempt >= policy.maxValidationAttempts
        && elapsed >= policy.validationMinElapsedMs
                 else elapsed >= Ceiling(policy, c);
    if spent then GiveUp(attempt, first, elapsed)
    else Hold(attempt, first, elapsed, if c == Validation then None else Some(now + RetryBackoffMs(attempt, policy)))
  }

  /* ----------------------------- stored attempt ------------------------- */

  datatype Attempt = Attempt(
    validating: bool, counters: Counters, failures: FirstFailures, nextEligibleAt: Option<int>,
        lastClass: Option<RetryClass>)

  const FRESH_ATTEMPT := Attempt(true, Counters(0, 0, 0), FirstFailures(None, None, None), None, None)

  function SetCount(counters: Counters, c: RetryClass, n: nat): Counters {
    match c
    case Waiting => counters.(waiting := n)
    case Transport => counters.(transport := n)
    case Validation => counters.(validation := n)
  }

  function SetFirst(failures: FirstFailures, c: RetryClass, at: int): FirstFailures {
    match c
    case Waiting => failures.(waiting := Some(at))
    case Transport => failures.(transport := Some(at))
    case Validation => failures.(validation := Some(at))
  }

  // Writes a decision back to the attempt: the crossing failure is counted too.
  function Stored(attempt: Attempt, c: RetryClass, decision: BudgetDecision): Attempt {
    var counters := SetCount(attempt.counters, c, decision.attempt);
    var failures := SetFirst(attempt.failures, c, decision.firstFailedAt);
    match decision
    case Hold(_, _, _, next) => Attempt(true, counters, failures, next, Some(c))
    case GiveUp(_, _, _) => Attempt(false, counters, failures, None, Some(c))
  }

  // The stored hold, as the worker asks about it before it reads anything.
  predicate Deferred(attempt: Attempt, now: int) {
    attempt.validating && attempt.nextEligibleAt.Some? && attempt.nextEligibleAt.value > now
  }

  // A run's hold is the one the worker reads from the stored attempt.
  lemma DeferredIsRecoveryDeferred(attempt: Attempt, now: int, facts: Facts)
    requires facts.existingAttempt
        == Some(AttemptFacts(if attempt.validating then "VALIDATING" else "INELIGIBLE", false, attempt.nextEligibleAt))
    ensures RecoveryDeferred(facts, now) == Deferred(attempt, now)
  {
    assert "INELIGIBLE" != "VALIDATING" by { assert |"INELIGIBLE"| == 10 && "INELIGIBLE"[0] == 'I'; }
  }

  datatype Tick = Tick(now: int, retryClass: RetryClass)

  function Ticked(policy: Policy, attempt: Attempt, tick: Tick): Attempt {
    Stored(attempt, tick.retryClass,
           ClassifyRetryBudget(policy, tick.retryClass, tick.now, attempt.counters, attempt.failures))
  }

  // The attempt after the ticks, if each was due when it came.
  function Run(policy: Policy, ticks: seq<Tick>): Option<Attempt> {
    if ticks == [] then Some(FRESH_ATTEMPT)
    else
      var before := Run(policy, ticks[..|ticks| - 1]);
      var tick := ticks[|ticks| - 1];
      if before.Some? && before.value.validating && !Deferred(before.value, tick.now)
      then Some(Ticked(policy, before.value, tick)) else None
  }

  predicate ClockMonotone(ticks: seq<Tick>) {
    forall i, j | 0 <= i < j < |ticks| :: ticks[i].now <= ticks[j].now
  }

  /* ------------------------------ accounting ---------------------------- */

  // A tick touches only its own class: its count goes up by one, and its first
  // failure, once set, stays.
  lemma TickAccounts(policy: Policy, attempt: Attempt, tick: Tick, c: RetryClass)
    ensures var after := Ticked(policy, attempt, tick);
            && Count(after.counters, c) == Count(attempt.counters, c) + (if c == tick.retryClass then 1 else 0)
            && (c != tick.retryClass || First(attempt.failures, c).Some?
               ==> First(after.failures, c) == First(attempt.failures, c))
            && (c == tick.retryClass && First(attempt.failures, c).None? ==> First(after.failures, c) == Some(tick.now))
  {
  }

  // A chain that is busy at either read, and nothing worse, only delays its
  // recovery: the pass waits, which costs the other classes nothing, and the
  // recovery goes on exactly while the waiting ceiling is not reached.
  lemma BusyChainOnlyDelays(policy: Policy, attempt: Attempt, now: int, e: Evidence, before: Facts,
                            remote: Candidate -> FreshFacts, after: Facts, recoveryCount: int, maxRecoveries: int)
    requires !ClassifyCandidate(e, before).FactsOmitted? && !ClassifyCandidate(e, after).FactsOmitted?
    requires attempt.validating
    requires OnlyBusy(e, before) || (ClassifyCandidate(e, before).Inspect? && OnlyBusy(e, after)
             && ClassifyFresh(remote(ClassifyCandidate(e, before).candidate)).Queue?)
    ensures Classify(e, before, remote, after, true, recoveryCount, maxRecoveries) == Retry(Waiting)
    ensures var ticked := Ticked(policy, attempt, Tick(now, Waiting));
            && ticked.counters == attempt.counters.(waiting := attempt.counters.waiting + 1)
            && (attempt.failures.waiting.Some? ==> ticked.failures == attempt.failures)
            && (ticked.validating <==>
                (if attempt.failures.waiting.Some? then Max(0, now - attempt.failures.waiting.value) else 0)
                < policy.waitingCeilingMs)
  {
    if OnlyBusy(e, before) { ActiveChainWaits(e, before); } else { ActiveChainWaits(e, after); }
  }

  function OfClass(ticks: seq<Tick>, c: RetryClass): seq<Tick> {
    if ticks == [] then []
    else OfClass(ticks[..|ticks| - 1], c) + (if ticks[|ticks| - 1].retryClass == c then [ticks[|ticks| - 1]] else [])
  }

  // What an attempt stores is exactly what happened: each class's count is the
  // number of its own ticks, and its first failure is the time of the first.
  lemma {:induction false} RunAccounts(policy: Policy, ticks: seq<Tick>, c: RetryClass)
    requires Run(policy, ticks).Some?
    ensures Count(Run(policy, ticks).value.counters, c) == |OfClass(ticks, c)|
    ensures First(Run(policy, ticks).value.failures, c)
            == if OfClass(ticks, c) == [] then None else Some(OfClass(ticks, c)[0].now)
  {
    if ticks != [] {
      RunAccounts(policy, ticks[..|ticks| - 1], c);
      TickAccounts(policy, Run(policy, ticks[..|ticks| - 1]).value, ticks[|ticks| - 1], c);
    }
  }

  /* ------------------------------ the bound ----------------------------- */

  // The time the first `n` holds of a class take together.
  function TotalHold(policy: Policy, n: nat): nat {
    if n == 0 then 0 else TotalHold(policy, n - 1) + RetryBackoffMs(n, policy)
  }

  function Due(attempt: Attempt, clock: int): int {
    if attempt.nextEligibleAt.Some? then Max(clock, attempt.nextEligibleAt.value) else clock
  }

  // Before a class can retry again, all its holds so far have passed since its
  // first failure, and the ones before the last fit under its ceiling.
  predicate Paced(policy: Policy, attempt: Attempt, clock: int, c: RetryClass) {
    var n := Count(attempt.counters, c);
    n > 0 ==>
      && First(attempt.failures, c).Some?
      && First(attempt.failures, c).value + TotalHold(policy, n) <= Due(attempt, clock)
      && TotalHold(policy, n - 1) < Ceiling(policy, c)
  }

  lemma PacedOwnTick(policy: Policy, attempt: Attempt, clock: int, tick: Tick)
    requires tick.retryClass != Validation && attempt.validating && !Deferred(attempt, tick.now) && clock <= tick.now
    requires Paced(policy, attempt, clock, tick.retryClass) && Ticked(policy, attempt, tick).validating
    requires Count(attempt.counters, tick.retryClass) == 0 ==> First(attempt.failures, tick.retryClass).None?
    ensures Paced(policy, Ticked(policy, attempt, tick), tick.now, tick.retryClass)
  {
    var c, after := tick.retryClass, Ticked(policy, attempt, tick);
    var n := Count(attempt.counters, c);
    assert Due(attempt, clock) <= tick.now;
    assert after.nextEligibleAt == Some(tick.now + RetryBackoffMs(n + 1, policy));
    assert TotalHold(policy, n + 1) == TotalHold(policy, n) + RetryBackoffMs(n + 1, policy);
    TickAccounts(policy, attempt, tick, c);
  }

  lemma PacedTick(policy: Policy, attempt: Attempt, clock: int, tick: Tick, c: RetryClass)
    requires c != Validation && attempt.validating && !Deferred(attempt, tick.now) && clock <= tick.now
    requires Paced(policy, attempt, clock, c) && Ticked(policy, attempt, tick).validating
    requires Count(attempt.counters, c) == 0 ==> First(attempt.failures, c).None?
    ensures Paced(policy, Ticked(policy, attempt, tick), tick.now, c)
  {
    if tick.retryClass == c {
      PacedOwnTick(policy, attempt, clock, tick);
    } else {
      TickAccounts(policy, attempt, tick, c);
      assert Due(attempt, clock) <= tick.now <= Due(Ticked(policy, attempt, tick), tick.now);
    }
  }

  lemma {:induction false} RunPaced(policy: Policy, ticks: seq<Tick>, c: RetryClass)
    requires c != Validation && ticks != [] && ClockMonotone(ticks)
    requires Run(policy, ticks).Some? && Run(policy, ticks).value.validating
    ensures Paced(policy, Run(policy, ticks).value, ticks[|ticks| - 1].now, c)
  {
    var n := |ticks| - 1;
    var before := Run(policy, ticks[..n]).value;
    RunAccounts(policy, ticks[..n], c);
    if n > 0 {
      assert ticks[..n][n - 1] == ticks[n - 1];
      RunPaced(policy, ticks[..n], c);
      PacedTick(policy, before, ticks[n - 1].now, ticks[n], c);
    } else {
      PacedTick(policy, before, ticks[n].now, ticks[n], c);
    }
  }

  lemma {:induction false} DoubledGrows(start: nat, a: nat, b: nat)
    requires a <= b
    ensures Doubled(start, a) <= Doubled(start, b)
  {
    if a < b { DoubledGrows(start, a, b - 1); }
  }

  function Times(k: nat, cap: nat): (product: nat)
    ensures product == k * cap
  {
    if k == 0 then 0 else Times(k - 1, cap) + cap
  }

  // From exponent `m` on, every hold is the cap.
  lemma HoldsReachCap(policy: Policy, m: nat, attempt: nat)
    requires Doubled(policy.backoffStartMs, m) >= policy.backoffCapMs && attempt > m
    ensures RetryBackoffMs(attempt, policy) == policy.backoffCapMs
  {
    DoubledGrows(policy.backoffStartMs, m, attempt - 1);
  }

  lemma {:induction false} TotalReachesCap(policy: Policy, m: nat, n: nat)
    requires Doubled(policy.backoffStartMs, m) >= policy.backoffCapMs && n >= m
    ensures TotalHold(policy, n) >= Times(n - m, policy.backoffCapMs)
  {
    if n > m {
      TotalReachesCap(policy, m, n - 1);
      HoldsReachCap(policy, m, n);
    }
  }

  lemma {:induction false} TimesGrows(a: nat, b: nat, cap: nat)
    requires a <= b
    ensures Times(a, cap) <= Times(b, cap)
  {
    if a < b { TimesGrows(a, b - 1, cap); }
  }

  lemma Divided(k: nat, cap: nat, ceiling: nat)
    requires cap > 0 && Times(k, cap) < ceiling
    ensures k <= ceiling / cap
  {
    var q := ceiling / cap;
    assert ceiling < q * cap + cap;
    assert Times(q + 1, cap) == Times(q, cap) + cap;
    if q + 1 <= k { TimesGrows(q + 1, k, cap); }
  }

  lemma QuotientNat(ceiling: nat, cap: nat)
    requires cap > 0
    ensures ceiling / cap >= 0
  {
  }

  lemma HoldsBoundCount(policy: Policy, n: nat, m: nat, ceiling: nat)
    requires n > 0 && TotalHold(policy, n - 1) < ceiling
    requires policy.backoffCapMs > 0 && Doubled(policy.backoffStartMs, m) >= policy.backoffCapMs
    ensures n <= m + 1 + ceiling / policy.backoffCapMs
  {
    QuotientNat(ceiling, policy.backoffCapMs);
    if n > m + 1 {
      TotalReachesCap(policy, m, n - 1);
      Divided(n - 1 - m, policy.backoffCapMs, ceiling);
    }
  }

  lemma HoldsFit(policy: Policy, ticks: seq<Tick>, c: RetryClass)
    requires c != Validation && ClockMonotone(ticks)
    requires Run(policy, ticks).Some? && Run(policy, ticks).value.validating
    ensures var n := Count(Run(policy, ticks).value.counters, c);
            n > 0 ==> TotalHold(policy, n - 1) < Ceiling(policy, c)
  {
    if ticks != [] { RunPaced(policy, ticks, c); }
  }

  // The holds keep a run's clock from going back, except after a validation tick.
  predicate SteadyAfterValidation(ticks: seq<Tick>) {
    forall i | 0 < i < |ticks| && ticks[i - 1].retryClass == Validation :: ticks[i - 1].now <= ticks[i].now
  }

  lemma {:induction false} HeldForward(policy: Policy, ticks: seq<Tick>, i: nat)
    requires Run(policy, ticks).Some? && 0 < i < |ticks| && ticks[i - 1].retryClass != Validation
    ensures ticks[i - 1].now <= ticks[i].now
  {
    var before := ticks[..|ticks| - 1];
    if i < |ticks| - 1 {
      HeldForward(policy, before, i);
    } else {
      assert before[|before| - 1] == ticks[i - 1];
      assert Run(policy, before).value.nextEligibleAt.Some?;
    }
  }

  lemma {:induction false} StepsAddUp(ticks: seq<Tick>, i: nat, j: nat)
    requires i <= j < |ticks| && forall k | 0 < k < |ticks| :: ticks[k - 1].now <= ticks[k].now
    ensures ticks[i].now <= ticks[j].now
  {
    if i < j {
      StepsAddUp(ticks, i, j - 1);
      assert ticks[j - 1].now <= ticks[j].now;
    }
  }

  lemma SteadyIff(policy: Policy, ticks: seq<Tick>)
    requires Run(policy, ticks).Some?
    ensures ClockMonotone(ticks) <==> SteadyAfterValidation(ticks)
  {
    if SteadyAfterValidation(ticks) {
      forall k | 0 < k < |ticks|
        ensures ticks[k - 1].now <= ticks[k].now
      {
        if ticks[k - 1].retryClass != Validation { HeldForward(policy, ticks, k); }
      }
      forall i, j | 0 <= i < j < |ticks|
        ensures ticks[i].now <= ticks[j].now
      {
        StepsAddUp(ticks, i, j);
      }
    }
  }

  // However the classes interleave, a class that is not yet given up on has
  // retried at most m + 1 + ceiling / cap times, unless the clock steps back
  // directly after a validation tick.
  lemma RetriesBounded(policy: Policy, ticks: seq<Tick>, c: RetryClass, m: nat)
    requires c != Validation && SteadyAfterValidation(ticks)
    requires Run(policy, ticks).Some? && Run(policy, ticks).value.validating
    requires policy.backoffCapMs > 0 && Doubled(policy.backoffStartMs, m) >= policy.backoffCapMs
    requires Ceiling(policy, c) >= 0
    ensures Count(Run(policy, ticks).value.counters, c) <= m + 1 + Ceiling(policy, c) / policy.backoffCapMs
  {
    SteadyIff(policy, ticks);
    HoldsFit(policy, ticks, c);
    if Count(Run(policy, ticks).value.counters, c) > 0 {
      HoldsBoundCount(policy, Count(Run(policy, ticks).value.counters, c), m, Ceiling(policy, c));
    }
  }

  /* ------------------------- the bound is the exact one ------------------ */

  // Ticking as early as the hold allows.
  function Fastest(policy: Policy, c: RetryClass, n: nat): seq<Tick> {
    if n == 0 then [] else Fastest(policy, c, n - 1) + [Tick(TotalHold(policy, n - 1), c)]
  }

  lemma {:induction false} FastestShape(policy: Policy, c: RetryClass, n: nat)
    ensures |Fastest(policy, c, n)| == n
    ensures forall i | 0 <= i < n :: Fastest(policy, c, n)[i] == Tick(TotalHold(policy, i), c)
  {
    if n > 0 { FastestShape(policy, c, n - 1); }
  }

  lemma {:induction false} HoldsGrow(policy: Policy, a: nat, b: nat)
    requires a <= b
    ensures TotalHold(policy, a) <= TotalHold(policy, b)
  {
    if a < b { HoldsGrow(policy, a, b - 1); }
  }

  lemma FastestIsSteady(policy: Policy, c: RetryClass, n: nat)
    ensures ClockMonotone(Fastest(policy, c, n))
  {
    FastestShape(policy, c, n);
    forall i, j | 0 <= i < j < n
      ensures Fastest(policy, c, n)[i].now <= Fastest(policy, c, n)[j].now
    {
      HoldsGrow(policy, i, j);
    }
  }

  // The attempt after `n` retries of one class, each at its earliest time.
  predicate HeldAfter(policy: Policy, attempt: Attempt, c: RetryClass, n: nat) {
    && attempt.validating && Count(attempt.counters, c) == n
    && (n > 0 ==> First(attempt.failures, c) == Some(0) && attempt.nextEligibleAt == Some(TotalHold(policy, n)))
    && (n == 0 ==> attempt == FRESH_ATTEMPT)
  }

  lemma HeldTick(policy: Policy, attempt: Attempt, c: RetryClass, n: nat)
    requires c != Validation && HeldAfter(policy, attempt, c, n) && TotalHold(policy, n) < Ceiling(policy, c)
    ensures !Deferred(attempt, TotalHold(policy, n))
    ensures HeldAfter(policy, Ticked(policy, attempt, Tick(TotalHold(policy, n), c)), c, n + 1)
  {
  }

  lemma RunOneMore(policy: Policy, ticks: seq<Tick>, tick: Tick)
    requires Run(policy, ticks).Some? && Run(policy, ticks).value.validating
        && !Deferred(Run(policy, ticks).value, tick.now)
    ensures Run(policy, ticks + [tick]) == Some(Ticked(policy, Run(policy, ticks).value, tick))
  {
    assert (ticks + [tick])[..|ticks|] == ticks;
  }

  lemma {:induction false} FastestRuns(policy: Policy, c: RetryClass, n: nat)
    requires c != Validation && (n > 0 ==> TotalHold(policy, n - 1) < Ceiling(policy, c))
    ensures Run(policy, Fastest(policy, c, n)).Some?
        && HeldAfter(policy, Run(policy, Fastest(policy, c, n)).value, c, n)
  {
    if n > 0 {
      if n > 1 { HoldsGrow(policy, n - 2, n - 1); }
      FastestRuns(policy, c, n - 1);
      var before := Fastest(policy, c, n - 1);
      HeldTick(policy, Run(policy, before).value, c, n - 1);
      RunOneMore(policy, before, Tick(TotalHold(policy, n - 1), c));
    }
  }

  // A class can be retried n times under a steady clock exactly when its first
  // n - 1 holds together fit under its ceiling.
  lemma RetriesPossibleIff(policy: Policy, c: RetryClass, n: nat)
    requires c != Validation && n > 0
    ensures (exists ticks :: ClockMonotone(ticks) && Retried(policy, ticks, c, n))
        <==> TotalHold(policy, n - 1) < Ceiling(policy, c)
  {
    if TotalHold(policy, n - 1) < Ceiling(policy, c) {
      FastestRuns(policy, c, n);
      FastestIsSteady(policy, c, n);
      assert Retried(policy, Fastest(policy, c, n), c, n);
    }
    forall ticks | ClockMonotone(ticks) && Retried(policy, ticks, c, n)
      ensures TotalHold(policy, n - 1) < Ceiling(policy, c)
    {
      assert ticks != [];
      RunPaced(policy, ticks, c);
    }
  }

  predicate Retried(policy: Policy, ticks: seq<Tick>, c: RetryClass, n: nat) {
    var attempt := Run(policy, ticks);
    attempt.Some? && attempt.value.validating && Count(attempt.value.counters, c) == n
  }

  /* ------------------- under any clock: the policy decides --------------- */

  // A first validation failure leaves the recovery alive.
  predicate ValidationSurvives(policy: Policy) {
    policy.maxValidationAttempts > 1 || policy.validationMinElapsedMs > 0
  }

  // A retry at time zero, and a validation tick that clears its hold; then the
  // clock is set back `n` caps, and `k` retries come a cap apart.
  function SetBack(policy: Policy, c: RetryClass, n: nat, k: nat): seq<Tick>
    requires k <= n
  {
    if k == 0 then [Tick(0, c)] + [Tick(RetryBackoffMs(1, policy), Validation)]
    else SetBack(policy, c, n, k - 1) + [Tick(0 - Times(n - k, policy.backoffCapMs), c)]
  }

  predicate AfterSetBack(policy: Policy, attempt: Attempt, c: RetryClass, n: nat, k: nat)
    requires k <= n
  {
    && attempt.validating && Count(attempt.counters, c) == k + 1 && First(attempt.failures, c) == Some(0)
    && (attempt.nextEligibleAt.Some? ==>
        0 < k && attempt.nextEligibleAt.value <= policy.backoffCapMs - Times(n - k, policy.backoffCapMs))
  }

  lemma ValidationClears(policy: Policy, c: RetryClass, n: nat)
    requires c != Validation && Ceiling(policy, c) > 0 && ValidationSurvives(policy)
    ensures Run(policy, SetBack(policy, c, n, 0)).Some?
    ensures AfterSetBack(policy, Run(policy, SetBack(policy, c, n, 0)).value, c, n, 0)
  {
    var first, second := Tick(0, c), Tick(RetryBackoffMs(1, policy), Validation);
    RunOneMore(policy, [], first);
    assert [] + [first] == [first];
    RunOneMore(policy, [first], second);
  }

  lemma SetBackTick(policy: Policy, attempt: Attempt, c: RetryClass, n: nat, k: nat)
    requires c != Validation && Ceiling(policy, c) > 0 && 0 < k <= n && AfterSetBack(policy, attempt, c, n, k - 1)
    ensures var tick := Tick(0 - Times(n - k, policy.backoffCapMs), c);
            !Deferred(attempt, tick.now) && AfterSetBack(policy, Ticked(policy, attempt, tick), c, n, k)
  {
    assert Times(n - (k - 1), policy.backoffCapMs) == Times(n - k, policy.backoffCapMs) + policy.backoffCapMs;
  }

  lemma {:induction false} SetBackRuns(policy: Policy, c: RetryClass, n: nat, k: nat)
    requires c != Validation && Ceiling(policy, c) > 0 && ValidationSurvives(policy) && k <= n
    ensures Run(policy, SetBack(policy, c, n, k)).Some?
    ensures AfterSetBack(policy, Run(policy, SetBack(policy, c, n, k)).value, c, n, k)
  {
    if k == 0 {
      ValidationClears(policy, c, n);
    } else {
      SetBackRuns(policy, c, n, k - 1);
      var before := SetBack(policy, c, n, k - 1);
      SetBackTick(policy, Run(policy, before).value, c, n, k);
      RunOneMore(policy, before, Tick(0 - Times(n - k, policy.backoffCapMs), c));
    }
  }

  ghost predicate CanRetry(policy: Policy, c: RetryClass, n: nat) {
    exists ticks :: Retried(policy, ticks, c, n)
  }

  // Where a validation tick can survive, every number of retries is possible: it
  // clears the stored hold, and a clock set back starts the class's time over.
  lemma UnboundedIfClockGoesBack(policy: Policy, c: RetryClass, n: nat)
    requires c != Validation && Ceiling(policy, c) > 0 && ValidationSurvives(policy)
    ensures CanRetry(policy, c, n)
  {
    if n == 0 {
      assert Retried(policy, [], c, 0);
    } else {
      SetBackRuns(policy, c, n - 1, n - 1);
      assert Retried(policy, SetBack(policy, c, n - 1, n - 1), c, n);
    }
  }

  // Where none can, the holds alone keep the clock from going back.
  lemma {:induction false} NoValidationBefore(policy: Policy, ticks: seq<Tick>, i: nat)
    requires Run(policy, ticks).Some? && 0 < i < |ticks| && !ValidationSurvives(policy)
    ensures ticks[i - 1].retryClass != Validation
  {
    var before := ticks[..|ticks| - 1];
    if i < |ticks| - 1 {
      NoValidationBefore(policy, before, i);
    } else {
      assert before[|before| - 1] == ticks[i - 1];
      assert Run(policy, before).value.validating;
    }
  }

  lemma SteadyWithoutValidation(policy: Policy, ticks: seq<Tick>)
    requires Run(policy, ticks).Some? && !ValidationSurvives(policy)
    ensures SteadyAfterValidation(ticks)
  {
    forall i | 0 <= i < |ticks| - 1
      ensures ticks[i].retryClass != Validation
    {
      NoValidationBefore(policy, ticks, i + 1);
    }
  }

  // No run under any clock retries the class more often before it gives up.
  ghost predicate RetriesAtMost(policy: Policy, c: RetryClass, bound: nat) {
    forall ticks | Run(policy, ticks).Some? && Run(policy, ticks).value.validating ::
      Count(Run(policy, ticks).value.counters, c) <= bound
  }

  lemma Exceeds(policy: Policy, c: RetryClass, bound: nat)
    requires CanRetry(policy, c, bound + 1)
    ensures !RetriesAtMost(policy, c, bound)
  {
    var ticks :| Retried(policy, ticks, c, bound + 1);
  }

  // A class whose ceiling is not positive is given up on at once.
  lemma {:induction false} NoRoom(policy: Policy, c: RetryClass, ticks: seq<Tick>)
    requires c != Validation && Ceiling(policy, c) <= 0
    requires Run(policy, ticks).Some? && Run(policy, ticks).value.validating
    ensures Count(Run(policy, ticks).value.counters, c) == 0
  {
    if ticks != [] {
      NoRoom(policy, c, ticks[..|ticks| - 1]);
      TickAccounts(policy, Run(policy, ticks[..|ticks| - 1]).value, ticks[|ticks| - 1], c);
    }
  }

  // Under any clock, the bound holds exactly when no validation failure leaves
  // the recovery alive, or the class has no room at all.
  lemma BoundHoldsIff(policy: Policy, c: RetryClass, m: nat)
    requires c != Validation && Ceiling(policy, c) >= 0
    requires policy.backoffCapMs > 0 && Doubled(policy.backoffStartMs, m) >= policy.backoffCapMs
    ensures RetriesAtMost(policy, c, m + 1 + Ceiling(policy, c) / policy.backoffCapMs) <==>
            !ValidationSurvives(policy) || Ceiling(policy, c) == 0
  {
    var bound: nat := m + 1 + Ceiling(policy, c) / policy.backoffCapMs;
    if ValidationSurvives(policy) && Ceiling(policy, c) > 0 {
      UnboundedIfClockGoesBack(policy, c, bound + 1);
      Exceeds(policy, c, bound);
    } else {
      forall ticks | Run(policy, ticks).Some? && Run(policy, ticks).value.validating
        ensures Count(Run(policy, ticks).value.counters, c) <= bound
      {
        if Ceiling(policy, c) == 0 {
          NoRoom(policy, c, ticks);
        } else {
          SteadyWithoutValidation(policy, ticks);
          RetriesBounded(policy, ticks, c, m);
        }
      }
    }
  }

  lemma {:induction false} DoubledReaches(start: nat, n: nat)
    requires start > 0
    ensures Doubled(start, n) >= n
  {
    if n > 0 {
      DoubledReaches(start, n - 1);
      DoubledGrows(start, 0, n - 1);
    }
  }

  lemma {:induction false} NoHolds(policy: Policy, n: nat)
    requires policy.backoffStartMs == 0 || policy.backoffCapMs == 0
    ensures TotalHold(policy, n) == 0
  {
    if n > 0 {
      NoHolds(policy, n - 1);
      DoubledZero(policy.backoffStartMs, Max(0, n as int - 1));
    }
  }

  lemma {:induction false} DoubledZero(start: nat, n: nat)
    ensures start == 0 ==> Doubled(start, n) == 0
  {
    if n > 0 { DoubledZero(start, n - 1); }
  }

  // Under any clock and for any policy, a class's retries are bounded at all
  // exactly when it has no room, or its holds grow and no validation failure
  // leaves the recovery alive.
  lemma BoundedAtAllIff(policy: Policy, c: RetryClass)
    requires c != Validation
    ensures (exists bound: nat :: RetriesAtMost(policy, c, bound)) <==>
            Ceiling(policy, c) <= 0 ||
            (policy.backoffStartMs > 0 && policy.backoffCapMs > 0 && !ValidationSurvives(policy))
  {
    if Ceiling(policy, c) <= 0 {
      forall ticks | Run(policy, ticks).Some? && Run(policy, ticks).value.validating
        ensures Count(Run(policy, ticks).value.counters, c) <= 0
      {
        NoRoom(policy, c, ticks);
      }
      assert RetriesAtMost(policy, c, 0);
    } else if policy.backoffStartMs > 0 && policy.backoffCapMs > 0 && !ValidationSurvives(policy) {
      DoubledReaches(policy.backoffStartMs, policy.backoffCapMs);
      BoundHoldsIff(policy, c, policy.backoffCapMs);
      var bound: nat := policy.backoffCapMs + 1 + Ceiling(policy, c) / policy.backoffCapMs;
      assert RetriesAtMost(policy, c, bound);
    } else {
      forall bound: nat
        ensures !RetriesAtMost(policy, c, bound)
      {
        AnyNumber(policy, c, bound + 1);
        Exceeds(policy, c, bound);
      }
    }
  }

  lemma AnyNumber(policy: Policy, c: RetryClass, n: nat)
    requires c != Validation && Ceiling(policy, c) > 0
    requires policy.backoffStartMs == 0 || policy.backoffCapMs == 0 || ValidationSurvives(policy)
    ensures CanRetry(policy, c, n)
  {
    if ValidationSurvives(policy) {
      UnboundedIfClockGoesBack(policy, c, n);
    } else if n == 0 {
      assert Retried(policy, [], c, 0);
    } else {
      NoHolds(policy, n - 1);
      RetriesPossibleIff(policy, c, n);
    }
  }
}
