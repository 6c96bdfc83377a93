// What each stage of the recovery decider decides, said of the facts alone.
module RecoveryMeaning {
  import opened Prelude
  import opened CommitGraph
  import opened RecoveryDecision
  import opened RecoveryRuns

  /* ------------------------- durable candidate --------------------------- */

  // The stop is recoverable, not settled before, and says why in evidence that
  // reads as a drift payload or a check failure; the identities are complete.
  predicate StopStands(e: Evidence, facts: Facts) {
    && facts.task.Some? && facts.stop.Some?
    && var task, stop := facts.task.value, facts.stop.value;
    && task.isIntegratorStep && task.repositoryPresent && task.chainIndex.Some?
    && task.chainId.Some? && task.chainId.value != "" && task.repoId.Some? && task.repoId.value != ""
    && stop.condition in {"base-drift", "non-clean-mergeability", "check-failure-or-absence"}
    && stop.sourceRunId.Some? && stop.sourceRunId.value != ""
    && (facts.existingAttempt.Some? ==>
        facts.existingAttempt.value.status == "VALIDATING" || facts.existingAttempt.value.reopenableLegacyRefusal)
    && (e.drift(stop.condition, stop.evidence).Some? || e.ciFailure(stop.condition, stop.evidence))
  }

  // The source run is the executor's own finished one, its output is the stop, and
  // the chain is idle.
  predicate RunMatches(facts: Facts) {
    && facts.task.Some? && facts.stop.Some? && facts.sourceRun.Some? && facts.output.Some?
    && var task, stop, run, output := facts.task.value, facts.stop.value, facts.sourceRun.value, facts.output.value;
    && run.taskId == Some(task.id) && run.status == "SUCCEEDED" && run.hasSession
    && facts.activeRunCount == Some(0)
    && output == OutputFacts(Some(run.id), "merge-result", "stopped", Some(stop.condition), Some(stop.evidence))
  }

  // The steps before the executor are finished, and it waits.
  predicate TailFinished(facts: Facts) {
    && facts.task.Some? && facts.readiness.Some? && facts.regression.Some?
    && facts.task.value.status == "REVIEW" && facts.readiness.value.isReadinessStep
    && facts.readiness.value.status == "DONE" && facts.regression.value.status == "DONE"
  }

  // One authorization, and everything that names a head, a base, a pull request
  // or a branch names the authorization's.
  predicate AuthorizationAgrees(e: Evidence, facts: Facts) {
    && facts.stop.Some? && facts.sourceRun.Some? && facts.readiness.Some? && facts.authorizationSelection.Some?
    && facts.authorizationSelection.value.authorization.Some? && facts.intents.Some?
    && facts.authorizationSelection.value.refusal in {None, Some("")}
    && var authorization := facts.authorizationSelection.value.authorization.value;
    && var drift := e.drift(facts.stop.value.condition, facts.stop.value.evidence);
    && OneIntent(facts.intents.value, facts.sourceRun.value.id)
    && IntentsName(facts.intents.value, facts.sourceRun.value.id, authorization)
    && (drift.Some? ==> drift.value.0 == authorization.baseSha)
    && facts.readiness.value.outputCommitSha == Some(authorization.headSha)
    && facts.target == Some(Resolved(authorization.repository, authorization.prNumber))
    && facts.firstRunTargetRef == Some(authorization.baseRef)
  }

  predicate OneIntent(intents: seq<Intent>, runId: string) {
    forall i, j | 0 <= i < j < |intents| :: !(intents[i].sourceRunId == intents[j].sourceRunId == Some(runId))
  }

  predicate IntentsName(intents: seq<Intent>, runId: string, authorization: Authorization) {
    forall intent | intent in intents && intent.sourceRunId == Some(runId) ::
      intent == Intent(Some(runId), Some(authorization.activityId), Some(authorization.prNumber),
                       Some(authorization.headSha))
  }

  // The candidate, field by field: the base the executor observed is the second
  // of its evidence, or the authorized one where the stop is no drift.
  predicate Describes(e: Evidence, facts: Facts, c: Candidate) {
    && facts.task.Some? && facts.stop.Some? && facts.sourceRun.Some? && facts.readiness.Some?
    && facts.regression.Some? && facts.authorizationSelection.Some?
    && facts.authorizationSelection.value.authorization.Some?
    && var stop, authorization := facts.stop.value, facts.authorizationSelection.value.authorization.value;
    && var drift := e.drift(stop.condition, stop.evidence);
    && c.recoveryKind == (if e.ciFailure(stop.condition, stop.evidence) then CiFailure else BaseDrift)
    && c.integratorTaskId == facts.task.value.id && c.readinessTaskId == facts.readiness.value.id
    && c.regressionTaskId == facts.regression.value.id && c.sourceRunId == facts.sourceRun.value.id
    && c.stopId == stop.stopId && c.authorizationActivityId == authorization.activityId
    && c.repository == authorization.repository && c.prNumber == authorization.prNumber
    && c.targetBranch == authorization.baseRef && c.authorizedHeadSha == authorization.headSha
    && c.authorizedBaseSha == authorization.baseSha
    && c.observedBaseSha == (if drift.Some? then drift.value.1 else authorization.baseSha)
  }

  // A candidate is inspected, and is exactly this one, if and only if all of that holds.
  lemma InspectedIff(e: Evidence, facts: Facts, c: Candidate)
    ensures ClassifyCandidate(e, facts) == Inspect(c) <==>
      StopStands(e, facts) && RunMatches(facts) && TailFinished(facts) && AuthorizationAgrees(e, facts)
      && Describes(e, facts, c)
  {
    ReachesTail(e, facts);
    if StopStands(e, facts) && RunMatches(facts) { TailInspects(e, facts, c); }
  }

  // A step that is no stopped executor, or settled before, is skipped; one whose
  // chain is busy waits; nothing else does either.
  lemma NotInspected(e: Evidence, facts: Facts)
    ensures ClassifyCandidate(e, facts) == SkipCandidate <==>
      || facts.task.None? || !facts.task.value.isIntegratorStep || facts.stop.None?
      || facts.stop.value.condition !in {"base-drift", "non-clean-mergeability", "check-failure-or-absence"}
      || (facts.existingAttempt.Some? && facts.existingAttempt.value.status != "VALIDATING"
          && !facts.existingAttempt.value.reopenableLegacyRefusal)
    ensures ClassifyCandidate(e, facts).RetryCandidate? <==>
      && StopStands(e, facts) && facts.sourceRun.Some? && facts.sourceRun.value.taskId == Some(facts.task.value.id)
      && facts.sourceRun.value.status == "SUCCEEDED" && facts.sourceRun.value.hasSession
      && facts.activeRunCount !in {None, Some(0)}
    ensures ClassifyCandidate(e, facts).RetryCandidate? ==> ClassifyCandidate(e, facts).retryClass == Waiting
  {
  }

  lemma ReachesTail(e: Evidence, facts: Facts)
    ensures StopStands(e, facts) && RunMatches(facts) ==>
      ClassifyCandidate(e, facts)
      == ClassifyTail(e, facts, facts.task.value, facts.stop.value, facts.sourceRun.value)
    ensures ClassifyCandidate(e, facts).Inspect? ==> StopStands(e, facts) && RunMatches(facts)
  {
  }

  lemma TailInspects(e: Evidence, facts: Facts, c: Candidate)
    requires facts.task.Some? && facts.stop.Some? && facts.sourceRun.Some?
    ensures ClassifyTail(e, facts, facts.task.value, facts.stop.value, facts.sourceRun.value) == Inspect(c) <==>
      TailFinished(facts) && AuthorizationAgrees(e, facts) && Describes(e, facts, c)
  {
    if facts.intents.Some? && facts.authorizationSelection.Some?
       && facts.authorizationSelection.value.authorization.Some? {
      var authorization := facts.authorizationSelection.value.authorization.value;
      IntentsAgreeIff(facts.intents.value, facts.sourceRun.value.id, authorization);
      BlankMeans(facts.authorizationSelection.value.refusal);
      assert facts.target == Some(Resolved(authorization.repository, authorization.prNumber)) <==>
        facts.target.Some? && facts.target.value.Resolved? && facts.target.value.repository == authorization.repository
        && facts.target.value.prNumber == authorization.prNumber;
    }
  }

  lemma BlankMeans(text: Option<string>)
    ensures Blank(text) <==> text == None || text == Some("")
  {
  }

  lemma IntentsAgreeIff(intents: seq<Intent>, runId: string, authorization: Authorization)
    ensures var own := OfRun(intents, runId);
            |own| <= 1 && (|own| == 1 ==> AgreesWith(own[0], authorization)) <==>
            OneIntent(intents, runId) && IntentsName(intents, runId, authorization)
  {
    var own := OfRun(intents, runId);
    OfRunMembers(intents, runId);
    OneIntentIff(intents, runId);
    if |own| == 1 { assert own[0] in own; }
    assert forall intent | intent in own :: |own| > 0;
  }

  lemma OneIntentIff(intents: seq<Intent>, runId: string)
    ensures |OfRun(intents, runId)| <= 1 <==> OneIntent(intents, runId)
  {
    if |OfRun(intents, runId)| <= 1 {
      OfRunDistinct(intents, runId);
    } else {
      TwoOfRun(intents, runId);
    }
  }

  lemma {:induction false} TwoOfRun(intents: seq<Intent>, runId: string)
    requires |OfRun(intents, runId)| > 1
    ensures exists i, j | 0 <= i < j < |intents| :: intents[i].sourceRunId == intents[j].sourceRunId == Some(runId)
  {
    if intents[0].sourceRunId == Some(runId) {
      OfRunMembers(intents[1..], runId);
      var other := OfRun(intents[1..], runId)[0];
      var j :| 0 <= j < |intents[1..]| && intents[1..][j] == other;
      assert intents[j + 1].sourceRunId == intents[0].sourceRunId == Some(runId);
    } else {
      TwoOfRun(intents[1..], runId);
      var i, j :| 0 <= i < j < |intents[1..]|
        && intents[1..][i].sourceRunId == intents[1..][j].sourceRunId == Some(runId);
      assert intents[i + 1].sourceRunId == intents[j + 1].sourceRunId == Some(runId);
    }
  }

  /* ------------------------------ the two bases -------------------------- */

  // A queued recovery starts at the base the pull request has now, which descends
  // from the authorized base and from the base the executor saw, as the stop's
  // own evidence names them; its head, and everything else read, is as authorized.
  lemma QueueRestsOnEvidence(g: Graph, e: Evidence, before: Facts, remote: Candidate -> FreshFacts, after: Facts,
                             validating: bool, recoveryCount: int, maxRecoveries: int)
    requires Valid(g)
    requires ClassifyCandidate(e, before).Inspect? ==>
      var c := ClassifyCandidate(e, before).candidate; TruthfulRead(g, c, remote(c))
    requires !ClassifyCandidate(e, before).FactsOmitted? && !ClassifyCandidate(e, after).FactsOmitted?
    requires Classify(e, before, remote, after, validating, recoveryCount, maxRecoveries).Queue?
    ensures before.stop.Some? && before.authorizationSelection.Some?
    ensures before.authorizationSelection.value.authorization.Some?
    ensures var decision := Classify(e, before, remote, after, validating, recoveryCount, maxRecoveries);
            var drift := e.drift(before.stop.value.condition, before.stop.value.evidence);
            var authorization := before.authorizationSelection.value.authorization.value;
            && DescendsFrom(g, decision.currentBaseSha, authorization.baseSha)
            && (drift.Some? ==>
                drift.value.0 == authorization.baseSha && DescendsFrom(g, decision.currentBaseSha, drift.value.1))
            && (decision.currentBaseSha == authorization.baseSha ==>
                drift.None? || drift.value.1 == authorization.baseSha)
            && remote(decision.candidate).SnapshotRead?
            && var snapshot := remote(decision.candidate).snapshot;
            && snapshot.baseSha == Some(decision.currentBaseSha)
            && snapshot.headRefOid == snapshot.headCommitOid == Some(authorization.headSha)
            && snapshot.repository == authorization.repository && snapshot.number == authorization.prNumber
            && snapshot.baseRefName == Some(authorization.baseRef)
            && snapshot.state == Some("OPEN") && snapshot.merged == snapshot.isDraft == Some(false)
  {
    QueueIsSound(g, e, before, remote, after, validating, recoveryCount, maxRecoveries);
    InspectedIff(e, before, ClassifyCandidate(e, before).candidate);
  }

  /* ------------------------------- fresh read ---------------------------- */

  // The pull request read is the authorized one, open and free to recover.
  predicate PullRequestStands(candidate: Candidate, snapshot: Snapshot) {
    && snapshot.repository == candidate.repository && snapshot.number == candidate.prNumber
    && snapshot.state == Some("OPEN") && snapshot.merged == Some(false) && snapshot.isDraft == Some(false)
    && snapshot.mergeStateStatus != Some("BLOCKED")
    && !(snapshot.autoMergeRequest || snapshot.mergeQueueEntry)
    && snapshot.baseRefName == Some(candidate.targetBranch)
    && snapshot.headRefOid == snapshot.headCommitOid == Some(candidate.authorizedHeadSha)
    && snapshot.baseSha.Some? && |snapshot.baseSha.value| == 40
    && forall c | c in snapshot.baseSha.value :: c in "0123456789abcdef"
  }

  predicate Forward(comparison: Option<Comparison>, orSame: bool) {
    && comparison.Some? && comparison.value.behindBy == 0
    && (comparison.value.status == Ahead || (orSame && comparison.value.status == Identical))
  }

  // A fresh read is put down to transport exactly when it failed, or the pull
  // request stands and the comparison its new base needs next is missing; it
  // queues exactly when the pull request stands at a base both comparisons, where
  // they are needed, show to be forward; and it is ineligible otherwise.
  lemma FreshMeans(facts: FreshFacts)
    ensures ClassifyFresh(facts) == Retry(Transport) <==>
      facts.ReaderFailure? ||
      (PullRequestStands(facts.candidate, facts.snapshot) && facts.comparisonAvailable
       && facts.snapshot.baseSha != Some(facts.candidate.authorizedBaseSha)
       && (facts.authorizedAdvance.None?
           || (Forward(facts.authorizedAdvance, false) && facts.observedAdvance.None?
               && facts.snapshot.baseSha != Some(facts.candidate.observedBaseSha))))
    ensures ClassifyFresh(facts).Queue? <==>
      facts.SnapshotRead? && PullRequestStands(facts.candidate, facts.snapshot)
      && if facts.snapshot.baseSha == Some(facts.candidate.authorizedBaseSha)
         then facts.candidate.observedBaseSha == facts.candidate.authorizedBaseSha
         else facts.comparisonAvailable && Forward(facts.authorizedAdvance, false)
              && (facts.snapshot.baseSha == Some(facts.candidate.observedBaseSha)
                  || Forward(facts.observedAdvance, true))
    ensures ClassifyFresh(facts).Queue? ==>
      ClassifyFresh(facts).candidate == facts.candidate
      && Some(ClassifyFresh(facts).currentBaseSha) == facts.snapshot.baseSha
    ensures ClassifyFresh(facts) in {Retry(Transport), Ineligible} || ClassifyFresh(facts).Queue?
  {
    if facts.SnapshotRead? && facts.snapshot.baseSha.Some? { ShaMeans(facts.snapshot.baseSha.value); }
  }

  lemma ShaMeans(text: string)
    ensures IsSha(text) <==> |text| == 40 && forall c | c in text :: c in "0123456789abcdef"
  {
    HexMeans();
    assert forall i | 0 <= i < |text| :: text[i] in text;
  }

  lemma HexMeans()
    ensures forall c: char :: c in "0123456789abcdef" <==> '0' <= c <= '9' || 'a' <= c <= 'f'
  {
    var digits := "0123456789abcdef";
    forall c: char | '0' <= c <= '9' || 'a' <= c <= 'f'
      ensures c in digits
    {
      assert digits[if c <= '9' then c as int - '0' as int else 10 + (c as int - 'a' as int)] == c;
    }
  }

  /* ----------------------------- durable recheck ------------------------- */

  // The second durable read skips a settled recovery, waits as the candidate
  // does, queues the very candidate expected below the limit, is exhausted at it,
  // and is ineligible for anything else.
  lemma DurableMeans(facts: DurableFacts)
    requires !facts.candidateDecision.FactsOmitted?
    ensures ClassifyDurable(facts) ==
            if !facts.aggregateValidating then Skip
            else if facts.candidateDecision == Inspect(facts.expected) then
              if facts.recoveryCount < facts.maxRecoveries then Queue(facts.expected, facts.currentBaseSha)
              else Exhausted
            else if facts.candidateDecision.RetryCandidate? then Retry(facts.candidateDecision.retryClass)
            else Ineligible
  {
  }

  /* ----------------------------- retry budget ---------------------------- */

  // A failure is the last of its class exactly when the class has outlasted its
  // own ceiling, or, for validation, has both its count and its least time.
  lemma GivesUpIff(policy: Policy, c: RetryClass, now: int, counters: Counters, failures: FirstFailures)
    ensures ClassifyRetryBudget(policy, c, now, counters, failures).GiveUp? <==>
            match c
            case Waiting => Since(failures.waiting, now) >= policy.waitingCeilingMs
            case Transport => Since(failures.transport, now) >= policy.transportCeilingMs
            case Validation => counters.validation + 1 >= policy.maxValidationAttempts
                               && Since(failures.validation, now) >= policy.validationMinElapsedMs
    ensures var decision := ClassifyRetryBudget(policy, c, now, counters, failures);
            && decision.attempt == 1 + (match c case Waiting => counters.waiting case Transport => counters.transport
                                                case Validation => counters.validation)
            && decision.elapsedMs == Since(First(failures, c), now)
            && (decision.Hold? && c == Validation ==> decision.nextEligibleAt == None)
            && (decision.Hold? && c != Validation ==>
                decision.nextEligibleAt == Some(now + RetryBackoffMs(decision.attempt, policy)))
  {
  }

  // The time since a first failure; none has passed since one that is just now,
  // or lies ahead of the clock.
  function Since(first: Option<int>, now: int): nat {
    if first.Some? && first.value < now then now - first.value else 0
  }

  // The first hold is the start, each next one twice the one before, none above the cap.
  lemma HoldsDouble(policy: Policy, attempt: nat)
    requires attempt > 0
    ensures RetryBackoffMs(1, policy) == Min(policy.backoffCapMs, policy.backoffStartMs)
    ensures RetryBackoffMs(attempt + 1, policy) == Min(policy.backoffCapMs, 2 * RetryBackoffMs(attempt, policy))
  {
  }
}
