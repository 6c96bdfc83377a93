// The base-drift recovery decider: durable candidate facts, then a fresh
// repository read, then the durable facts again.
module RecoveryDecision {
  import opened Prelude
  import opened CommitGraph

  datatype RecoveryKind = BaseDrift | CiFailure

  datatype Candidate = Candidate(
    recoveryKind: RecoveryKind,
    integratorTaskId: string, readinessTaskId: string, regressionTaskId: string, sourceRunId: string, stopId: string,
    authorizationActivityId: string, repository: string, prNumber: int, targetBranch: string,
    authorizedHeadSha: Commit, authorizedBaseSha: Commit, observedBaseSha: Commit)

  datatype RefusalCode =
    | IdentityIncomplete | SourceRunUnbound | EvidenceInvalid | SourceRunMismatch | ChainActive | OutputMismatch
    | TailUnresolved | TailStateMismatch | AuthorizationInvalid | IntentCount | IntentMismatch | AuthorizedBaseMismatch
    | ReadinessHeadMismatch | TargetUnresolved | TargetMismatch | TargetBranchMismatch

  datatype RetryClass = Waiting | Transport | Validation

  /* ---------------------------- durable facts --------------------------- */

  datatype TaskFacts = TaskFacts(
    id: string, chainId: Option<string>, chainIndex: Option<int>, repoId: Option<string>, repositoryPresent: bool,
    status: string, isIntegratorStep: bool)

  datatype Stop = Stop(stopId: string, condition: string, evidence: string, sourceRunId: Option<string>)

  datatype AttemptFacts = AttemptFacts(status: string, reopenableLegacyRefusal: bool, nextEligibleAt: Option<int>)

  datatype SourceRun = SourceRun(id: string, taskId: Option<string>, status: string, hasSession: bool)

  datatype OutputFacts = OutputFacts(
    runId: Option<string>, kind: string, outcome: string, condition: Option<string>, evidence: Option<string>)

  datatype Readiness = Readiness(id: string, status: string, isReadinessStep: bool, outputCommitSha: Option<string>)

  datatype Regression = Regression(id: string, status: string)

  datatype Authorization = Authorization(
    activityId: string, repository: string, prNumber: int, headSha: Commit, baseSha: Commit, baseRef: string)

  datatype Selection = Selection(authorization: Option<Authorization>, refusal: Option<string>)

  datatype Intent = Intent(
    sourceRunId: Option<string>, authorizationActivityId: Option<string>, prNumber: Option<int>,
        headSha: Option<Commit>)

  datatype Target = Unresolvable | Resolved(repository: string, prNumber: int)

  datatype Facts = Facts(
    task: Option<TaskFacts>, stop: Option<Stop>, existingAttempt: Option<AttemptFacts>, sourceRun: Option<SourceRun>,
    activeRunCount: Option<int>, output: Option<OutputFacts>, readiness: Option<Readiness>,
        regression: Option<Regression>,
    authorizationSelection: Option<Selection>, intents: Option<seq<Intent>>, target: Option<Target>,
    firstRunTargetRef: Option<string>)

  // Reading the free text a stop carries: the two bases of a drift payload, and
  // whether it is a recoverable check failure.
  datatype Evidence = Evidence(
    drift: (string, string) -> Option<(Commit, Commit)>,
    ciFailure: (string, string) -> bool)

  datatype CandidateDecision =
    | SkipCandidate
    | RetryCandidate(code: RefusalCode, retryClass: RetryClass)
    | RefuseCandidate(code: RefusalCode)
    | Inspect(candidate: Candidate)
    | FactsOmitted

  predicate Recoverable(condition: string) {
    condition == "base-drift" || condition == "non-clean-mergeability" || condition == "check-failure-or-absence"
  }

  // A missing or empty text field.
  predicate Blank(text: Option<string>) {
    text.None? || text.value == ""
  }

  function Refuse(code: RefusalCode): CandidateDecision {
    if code == ChainActive then RetryCandidate(code, Waiting) else RefuseCandidate(code)
  }

  function OfRun(intents: seq<Intent>, runId: string): seq<Intent> {
    if intents == [] then []
    else if intents[0].sourceRunId == Some(runId) then [intents[0]] + OfRun(intents[1..], runId)
    else OfRun(intents[1..], runId)
  }

  predicate AgreesWith(intent: Intent, authorization: Authorization) {
    && intent.authorizationActivityId == Some(authorization.activityId)
    && intent.prNumber == Some(authorization.prNumber) && intent.headSha == Some(authorization.headSha)
  }

  function ClassifyCandidate(e: Evidence, facts: Facts): CandidateDecision {
    if facts.task.None? || !facts.task.value.isIntegratorStep || facts.stop.None?
        || !Recoverable(facts.stop.value.condition)
    then SkipCandidate
    else if facts.existingAttempt.Some? && facts.existingAttempt.value.status != "VALIDATING"
            && !facts.existingAttempt.value.reopenableLegacyRefusal
    then SkipCandidate
    else
      var task, stop := facts.task.value, facts.stop.value;
      if Blank(task.chainId) || task.chainIndex.None? || Blank(task.repoId) || !task.repositoryPresent
      then Refuse(IdentityIncomplete)
      else if Blank(stop.sourceRunId) then Refuse(SourceRunUnbound)
      else if e.drift(stop.condition, stop.evidence).None? && !e.ciFailure(stop.condition, stop.evidence)
      then Refuse(EvidenceInvalid)
      else if facts.sourceRun.None? || facts.sourceRun.value.taskId != Some(task.id)
              || facts.sourceRun.value.status != "SUCCEEDED" || !facts.sourceRun.value.hasSession
      then Refuse(SourceRunMismatch)
      else if facts.activeRunCount.None? then FactsOmitted
      else if facts.activeRunCount.value != 0 then Refuse(ChainActive)
      else if facts.output.None? || facts.output.value.runId != Some(facts.sourceRun.value.id)
              || facts.output.value.kind != "merge-result" || facts.output.value.outcome != "stopped"
              || facts.output.value.condition != Some(stop.condition)
                 || facts.output.value.evidence != Some(stop.evidence)
      then Refuse(OutputMismatch)
      else ClassifyTail(e, facts, task, stop, facts.sourceRun.value)
  }

  function ClassifyTail(e: Evidence, facts: Facts, task: TaskFacts, stop: Stop, run: SourceRun): CandidateDecision {
    if facts.readiness.None? || !facts.readiness.value.isReadinessStep || facts.regression.None?
    then Refuse(TailUnresolved)
    else if task.status != "REVIEW" || facts.readiness.value.status != "DONE" || facts.regression.value.status != "DONE"
    then Refuse(TailStateMismatch)
    else if facts.authorizationSelection.None? then FactsOmitted
    else if facts.authorizationSelection.value.authorization.None? || !Blank(facts.authorizationSelection.value.refusal)
    then Refuse(AuthorizationInvalid)
    else if facts.intents.None? then FactsOmitted
    else
      var authorization := facts.authorizationSelection.value.authorization.value;
      var intents := OfRun(facts.intents.value, run.id);
      var drift := e.drift(stop.condition, stop.evidence);
      if |intents| > 1 then Refuse(IntentCount)
      else if |intents| == 1 && !AgreesWith(intents[0], authorization) then Refuse(IntentMismatch)
      else if drift.Some? && drift.value.0 != authorization.baseSha then Refuse(AuthorizedBaseMismatch)
      else if facts.readiness.value.outputCommitSha != Some(authorization.headSha) then Refuse(ReadinessHeadMismatch)
      else if facts.target.None? then FactsOmitted
      else if facts.target.value.Unresolvable? then Refuse(TargetUnresolved)
      else if facts.target.value.repository != authorization.repository
          || facts.target.value.prNumber != authorization.prNumber
      then Refuse(TargetMismatch)
      else if facts.firstRunTargetRef != Some(authorization.baseRef) then Refuse(TargetBranchMismatch)
      else Inspect(Candidate(
        if e.ciFailure(stop.condition, stop.evidence) then CiFailure else BaseDrift,
        task.id, facts.readiness.value.id, facts.regression.value.id, run.id, stop.stopId,
        authorization.activityId, facts.target.value.repository, facts.target.value.prNumber, authorization.baseRef,
        authorization.headSha, authorization.baseSha, if drift.Some? then drift.value.1 else authorization.baseSha))
  }

  /* ------------------------------ fresh read ---------------------------- */

  datatype Snapshot = Snapshot(
    repository: string, number: int, state: Option<string>, isDraft: Option<bool>, merged: Option<bool>,
    mergeStateStatus: Option<string>, baseRefName: Option<string>, baseSha: Option<Commit>,
    headRefOid: Option<Commit>, headCommitOid: Option<Commit>, autoMergeRequest: bool, mergeQueueEntry: bool)

  datatype FreshFacts =
    | ReaderFailure
    | SnapshotRead(candidate: Candidate, snapshot: Snapshot, comparisonAvailable: bool,
                   authorizedAdvance: Option<Comparison>, observedAdvance: Option<Comparison>)

  datatype Decision =
    | Skip
    | Retry(retryClass: RetryClass)
    | Ineligible
    | Exhausted
    | Queue(candidate: Candidate, currentBaseSha: Commit)

  predicate IsSha(text: string) {
    |text| == 40 && forall i | 0 <= i < 40 :: '0' <= text[i] <= '9' || 'a' <= text[i] <= 'f'
  }

  // The pull request is still the authorized one, open, unmerged and unclaimed.
  predicate StillAuthorized(candidate: Candidate, snapshot: Snapshot) {
    && snapshot.repository == candidate.repository && snapshot.number == candidate.prNumber
    && snapshot.state == Some("OPEN") && snapshot.merged == Some(false) && snapshot.isDraft == Some(false)
    && snapshot.mergeStateStatus != Some("BLOCKED") && !snapshot.autoMergeRequest && !snapshot.mergeQueueEntry
    && snapshot.baseRefName == Some(candidate.targetBranch)
    && snapshot.headRefOid == Some(candidate.authorizedHeadSha)
       && snapshot.headCommitOid == Some(candidate.authorizedHeadSha)
  }

  function ClassifyFresh(facts: FreshFacts): Decision {
    if facts.ReaderFailure? then Retry(Transport)
    else
      var candidate, snapshot := facts.candidate, facts.snapshot;
      if !StillAuthorized(candidate, snapshot) then Ineligible
      else if snapshot.baseSha.None? || !IsSha(snapshot.baseSha.value) then Ineligible
      else
        var base := snapshot.baseSha.value;
        if base == candidate.authorizedBaseSha && candidate.observedBaseSha == candidate.authorizedBaseSha
        then Queue(candidate, base)
        else if base == candidate.authorizedBaseSha then Ineligible
        else if !facts.comparisonAvailable then Ineligible
        else if facts.authorizedAdvance.None? then Retry(Transport)
        else if facts.authorizedAdvance.value.status != Ahead || facts.authorizedAdvance.value.behindBy != 0
        then Ineligible
        else if candidate.observedBaseSha == base then Queue(candidate, base)
        else if facts.observedAdvance.None? then Retry(Transport)
        else if (facts.observedAdvance.value.status != Ahead && facts.observedAdvance.value.status != Identical)
                || facts.observedAdvance.value.behindBy != 0 then Ineligible
        else Queue(candidate, base)
  }

  /* ---------------------------- durable recheck -------------------------- */

  predicate CandidatesMatch(left: Candidate, right: Candidate) {
    && left.recoveryKind == right.recoveryKind
    && left.integratorTaskId == right.integratorTaskId && left.readinessTaskId == right.readinessTaskId
    && left.regressionTaskId == right.regressionTaskId && left.sourceRunId == right.sourceRunId
       && left.stopId == right.stopId
    && left.authorizationActivityId == right.authorizationActivityId && left.repository == right.repository
    && left.prNumber == right.prNumber && left.targetBranch == right.targetBranch
    && left.authorizedHeadSha == right.authorizedHeadSha
    && left.authorizedBaseSha == right.authorizedBaseSha && left.observedBaseSha == right.observedBaseSha
  }

  datatype DurableFacts = DurableFacts(
    expected: Candidate, candidateDecision: CandidateDecision, aggregateValidating: bool,
    recoveryCount: int, maxRecoveries: int, currentBaseSha: Commit)

  function ClassifyDurable(facts: DurableFacts): Decision
    requires !facts.candidateDecision.FactsOmitted?
  {
    if !facts.aggregateValidating then Skip
    else match facts.candidateDecision
      case SkipCandidate => Ineligible
      case RetryCandidate(_, retryClass) => Retry(retryClass)
      case RefuseCandidate(_) => Ineligible
      case Inspect(candidate) =>
        if !CandidatesMatch(candidate, facts.expected) then Ineligible
        else if facts.recoveryCount >= facts.maxRecoveries then Exhausted
        else Queue(facts.expected, facts.currentBaseSha)
  }

  // One whole pass: a decision to stop at any stage is the decision.
  function Classify(e: Evidence, before: Facts, remote: Candidate -> FreshFacts, after: Facts,
                    validating: bool, recoveryCount: int, maxRecoveries: int): Decision
    requires !ClassifyCandidate(e, before).FactsOmitted? && !ClassifyCandidate(e, after).FactsOmitted?
  {
    match ClassifyCandidate(e, before)
    case SkipCandidate => Skip
    case RetryCandidate(_, retryClass) => Retry(retryClass)
    case RefuseCandidate(_) => Ineligible
    case Inspect(candidate) =>
      var decision := ClassifyFresh(remote(candidate));
      if !decision.Queue? then decision
      else ClassifyDurable(DurableFacts(decision.candidate, ClassifyCandidate(e, after), validating,
                                        recoveryCount, maxRecoveries, decision.currentBaseSha))
  }

  // Whether a stored hold still keeps this candidate from being read.
  predicate RecoveryDeferred(facts: Facts, now: int) {
    && facts.existingAttempt.Some? && facts.existingAttempt.value.status == "VALIDATING"
    && facts.existingAttempt.value.nextEligibleAt.Some? && facts.existingAttempt.value.nextEligibleAt.value > now
  }

  /* ------------------------------- soundness ---------------------------- */

  // A read of the repository: the comparisons it delivers are the host's.
  predicate TruthfulRead(g: Graph, candidate: Candidate, facts: FreshFacts)
    requires Valid(g)
  {
    facts.SnapshotRead? ==>
      && facts.candidate == candidate
      && (facts.snapshot.baseSha.Some? && IsSha(facts.snapshot.baseSha.value) ==>
        var base := facts.snapshot.baseSha.value;
        && base in g.parents && candidate.authorizedBaseSha in g.parents && candidate.observedBaseSha in g.parents
        && (facts.authorizedAdvance.Some?
           ==> facts.authorizedAdvance.value == Compare(g, candidate.authorizedBaseSha, base))
        && (facts.observedAdvance.Some? ==> facts.observedAdvance.value == Compare(g, candidate.observedBaseSha, base)))
  }

  // The bases a queued recovery may start from.
  ghost predicate Advanced(g: Graph, candidate: Candidate, base: Commit) {
    && DescendsFrom(g, base, candidate.authorizedBaseSha) && DescendsFrom(g, base, candidate.observedBaseSha)
    && (base == candidate.authorizedBaseSha ==> candidate.observedBaseSha == base)
  }

  lemma ReachesItself(g: Graph, c: Commit)
    requires Valid(g) && c in g.parents
    ensures DescendsFrom(g, c, c)
  {
    AncestorIffPath(g, c, c);
  }

  lemma ComparedAhead(g: Graph, base: Commit, head: Commit)
    requires Valid(g) && base in g.parents && head in g.parents
    ensures var c := Compare(g, base, head);
            && ((c.status == Ahead && c.behindBy == 0) <==> (base != head && DescendsFrom(g, head, base)))
            && ((c.status == Ahead || c.status == Identical) && c.behindBy == 0 <==> DescendsFrom(g, head, base))
  {
    NotBehindIffDescends(g, base, head);
  }

  // A complete read queues exactly when the pull request is still the authorized
  // one and its base descends from both bases the candidate rests on.
  lemma FreshQueuesIff(g: Graph, candidate: Candidate, facts: FreshFacts)
    requires Valid(g) && facts.SnapshotRead? && TruthfulRead(g, candidate, facts)
    requires facts.comparisonAvailable && facts.authorizedAdvance.Some? && facts.observedAdvance.Some?
    ensures ClassifyFresh(facts).Queue? <==>
      && StillAuthorized(candidate, facts.snapshot)
      && facts.snapshot.baseSha.Some? && IsSha(facts.snapshot.baseSha.value)
      && Advanced(g, candidate, facts.snapshot.baseSha.value)
  {
    if facts.snapshot.baseSha.Some? && IsSha(facts.snapshot.baseSha.value) {
      var base := facts.snapshot.baseSha.value;
      ComparedAhead(g, candidate.authorizedBaseSha, base);
      ComparedAhead(g, candidate.observedBaseSha, base);
      ReachesItself(g, base);
    }
  }

  lemma FreshQueueAdvanced(g: Graph, candidate: Candidate, facts: FreshFacts)
    requires Valid(g) && TruthfulRead(g, candidate, facts) && ClassifyFresh(facts).Queue?
    ensures facts.SnapshotRead? && ClassifyFresh(facts).candidate == candidate
    ensures StillAuthorized(candidate, facts.snapshot)
        && Some(ClassifyFresh(facts).currentBaseSha) == facts.snapshot.baseSha
    ensures Advanced(g, candidate, ClassifyFresh(facts).currentBaseSha)
  {
    var base := facts.snapshot.baseSha.value;
    ComparedAhead(g, candidate.authorizedBaseSha, base);
    ComparedAhead(g, candidate.observedBaseSha, base);
    ReachesItself(g, base);
  }

  // What the durable facts of an inspected candidate agree on.
  lemma InspectedAgrees(e: Evidence, facts: Facts)
    requires ClassifyCandidate(e, facts).Inspect?
    ensures var c := ClassifyCandidate(e, facts).candidate;
            && facts.activeRunCount == Some(0) && facts.readiness.Some?
               && facts.target == Some(Resolved(c.repository, c.prNumber))
            && facts.readiness.value.outputCommitSha == Some(c.authorizedHeadSha)
            && facts.firstRunTargetRef == Some(c.targetBranch)
            && facts.output.Some? && facts.output.value.runId == Some(c.sourceRunId)
            && facts.intents.Some?
            && forall i, j | 0 <= i < j < |facts.intents.value| ::
                 !(facts.intents.value[i].sourceRunId == Some(c.sourceRunId)
                     && facts.intents.value[j].sourceRunId == Some(c.sourceRunId))
    ensures var c := ClassifyCandidate(e, facts).candidate;
            forall intent | intent in facts.intents.value && intent.sourceRunId == Some(c.sourceRunId) ::
              && intent.authorizationActivityId == Some(c.authorizationActivityId)
              && intent.prNumber == Some(c.prNumber) && intent.headSha == Some(c.authorizedHeadSha)
  {
    var run := facts.sourceRun.value;
    OfRunMembers(facts.intents.value, run.id);
    OfRunDistinct(facts.intents.value, run.id);
  }

  lemma {:induction false} OfRunMembers(intents: seq<Intent>, runId: string)
    ensures forall intent :: intent in OfRun(intents, runId) <==> intent in intents && intent.sourceRunId == Some(runId)
  {
    if intents != [] {
      OfRunMembers(intents[1..], runId);
      assert intents == [intents[0]] + intents[1..];
    }
  }

  lemma {:induction false} OfRunDistinct(intents: seq<Intent>, runId: string)
    requires |OfRun(intents, runId)| <= 1
    ensures forall i, j | 0 <= i < j < |intents| ::
      !(intents[i].sourceRunId == Some(runId) && intents[j].sourceRunId == Some(runId))
  {
    if intents != [] {
      OfRunDistinct(intents[1..], runId);
      OfRunMembers(intents[1..], runId);
      forall i, j | 0 <= i < j < |intents|
        ensures !(intents[i].sourceRunId == Some(runId) && intents[j].sourceRunId == Some(runId))
      {
        assert intents[j] == intents[1..][j - 1];
        if i > 0 { assert intents[i] == intents[1..][i - 1]; }
        else if intents[j].sourceRunId == Some(runId) { assert intents[j] in OfRun(intents[1..], runId); }
      }
    }
  }

  // The three stages together queue a recovery only for the candidate that was
  // inspected, unchanged in every field, at a base that descends from both of
  // its bases, with its head still authorized, and below the recovery limit.
  lemma QueueIsSound(g: Graph, e: Evidence, before: Facts, remote: Candidate -> FreshFacts, after: Facts,
                     validating: bool, recoveryCount: int, maxRecoveries: int)
    requires Valid(g)
    requires ClassifyCandidate(e, before).Inspect? ==>
      var c := ClassifyCandidate(e, before).candidate; TruthfulRead(g, c, remote(c))
    requires !ClassifyCandidate(e, before).FactsOmitted? && !ClassifyCandidate(e, after).FactsOmitted?
    requires Classify(e, before, remote, after, validating, recoveryCount, maxRecoveries).Queue?
    ensures var decision := Classify(e, before, remote, after, validating, recoveryCount, maxRecoveries);
            var c := decision.candidate;
            && ClassifyCandidate(e, before) == Inspect(c) && ClassifyCandidate(e, after) == Inspect(c)
            && validating && recoveryCount < maxRecoveries
            && remote(c).SnapshotRead? && StillAuthorized(c, remote(c).snapshot)
            && Some(decision.currentBaseSha) == remote(c).snapshot.baseSha
            && Advanced(g, c, decision.currentBaseSha)
            && after.readiness.Some? && after.readiness.value.outputCommitSha == remote(c).snapshot.headRefOid
  {
    var c := ClassifyCandidate(e, before).candidate;
    FreshQueueAdvanced(g, c, remote(c));
    InspectedAgrees(e, after);
  }

  // Nothing but an active Run of the chain keeps the candidate from inspection.
  predicate OnlyBusy(e: Evidence, facts: Facts) {
    && facts.activeRunCount.Some? && facts.activeRunCount.value != 0
    && ClassifyCandidate(e, facts.(activeRunCount := Some(0))).Inspect?
  }

  lemma ActiveChainWaits(e: Evidence, facts: Facts)
    requires OnlyBusy(e, facts)
    ensures ClassifyCandidate(e, facts) == RetryCandidate(ChainActive, Waiting)
  {
  }
}
