// What a persisted output has to be, said of the store alone.
module CanonicalMeaning {
  import opened Prelude
  import opened StepKinds
  import opened CanonicalOutput
  import opened CanonicalOutputRuns
  import opened CanonicalFixStep
  import opened CanonicalExact

  /* ------------------------ the layer under review ----------------------- */

  predicate SameChain(other: Task, task: Task) {
    && task.chainId.Some? && task.chainId.value != ""
    && other.chainId == task.chainId && other.projectId == task.projectId
  }

  // The greatest layer of the chain below the task's own.
  predicate LayerBelow(s: Store, task: Task, layer: int) {
    && task.chainLayer.Some? && layer < task.chainLayer.value
    && (exists id | id in s.tasks :: SameChain(s.tasks[id], task) && s.tasks[id].chainLayer == Some(layer))
    && forall id | id in s.tasks && SameChain(s.tasks[id], task) && s.tasks[id].chainLayer.Some? ::
         s.tasks[id].chainLayer.value < task.chainLayer.value ==> s.tasks[id].chainLayer.value <= layer
  }

  lemma ReviewLayerMeans(s: Store, task: Task, layer: int)
    ensures ReviewLayer(s.tasks, task) == Some(layer) <==> LayerBelow(s, task, layer)
  {
    var layers := EarlierLayers(s.tasks, task);
    EarlierMeans(s, task);
    if exists l :: l in layers {
      HasHighest(layers);
    }
    if LayerBelow(s, task, layer) { assert Highest(layers, layer); }
  }

  lemma EarlierMeans(s: Store, task: Task)
    ensures forall layer :: layer in EarlierLayers(s.tasks, task) <==>
      task.chainLayer.Some? && layer < task.chainLayer.value
      && exists id | id in s.tasks :: SameChain(s.tasks[id], task) && s.tasks[id].chainLayer == Some(layer)
  {
    forall layer | task.chainLayer.Some? && layer < task.chainLayer.value
        && exists id | id in s.tasks :: SameChain(s.tasks[id], task) && s.tasks[id].chainLayer == Some(layer)
      ensures layer in EarlierLayers(s.tasks, task)
    {
      var id :| id in s.tasks && SameChain(s.tasks[id], task) && s.tasks[id].chainLayer == Some(layer);
      assert InChain(s.tasks[id], task);
    }
  }

  /* ------------------------- the reports there --------------------------- */

  // A task of the chain, on this layer, whose step plays the role.
  predicate Reviewer(s: Store, task: Task, layer: int, role: StepRole, id: string) {
    && id in s.tasks && SameChain(s.tasks[id], task) && s.tasks[id].chainLayer == Some(layer)
    && s.tasks[id].step.Some? && RoleOf(s.tasks[id].step.value.outputKind) == Some(role)
  }

  // A step of this role of the fix step's own template is in the chain at all.
  predicate Owed(s: Store, task: Task, role: StepRole) {
    exists id | id in s.tasks && s.tasks[id].step.Some? :: SameChain(s.tasks[id], task) && task.step.Some?
      && RoleOf(s.tasks[id].step.value.outputKind) == Some(role)
      && s.tasks[id].step.value.templateId == task.step.value.templateId
  }

  // The task's stored output is of its own kind, written by a Run of its own; a
  // Run of it that succeeded ended at the very commit the fix starts from; and the
  // report in it is of that commit.
  predicate Stands(c: Contracts, s: Store, source: string, id: string, review: ReviewArtifact)
    requires id in s.tasks && s.tasks[id].step.Some?
  {
    && id in s.outputs
    && var output := s.outputs[id];
    && output.kind == s.tasks[id].step.value.outputKind
    && output.runId.Some? && output.runId.value in s.runs && s.runs[output.runId.value].taskId == id
    && output.commitSha == Some(source)
    && (exists run | run in s.runs :: s.runs[run] == Run(id, Succeeded, Some(source)))
    && c.review(output.body) == Some(review)
    && review.headSha == source && review.reviewedHead == source
  }

  // Exactly one task of the role is on the layer, and its report stands.
  predicate OneReport(c: Contracts, s: Store, task: Task, layer: int, role: StepRole, source: string,
                      review: ReviewArtifact) {
    exists id | id in s.tasks ::
      && Reviewer(s, task, layer, role, id) && Stands(c, s, source, id, review)
      && forall other | other in s.tasks && Reviewer(s, task, layer, role, other) :: other == id
  }

  // None is on the layer, and none is owed.
  predicate NoReport(s: Store, task: Task, layer: int, role: StepRole) {
    !Owed(s, task, role) && forall id | id in s.tasks :: !Reviewer(s, task, layer, role, id)
  }

  lemma StandsMeans(c: Contracts, s: Store, fix: FixedArtifact, role: StepRole, id: string, review: ReviewArtifact)
    requires id in s.tasks && s.tasks[id].step.Some?
    ensures ReportOf(c, s, fix, role, id) == Reports(review) <==> Stands(c, s, fix.sourceHead, id, review)
    ensures ReportOf(c, s, fix, role, id) != Excused
  {
    if SucceededAt(s.runs, id, fix.sourceHead) {
      var run :| run in s.runs && s.runs[run].taskId == id && s.runs[run].status == Succeeded
        && s.runs[run].headSha == Some(fix.sourceHead);
      assert s.runs[run] == Run(id, Succeeded, Some(fix.sourceHead));
    }
  }

  lemma ReviewerMeans(s: Store, task: Task, layer: int, role: StepRole)
    ensures forall id :: id in Siblings(s.tasks, task, layer, role) <==> Reviewer(s, task, layer, role, id)
    ensures Instantiated(s.tasks, task, role) <==> Owed(s, task, role)
  {
    if Owed(s, task, role) {
      var id :| id in s.tasks && s.tasks[id].step.Some? && SameChain(s.tasks[id], task) && task.step.Some?
        && RoleOf(s.tasks[id].step.value.outputKind) == Some(role)
        && s.tasks[id].step.value.templateId == task.step.value.templateId;
      assert InChain(s.tasks[id], task) && RoleIs(s.tasks[id].step, role);
    }
  }

  lemma SiblingMeans(c: Contracts, s: Store, task: Task, fix: FixedArtifact, layer: int, role: StepRole,
                     review: ReviewArtifact)
    ensures SiblingReport(c, s, task, fix, layer, role) == Reports(review) <==>
      OneReport(c, s, task, layer, role, fix.sourceHead, review)
    ensures SiblingReport(c, s, task, fix, layer, role) == Excused <==> NoReport(s, task, layer, role)
  {
    var matches := Siblings(s.tasks, task, layer, role);
    ReviewerMeans(s, task, layer, role);
    if exists id | id in matches :: matches == {id} {
      var id :| id in matches && matches == {id};
      LoneReviewer(c, s, task, fix, layer, role, id, review);
    } else {
      if OneReport(c, s, task, layer, role, fix.sourceHead, review) {
        OneReportIsSibling(c, s, task, layer, role, fix.sourceHead, review);
      }
    }
  }

  lemma LoneReviewer(c: Contracts, s: Store, task: Task, fix: FixedArtifact, layer: int, role: StepRole, id: string,
                     review: ReviewArtifact)
    requires Siblings(s.tasks, task, layer, role) == {id}
    ensures SiblingReport(c, s, task, fix, layer, role) == Reports(review) <==>
      OneReport(c, s, task, layer, role, fix.sourceHead, review)
    ensures SiblingReport(c, s, task, fix, layer, role) != Excused && !NoReport(s, task, layer, role)
  {
    ReviewerMeans(s, task, layer, role);
    OnlyReviewer(s, task, layer, role, id);
    OneSibling(c, s, task, fix, layer, role, id);
    StandsMeans(c, s, fix, role, id, review);
    LoneReport(c, s, task, layer, role, fix.sourceHead, id, review);
  }

  lemma OnlyReviewer(s: Store, task: Task, layer: int, role: StepRole, id: string)
    requires Siblings(s.tasks, task, layer, role) == {id}
    ensures id in s.tasks && Reviewer(s, task, layer, role, id)
    ensures forall other | other in s.tasks && Reviewer(s, task, layer, role, other) :: other == id
  {
    ReviewerMeans(s, task, layer, role);
    assert id in Siblings(s.tasks, task, layer, role);
    forall other | other in s.tasks && Reviewer(s, task, layer, role, other)
      ensures other == id
    {
      assert other in Siblings(s.tasks, task, layer, role);
    }
  }

  lemma LoneReport(c: Contracts, s: Store, task: Task, layer: int, role: StepRole, source: string, id: string,
                   review: ReviewArtifact)
    requires id in s.tasks && Reviewer(s, task, layer, role, id)
    requires forall other | other in s.tasks && Reviewer(s, task, layer, role, other) :: other == id
    ensures OneReport(c, s, task, layer, role, source, review) <==> Stands(c, s, source, id, review)
  {
  }

  lemma OneReportIsSibling(c: Contracts, s: Store, task: Task, layer: int, role: StepRole, source: string,
                           review: ReviewArtifact)
    requires OneReport(c, s, task, layer, role, source, review)
    ensures exists id | id in Siblings(s.tasks, task, layer, role) :: Siblings(s.tasks, task, layer, role) == {id}
  {
    ReviewerMeans(s, task, layer, role);
    var id :| id in s.tasks && Reviewer(s, task, layer, role, id)
      && forall other | other in s.tasks && Reviewer(s, task, layer, role, other) :: other == id;
    assert id in Siblings(s.tasks, task, layer, role);
    assert forall other | other in Siblings(s.tasks, task, layer, role) :: other in s.tasks;
    assert Siblings(s.tasks, task, layer, role) == {id};
  }

  /* --------------------------- an accepted fix --------------------------- */

  // At least one report, one reviewed base among them, and a disposition for
  // exactly the findings in them.
  ghost predicate Accounts(fix: FixedArtifact, reports: seq<ReviewArtifact>) {
    && reports != [] && (forall i, j | 0 <= i < |reports| && 0 <= j < |reports| ::
        reports[i].reviewedBase == reports[j].reviewedBase)
    && forall id :: Disposed(fix.dispositions, id) <==> Found(reports, id)
  }

  predicate Disposed(dispositions: seq<Disposition>, id: string) {
    exists d :: d in dispositions && d.id == id
  }

  predicate Found(reports: seq<ReviewArtifact>, id: string) {
    exists i | 0 <= i < |reports| :: exists finding :: finding in reports[i].findings && finding.id == id
  }

  ghost predicate Settled(c: Contracts, s: Store, task: Task, layer: int, role: StepRole, source: string,
                    report: seq<ReviewArtifact>) {
    if report == [] then NoReport(s, task, layer, role)
    else |report| == 1 && OneReport(c, s, task, layer, role, source, report[0])
  }

  // What a fix must be: of a chain, on a layer with reviews just below it; each of
  // the two kinds of report standing there at the fix's own source, or owed by
  // nobody; and the reports accounted for.
  ghost predicate FixFits(c: Contracts, s: Store, task: Task, body: string) {
    && c.fixed(body).Some? && task.chainId.Some? && task.chainId.value != ""
    && exists layer, reviewed, blind ::
      && LayerBelow(s, task, layer)
      && Settled(c, s, task, layer, ReviewFindings, c.fixed(body).value.sourceHead, reviewed)
      && Settled(c, s, task, layer, BlindFindings, c.fixed(body).value.sourceHead, blind)
      && Accounts(c.fixed(body).value, reviewed + blind)
  }

  lemma CoverMeans(fix: FixedArtifact, reports: seq<ReviewArtifact>)
    ensures CoverRefusal(fix, reports) == None <==> Accounts(fix, reports)
  {
    forall id
      ensures id in AllFindingIds(reports) <==> Found(reports, id)
      ensures id in Elements(DispositionIds(fix.dispositions)) <==> Disposed(fix.dispositions, id)
    {
      FindingIdsMean(reports, id);
      DispositionIdsMean(fix.dispositions, id);
    }
    var found, covered := AllFindingIds(reports), Elements(DispositionIds(fix.dispositions));
    assert found == covered <==> forall id :: id in found <==> id in covered;
    assert reports != [] ==> ((exists i | 0 <= i < |reports| :: reports[i].reviewedBase != reports[0].reviewedBase)
      <==> exists i, j | 0 <= i < |reports| && 0 <= j < |reports| ::
             reports[i].reviewedBase != reports[j].reviewedBase);
  }

  lemma FindingIdsMean(reports: seq<ReviewArtifact>, id: string)
    ensures id in AllFindingIds(reports) <==> Found(reports, id)
  {
    if Found(reports, id) {
      var i :| 0 <= i < |reports| && exists finding :: finding in reports[i].findings && finding.id == id;
      var finding :| finding in reports[i].findings && finding.id == id;
      var j :| 0 <= j < |reports[i].findings| && reports[i].findings[j] == finding;
      assert reports[i].findings[j].id in AllFindingIds(reports);
    }
    if id in AllFindingIds(reports) {
      var i, j :| 0 <= i < |reports| && 0 <= j < |reports[i].findings| && reports[i].findings[j].id == id;
      assert reports[i].findings[j] in reports[i].findings;
    }
  }

  lemma DispositionIdsMean(dispositions: seq<Disposition>, id: string)
    ensures id in Elements(DispositionIds(dispositions)) <==> Disposed(dispositions, id)
  {
    var ids := DispositionIds(dispositions);
    if d :| d in dispositions && d.id == id {
      var i :| 0 <= i < |dispositions| && dispositions[i] == d;
      assert ids[i] == id;
    }
    if id in Elements(ids) {
      var i :| 0 <= i < |ids| && ids[i] == id;
      assert dispositions[i] in dispositions;
    }
  }

  lemma ReportedSettled(c: Contracts, s: Store, task: Task, fix: FixedArtifact, layer: int, role: StepRole,
                        report: seq<ReviewArtifact>)
    ensures var sibling := SiblingReport(c, s, task, fix, layer, role);
            !sibling.Unusable? && Reported(sibling) == report <==>
            Settled(c, s, task, layer, role, fix.sourceHead, report)
  {
    var sibling := SiblingReport(c, s, task, fix, layer, role);
    if |report| == 1 {
      SiblingMeans(c, s, task, fix, layer, role, report[0]);
      assert report == [report[0]];
    } else if sibling.Reports? {
      SiblingMeans(c, s, task, fix, layer, role, sibling.review);
    } else {
      SiblingMeans(c, s, task, fix, layer, role, ReviewArtifact("", "", "", []));
    }
  }

  // A fix is accepted exactly when it fits.
  lemma FixAcceptedIff(c: Contracts, s: Store, task: Task, body: string)
    ensures FixRefusal(c, s, task, body) == None <==> FixFits(c, s, task, body)
  {
    if c.fixed(body).Some? && task.chainId.Some? && task.chainId.value != "" {
      if FixRefusal(c, s, task, body) == None { AcceptedFits(c, s, task, body); }
      if FixFits(c, s, task, body) { FittingAccepted(c, s, task, body); }
    }
  }

  lemma AcceptedFits(c: Contracts, s: Store, task: Task, body: string)
    requires FixRefusal(c, s, task, body) == None
    ensures FixFits(c, s, task, body)
  {
    var fix, layer := c.fixed(body).value, ReviewLayer(s.tasks, task).value;
    ReviewLayerMeans(s, task, layer);
    var reviewed := Reported(SiblingReport(c, s, task, fix, layer, ReviewFindings));
    var blind := Reported(SiblingReport(c, s, task, fix, layer, BlindFindings));
    ReportedSettled(c, s, task, fix, layer, ReviewFindings, reviewed);
    ReportedSettled(c, s, task, fix, layer, BlindFindings, blind);
    CoverMeans(fix, reviewed + blind);
  }

  lemma FittingAccepted(c: Contracts, s: Store, task: Task, body: string)
    requires FixFits(c, s, task, body)
    ensures FixRefusal(c, s, task, body) == None
  {
    var fix := c.fixed(body).value;
    var layer, reviewed, blind :| LayerBelow(s, task, layer)
      && Settled(c, s, task, layer, ReviewFindings, fix.sourceHead, reviewed)
      && Settled(c, s, task, layer, BlindFindings, fix.sourceHead, blind) && Accounts(fix, reviewed + blind);
    ReviewLayerMeans(s, task, layer);
    ReportedSettled(c, s, task, fix, layer, ReviewFindings, reviewed);
    ReportedSettled(c, s, task, fix, layer, BlindFindings, blind);
    CoverMeans(fix, reviewed + blind);
    AcceptedFromSiblings(c, s, task, body, fix, layer);
  }

  lemma AcceptedFromSiblings(c: Contracts, s: Store, task: Task, body: string, fix: FixedArtifact, layer: int)
    requires c.fixed(body) == Some(fix) && task.chainId.Some? && task.chainId.value != "" && task.chainLayer.Some?
    requires ReviewLayer(s.tasks, task) == Some(layer)
    requires !SiblingReport(c, s, task, fix, layer, ReviewFindings).Unusable?
    requires !SiblingReport(c, s, task, fix, layer, BlindFindings).Unusable?
    requires CoverRefusal(fix, Reported(SiblingReport(c, s, task, fix, layer, ReviewFindings))
                               + Reported(SiblingReport(c, s, task, fix, layer, BlindFindings))) == None
    ensures FixRefusal(c, s, task, body) == None
  {
  }

  /* ----------------------- what a body has to be ------------------------- */

  predicate MustBeFixed(findings: seq<Finding>, id: string) {
    exists f | f in findings :: f.id == id && (f.severity.P0? || f.severity.P1?)
  }

  // The body satisfies the contract of its step's kind and phase, names the commit
  // it was authored at, and, under the two bare kinds, is consistent in itself.
  ghost predicate BodyFits(c: Contracts, step: Step, body: string, commit: Option<string>, phase: Option<Phase>) {
    if step.outputKind == "must-fix" && phase == Some(ClosedMustFix) then
      c.closedReview(body).Some? &&
      var closed := c.closedReview(body).value;
      && commit == Some(closed.review.headSha)
      && Distinct(FindingIds(closed.review.findings)) && Distinct(DispositionIds(closed.dispositions))
      && Distinct(closed.mustFixIds)
      && forall id :: id in closed.mustFixIds <==> MustBeFixed(closed.review.findings, id)
    else if step.outputKind == "must-fix" && phase in {Some(IndependentFindings), Some(EvidenceUnlocked)} then
      c.review(body).Some? && commit == Some(c.review(body).value.headSha)
    else if step.outputKind == "fixed-implementation" then
      c.fixed(body).Some? &&
      var fix := c.fixed(body).value;
      && commit == Some(fix.headSha) && Distinct(DispositionIds(fix.dispositions)) && Distinct(fix.closedFindings)
      && forall id :: id in fix.closedFindings <==> Disposition(id, Adopted) in fix.dispositions
    else
      commit.Some? && c.canonical(step, body) == commit
  }

  lemma BodyAcceptedIff(c: Contracts, step: Step, body: string, commit: Option<string>, phase: Option<Phase>)
    ensures BodyRefusal(c, step, body, commit, phase) == None <==> BodyFits(c, step, body, commit, phase)
  {
    if step.outputKind == MUST_FIX && phase == Some(ClosedMustFix) {
      ClosedAcceptedIff(c, step, body, commit);
    } else if step.outputKind == FIXED_IMPLEMENTATION {
      FixBodyAcceptedIff(c, step, body, commit, phase);
    }
  }

  lemma ClosedAcceptedIff(c: Contracts, step: Step, body: string, commit: Option<string>)
    requires step.outputKind == MUST_FIX
    ensures BodyRefusal(c, step, body, commit, Some(ClosedMustFix)) == None <==>
      BodyFits(c, step, body, commit, Some(ClosedMustFix))
  {
    if c.closedReview(body).Some? { ClosedFitsIff(c.closedReview(body).value); }
  }

  lemma ClosedFitsIff(closed: ClosedReview)
    ensures ClosedSelfRefusal(closed) == None <==>
      && Distinct(FindingIds(closed.review.findings)) && Distinct(DispositionIds(closed.dispositions))
      && Distinct(closed.mustFixIds)
      && forall id :: id in closed.mustFixIds <==> MustBeFixed(closed.review.findings, id)
  {
    ClosedSelfMeaning(closed);
    forall id
      ensures MustBeFixed(closed.review.findings, id) <==>
        exists f | f in closed.review.findings :: f.id == id && f.severity != P2
    {
    }
  }

  lemma FixBodyAcceptedIff(c: Contracts, step: Step, body: string, commit: Option<string>, phase: Option<Phase>)
    requires step.outputKind == FIXED_IMPLEMENTATION
    ensures BodyRefusal(c, step, body, commit, phase) == None <==> BodyFits(c, step, body, commit, phase)
  {
    assert FIXED_IMPLEMENTATION != MUST_FIX by { assert |FIXED_IMPLEMENTATION| == 20; }
    if c.fixed(body).Some? { FixedSelfMeaning(c.fixed(body).value); }
  }

  /* ---------------------- the three phases of a review ------------------- */

  // The same Run goes from its findings, by repeating them, to the evidence, and
  // from there to a closed review of the same range that disposes of them all.
  ghost predicate SequenceFits(c: Contracts, row: Option<Output>, input: Input) {
    var own := row.Some? && row.value.runId == Some(input.runId);
    match MetadataPhase(input.metadata)
    case Some(IndependentFindings) => own ==> MetadataPhase(row.value.metadata) == Some(IndependentFindings)
    case Some(EvidenceUnlocked) =>
      own && MetadataPhase(row.value.metadata) == Some(IndependentFindings) && row.value.body == input.body
    case Some(ClosedMustFix) =>
      && own && MetadataPhase(row.value.metadata) == Some(EvidenceUnlocked)
      && c.review(row.value.body).Some? && c.closedReview(input.body).Some?
      && var before, closed := c.review(row.value.body).value, c.closedReview(input.body).value;
      && closed.review.headSha == before.headSha && closed.review.reviewedBase == before.reviewedBase
      && closed.review.reviewedHead == before.reviewedHead
      && forall f | f in before.findings :: Disposed(closed.dispositions, f.id)
    case _ => false
  }

  lemma SequenceAcceptedIff(c: Contracts, row: Option<Output>, input: Input)
    ensures BlindRefusal(c, row, input) == None <==> SequenceFits(c, row, input)
  {
    if row.Some? && c.review(row.value.body).Some? && c.closedReview(input.body).Some? {
      CoveredMeans(c.review(row.value.body).value.findings, c.closedReview(input.body).value.dispositions);
    }
  }

  lemma CoveredMeans(findings: seq<Finding>, dispositions: seq<Disposition>)
    ensures Elements(FindingIds(findings)) <= Elements(DispositionIds(dispositions)) <==>
      forall f | f in findings :: Disposed(dispositions, f.id)
  {
    var ids, covered := FindingIds(findings), Elements(DispositionIds(dispositions));
    forall id
      ensures id in covered <==> Disposed(dispositions, id)
    {
      DispositionIdsMean(dispositions, id);
    }
    forall f | f in findings
      ensures f.id in Elements(ids)
    {
      var i :| 0 <= i < |findings| && findings[i] == f;
      assert ids[i] == f.id;
    }
    forall id | id in Elements(ids)
      ensures exists f :: f in findings && f.id == id
    {
      var i :| 0 <= i < |ids| && ids[i] == id;
      assert findings[i] in findings;
    }
  }

  /* --------------------------- one persist call -------------------------- */

  predicate RoleAmong(step: Step, roles: set<StepRole>) {
    RoleOf(step.outputKind).Some? && RoleOf(step.outputKind).value in roles
  }

  // What the step of a task asks of a write to it.
  ghost predicate StepFits(c: Contracts, s: Store, task: Task, step: Step, row: Option<Output>, input: Input) {
    && step.outputKind != "sol-findings"
    && (RoleOf(step.outputKind) !in {None, Some(Readiness), Some(Integrator)} ==>
        input.kind == step.outputKind
        && BodyFits(c, step, input.body, input.commitSha, MetadataPhase(input.metadata)))
    && (RoleAmong(step, {ReviewFindings, BlindFindings}) ==> row == None)
    && (RoleAmong(step, {FixedImplementation}) ==> FixFits(c, s, task, input.body))
    && (RoleAmong(step, {MustFix}) ==> SequenceFits(c, row, input))
  }

  lemma StepAcceptedIff(c: Contracts, s: Store, task: Task, step: Step, input: Input)
    requires task.step == Some(step) && input.kind != "sol-findings"
    ensures var row := if input.taskId in s.outputs then Some(s.outputs[input.taskId]) else None;
            PersistRefusal(c, s, task, input) == None <==> StepFits(c, s, task, step, row, input)
  {
    var row := if input.taskId in s.outputs then Some(s.outputs[input.taskId]) else None;
    BodyAcceptedIff(c, step, input.body, input.commitSha, MetadataPhase(input.metadata));
    FixAcceptedIff(c, s, task, input.body);
    SequenceAcceptedIff(c, row, input);
    StepChecks(c, s, task, step, input);
  }

  lemma StepChecks(c: Contracts, s: Store, task: Task, step: Step, input: Input)
    requires task.step == Some(step) && input.kind != RETIRED_KIND
    ensures PersistRefusal(c, s, task, input) == None <==>
      && step.outputKind != RETIRED_KIND
      && (CanonicalAgentKind(step.outputKind) ==>
          input.kind == step.outputKind
          && BodyRefusal(c, step, input.body, input.commitSha, MetadataPhase(input.metadata)) == None)
      && (ImmutableOncePersisted(step.outputKind) ==> input.taskId !in s.outputs)
      && (RoleIs(task.step, FixedImplementation) ==> FixRefusal(c, s, task, input.body) == None)
      && (RoleIs(task.step, MustFix) ==> BlindRefusal(c, Existing(s, input.taskId), input) == None)
  {
  }

  // A write is accepted exactly from the task's live Run, of no retired kind, and
  // where the step has a role: of the step's kind, with a body that fits, once
  // only for a findings report, and fitting the reports or the sequence it ends.
  lemma AcceptedIff(c: Contracts, s: Store, input: Input)
    ensures PersistStep(c, s, input).1.Accepted? <==>
      && input.taskId in s.tasks && input.runId in s.runs && s.runs[input.runId].taskId == input.taskId
      && s.runs[input.runId].status == Live && input.kind != "sol-findings"
      && var task := s.tasks[input.taskId];
      && var row := if input.taskId in s.outputs then Some(s.outputs[input.taskId]) else None;
      && (task.step.Some? ==> StepFits(c, s, task, task.step.value, row, input))
  {
    if Authorized(s, input) && s.tasks[input.taskId].step.Some? && input.kind != "sol-findings" {
      StepAcceptedIff(c, s, s.tasks[input.taskId], s.tasks[input.taskId].step.value, input);
    }
  }

  // What an accepted write leaves: its own row, with the earlier commit and
  // metadata where it brings none, and every other row as it was.
  lemma AcceptedStores(c: Contracts, s: Store, input: Input)
    requires PersistStep(c, s, input).1.Accepted?
    ensures var (t, outcome) := PersistStep(c, s, input);
            && t.tasks == s.tasks && t.runs == s.runs && t.outputs.Keys == s.outputs.Keys + {input.taskId}
            && (forall id | id in s.outputs && id != input.taskId :: t.outputs[id] == s.outputs[id])
            && outcome.output == t.outputs[input.taskId]
            && outcome.output.runId == Some(input.runId)
            && outcome.output.kind == input.kind && outcome.output.body == input.body
            && (input.commitSha.Some? && input.commitSha.value != "" ==> outcome.output.commitSha == input.commitSha)
            && (input.commitSha in {None, Some("")} && input.taskId in s.outputs ==>
                outcome.output.commitSha == s.outputs[input.taskId].commitSha)
            && (input.taskId !in s.outputs ==> outcome.output.commitSha == input.commitSha)
            && (input.metadata.Some? || input.taskId !in s.outputs ==> outcome.output.metadata == input.metadata)
            && (input.metadata == None && input.taskId in s.outputs ==>
                outcome.output.metadata == s.outputs[input.taskId].metadata)
  {
  }
}
