// Persisting a step's canonical output: the stored row of each task, the fenced
// Run that may write it, and the checks a body has to pass first.
module CanonicalOutput {
  import opened Prelude
  import opened StepKinds

  /* ------------------------------ artifacts ----------------------------- */

  datatype Severity = P0 | P1 | P2

  datatype Finding = Finding(id: string, severity: Severity)

  datatype Decision = Adopted | Rejected | Merged

  datatype Disposition = Disposition(id: string, decision: Decision)

  datatype ReviewArtifact = ReviewArtifact(headSha: string, reviewedBase: string, reviewedHead: string,
      findings: seq<Finding>)

  datatype ClosedReview = ClosedReview(review: ReviewArtifact, dispositions: seq<Disposition>, mustFixIds: seq<string>)

  datatype FixedArtifact = FixedArtifact(
    headSha: string, sourceHead: string, dispositions: seq<Disposition>, closedFindings: seq<string>)

  datatype Step = Step(id: string, templateId: string, templateName: string, outputKind: string)

  // What the JSON contracts make of a body. `canonical` gives the head named by
  // a body that satisfies the step's own versioned schema.
  datatype Contracts = Contracts(
    review: string -> Option<ReviewArtifact>,
    closedReview: string -> Option<ClosedReview>,
    fixed: string -> Option<FixedArtifact>,
    canonical: (Step, string) -> Option<string>)

  datatype Phase = IndependentFindings | EvidenceUnlocked | ClosedMustFix | OtherPhase(text: string)

  datatype Metadata = Metadata(phase: Option<Phase>)

  function MetadataPhase(metadata: Option<Metadata>): Option<Phase> {
    if metadata.Some? then metadata.value.phase else None
  }

  datatype Refusal =
    | RetiredKind
    | WrongKind
    | Immutable
    | BodyViolatesContract
    | HeadMismatch
    | DuplicateFindings | DuplicateDispositions | DuplicateMustFix | MustFixNotExact
    | DuplicateClosed | ClosedNotAdopted
    | NoReviewBoundary | NoReviewLayer
    | SiblingMissing(role: StepRole) | SiblingUnbacked(role: StepRole) | SiblingViolatesContract(role: StepRole)
    | SourceHeadMismatch(role: StepRole)
    | NoSiblingReport | SiblingBasesDisagree | NotExactCover
    | PhaseMissing | NotIndependentYet | BodyNotRepeated | NotUnlockedYet | RangeChanged | FindingsUncovered
    | CannotReturnToIndependent

  /* ------------------------ self-consistency checks --------------------- */

  function Duplicates(values: seq<string>): set<string> {
    set i, j | 0 <= i < j < |values| && values[i] == values[j] :: values[i]
  }

  predicate Distinct(values: seq<string>) {
    forall i, j | 0 <= i < j < |values| :: values[i] != values[j]
  }

  lemma NoDuplicates(values: seq<string>)
    ensures Duplicates(values) == {} <==> Distinct(values)
  {
    if !Distinct(values) {
      var i, j :| 0 <= i < j < |values| && values[i] == values[j];
      assert values[i] in Duplicates(values);
    }
  }

  method DuplicateValues(values: seq<string>) returns (duplicates: set<string>)
    ensures duplicates == Duplicates(values)
  {
    var seen: set<string> := {};
    duplicates := {};
    for k := 0 to |values|
      invariant seen == set i | 0 <= i < k :: values[i]
      invariant duplicates == Duplicates(values[..k])
    {
      ghost var before := duplicates;
      if values[k] in seen { duplicates := duplicates + {values[k]}; }
      seen := seen + {values[k]};
      DuplicatesGrow(values, k);
    }
    assert values[..|values|] == values;
  }

  lemma DuplicatesGrow(values: seq<string>, k: nat)
    requires k < |values|
    ensures Duplicates(values[..k + 1])
            == Duplicates(values[..k]) + (if values[k] in values[..k] then {values[k]} else {})
  {
    var shorter, longer := values[..k], values[..k + 1];
    forall v | v in Duplicates(longer)
      ensures v in Duplicates(shorter) || (v == values[k] && v in shorter)
    {
      var i, j :| 0 <= i < j < |longer| && longer[i] == longer[j] && v == longer[i];
      assert longer[i] == values[i] && longer[j] == values[j];
      if j < k { assert shorter[i] == shorter[j]; } else { assert shorter[i] == values[k]; }
    }
    forall v | v in Duplicates(shorter)
      ensures v in Duplicates(longer)
    {
      var i, j :| 0 <= i < j < |shorter| && shorter[i] == shorter[j] && v == shorter[i];
      assert longer[i] == longer[j];
    }
    if values[k] in shorter {
      var i :| 0 <= i < k && shorter[i] == values[k];
      assert longer[i] == longer[k];
    }
  }

  function FindingIds(findings: seq<Finding>): seq<string> {
    seq(|findings|, i requires 0 <= i < |findings| => findings[i].id)
  }

  function DispositionIds(dispositions: seq<Disposition>): seq<string> {
    seq(|dispositions|, i requires 0 <= i < |dispositions| => dispositions[i].id)
  }

  function MustFixExpected(findings: seq<Finding>): set<string> {
    set i | 0 <= i < |findings| && findings[i].severity != P2 :: findings[i].id
  }

  function Elements(values: seq<string>): set<string> {
    set v | v in values
  }

  function AdoptedIds(dispositions: seq<Disposition>): seq<string> {
    if dispositions == [] then []
    else if dispositions[0].decision == Adopted then [dispositions[0].id] + AdoptedIds(dispositions[1..])
    else AdoptedIds(dispositions[1..])
  }

  function ClosedSelfRefusal(closed: ClosedReview): Option<Refusal> {
    if Duplicates(FindingIds(closed.review.findings)) != {} then Some(DuplicateFindings)
    else if Duplicates(DispositionIds(closed.dispositions)) != {} then Some(DuplicateDispositions)
    else if Duplicates(closed.mustFixIds) != {} then Some(DuplicateMustFix)
    else if MustFixExpected(closed.review.findings) != Elements(closed.mustFixIds) then Some(MustFixNotExact)
    else None
  }

  function ClosedRunRefusal(independent: ReviewArtifact, closed: ClosedReview): Option<Refusal> {
    if closed.review.headSha != independent.headSha || closed.review.reviewedBase != independent.reviewedBase
       || closed.review.reviewedHead != independent.reviewedHead then Some(RangeChanged)
    else if !(Elements(FindingIds(independent.findings)) <= Elements(DispositionIds(closed.dispositions)))
    then Some(FindingsUncovered)
    else None
  }

  // Two sorted lists of ids are the same list exactly when they hold the same
  // ids the same number of times.
  function FixedSelfRefusal(fix: FixedArtifact): Option<Refusal> {
    if Duplicates(DispositionIds(fix.dispositions)) != {} then Some(DuplicateDispositions)
    else if Duplicates(fix.closedFindings) != {} then Some(DuplicateClosed)
    else if multiset(AdoptedIds(fix.dispositions)) != multiset(fix.closedFindings) then Some(ClosedNotAdopted)
    else None
  }

  /* ------------------------------- the store ---------------------------- */

  datatype Task = Task(
    id: string, projectId: string, chainId: Option<string>, chainIndex: Option<int>, chainLayer: Option<int>,
    step: Option<Step>)

  datatype Output = Output(
    runId: Option<string>, kind: string, body: string, commitSha: Option<string>, metadata: Option<Metadata>)

  datatype RunStatus = Live | Succeeded | Stopped

  datatype Run = Run(taskId: string, status: RunStatus, headSha: Option<string>)

  // One accepted write, as the task's own history keeps it.
  datatype Write = Write(
    runId: string, kind: string, body: string, commitSha: Option<string>, phase: Option<Phase>,
    evidence: map<string, Output>)

  datatype Archived = Archived(taskId: string, runId: string, body: string)

  datatype Store = Store(
    tasks: map<string, Task>,
    runs: map<string, Run>,
    outputs: map<string, Output>,
    writes: map<string, seq<Write>>,
    archive: seq<Archived>)

  datatype Input = Input(
    taskId: string, runId: string, kind: string, body: string, commitSha: Option<string>, metadata: Option<Metadata>)

  datatype Outcome = StaleFence | Refused(refusal: Refusal) | Accepted(output: Output, evidence: map<string, Output>)

  predicate RoleIs(step: Option<Step>, role: StepRole) {
    step.Some? && RoleOf(step.value.outputKind) == Some(role)
  }

  predicate InChain(other: Task, task: Task) {
    task.chainId.Some? && task.chainId.value != "" && other.projectId == task.projectId && other.chainId == task.chainId
  }

  /* ---------------------------- the fix step ---------------------------- */

  function EarlierLayers(tasks: map<string, Task>, task: Task): set<int> {
    set id | id in tasks && InChain(tasks[id], task) && tasks[id].chainLayer.Some? && task.chainLayer.Some?
             && tasks[id].chainLayer.value < task.chainLayer.value :: tasks[id].chainLayer.value
  }

  predicate Highest(layers: set<int>, layer: int) {
    layer in layers && forall other | other in layers :: other <= layer
  }

  lemma {:induction false} HasHighest(layers: set<int>)
    requires exists layer :: layer in layers
    ensures exists layer :: Highest(layers, layer)
  {
    var layer :| layer in layers;
    var others := layers - {layer};
    if exists other :: other in others {
      HasHighest(others);
      var rest :| Highest(others, rest);
      var top := if rest < layer then layer else rest;
      forall other | other in layers
        ensures other <= top
      {
        assert other == layer || other in others;
      }
      assert Highest(layers, top);
    } else {
      assert forall other | other in layers :: other == layer || other in others;
      assert Highest(layers, layer);
    }
  }

  function ReviewLayer(tasks: map<string, Task>, task: Task): Option<int> {
    var layers := EarlierLayers(tasks, task);
    if exists layer :: layer in layers then
      HasHighest(layers);
      var layer :| Highest(layers, layer);
      Some(layer)
    else None
  }

  function Siblings(tasks: map<string, Task>, task: Task, layer: int, role: StepRole): set<string> {
    set id | id in tasks && InChain(tasks[id], task) && tasks[id].chainLayer == Some(layer)
        && RoleIs(tasks[id].step, role)
  }

  // Whether the chain instantiated a step of this role of the fix step's template.
  predicate Instantiated(tasks: map<string, Task>, task: Task, role: StepRole) {
    exists id | id in tasks ::
      InChain(tasks[id], task) && RoleIs(tasks[id].step, role) && task.step.Some?
      && tasks[id].step.value.templateId == task.step.value.templateId
  }

  predicate SucceededAt(runs: map<string, Run>, taskId: string, head: string) {
    exists run | run in runs :: runs[run].taskId == taskId && runs[run].status == Succeeded
        && runs[run].headSha == Some(head)
  }

  datatype Sibling = Excused | Unusable(refusal: Refusal) | Reports(review: ReviewArtifact)

  function ReportOf(c: Contracts, s: Store, fix: FixedArtifact, role: StepRole, id: string): Sibling
    requires id in s.tasks && s.tasks[id].step.Some?
  {
    if id !in s.outputs || s.outputs[id].kind != s.tasks[id].step.value.outputKind then Unusable(SiblingMissing(role))
    else
      var output := s.outputs[id];
      if output.runId.None? || output.runId.value !in s.runs || s.runs[output.runId.value].taskId != id
         || output.commitSha.None? || !SucceededAt(s.runs, id, output.commitSha.value)
            then Unusable(SiblingUnbacked(role))
      else match c.review(output.body)
        case None => Unusable(SiblingViolatesContract(role))
        case Some(report) =>
          if output.commitSha.value != fix.sourceHead || report.headSha != fix.sourceHead
              || report.reviewedHead != fix.sourceHead
          then Unusable(SourceHeadMismatch(role))
          else Reports(report)
  }

  function SiblingReport(c: Contracts, s: Store, task: Task, fix: FixedArtifact, layer: int, role: StepRole): Sibling {
    var matches := Siblings(s.tasks, task, layer, role);
    if matches == {} then
      if Instantiated(s.tasks, task, role) then Unusable(SiblingMissing(role)) else Excused
    else if exists id | id in matches :: matches == {id} then
      var id :| id in matches && matches == {id};
      ReportOf(c, s, fix, role, id)
    else Unusable(SiblingMissing(role))
  }

  function Reported(sibling: Sibling): seq<ReviewArtifact> {
    if sibling.Reports? then [sibling.review] else []
  }

  function AllFindingIds(reports: seq<ReviewArtifact>): set<string> {
    set i, j | 0 <= i < |reports| && 0 <= j < |reports[i].findings| :: reports[i].findings[j].id
  }

  function CoverRefusal(fix: FixedArtifact, reports: seq<ReviewArtifact>): Option<Refusal> {
    if reports == [] then Some(NoSiblingReport)
    else if exists i | 0 <= i < |reports| :: reports[i].reviewedBase != reports[0].reviewedBase
    then Some(SiblingBasesDisagree)
    else if AllFindingIds(reports) != Elements(DispositionIds(fix.dispositions)) then Some(NotExactCover)
    else None
  }

  function FixRefusal(c: Contracts, s: Store, task: Task, body: string): Option<Refusal> {
    match c.fixed(body)
    case None => Some(BodyViolatesContract)
    case Some(fix) =>
      if task.chainId.None? || task.chainId.value == "" || task.chainLayer.None? then Some(NoReviewBoundary)
      else match ReviewLayer(s.tasks, task)
        case None => Some(NoReviewLayer)
        case Some(layer) =>
          var reviewed := SiblingReport(c, s, task, fix, layer, ReviewFindings);
          if reviewed.Unusable? then Some(reviewed.refusal)
          else
            var blind := SiblingReport(c, s, task, fix, layer, BlindFindings);
            if blind.Unusable? then Some(blind.refusal)
            else CoverRefusal(fix, Reported(reviewed) + Reported(blind))
  }

  /* ------------------------------ persisting ---------------------------- */

  function HeadRefusal(named: Option<string>, authored: Option<string>): Option<Refusal> {
    if named.None? then Some(BodyViolatesContract) else if named != authored then Some(HeadMismatch) else None
  }

  // The contract a body must satisfy, and then its own consistency. The checks
  // keyed on the bare kinds do not see a kind with a version suffix.
  function BodyRefusal(c: Contracts, step: Step, body: string, authored: Option<string>,
      phase: Option<Phase>): Option<Refusal> {
    var kind := step.outputKind;
    if kind == MUST_FIX && phase == Some(ClosedMustFix) then
      match c.closedReview(body)
      case None => Some(BodyViolatesContract)
      case Some(closed) =>
        if Some(closed.review.headSha) != authored then Some(HeadMismatch) else ClosedSelfRefusal(closed)
    else if kind == MUST_FIX && (phase == Some(IndependentFindings) || phase == Some(EvidenceUnlocked)) then
      match c.review(body)
      case None => Some(BodyViolatesContract)
      case Some(review) => HeadRefusal(Some(review.headSha), authored)
    else if kind == FIXED_IMPLEMENTATION then
      match c.fixed(body)
      case None => Some(BodyViolatesContract)
      case Some(fix) => if Some(fix.headSha) != authored then Some(HeadMismatch) else FixedSelfRefusal(fix)
    else HeadRefusal(c.canonical(step, body), authored)
  }

  function SequenceRefusal(independent: Option<ReviewArtifact>, closed: Option<ClosedReview>): Option<Refusal> {
    if independent.Some? && closed.Some? then ClosedRunRefusal(independent.value, closed.value)
    else Some(BodyViolatesContract)
  }

  // The three-phase sequence of a combined blind review.
  function BlindRefusal(c: Contracts, existing: Option<Output>, input: Input): Option<Refusal> {
    var phase := MetadataPhase(input.metadata);
    var own := existing.Some? && existing.value.runId == Some(input.runId);
    var reached := if existing.Some? then MetadataPhase(existing.value.metadata) else None;
    match phase
    case Some(IndependentFindings) =>
      if own && reached != Some(IndependentFindings) then Some(CannotReturnToIndependent) else None
    case Some(EvidenceUnlocked) =>
      if !own || reached != Some(IndependentFindings) then Some(NotIndependentYet)
      else if existing.value.body != input.body then Some(BodyNotRepeated)
      else None
    case Some(ClosedMustFix) =>
      if !own || reached != Some(EvidenceUnlocked) then Some(NotUnlockedYet)
      else SequenceRefusal(c.review(existing.value.body), c.closedReview(input.body))
    case _ => Some(PhaseMissing)
  }

  function PersistRefusal(c: Contracts, s: Store, task: Task, input: Input): Option<Refusal> {
    var existing := if input.taskId in s.outputs then Some(s.outputs[input.taskId]) else None;
    match task.step
    case None => if input.kind == RETIRED_KIND then Some(RetiredKind) else None
    case Some(step) =>
      if step.outputKind == RETIRED_KIND || input.kind == RETIRED_KIND then Some(RetiredKind)
      else if CanonicalAgentKind(step.outputKind) && input.kind != step.outputKind then Some(WrongKind)
      else if ImmutableOncePersisted(step.outputKind) && existing.Some? then Some(Immutable)
      else
        var body := if CanonicalAgentKind(step.outputKind)
                    then BodyRefusal(c, step, input.body, input.commitSha, MetadataPhase(input.metadata)) else None;
        if body.Some? then body
        else
          var fix := if RoleIs(task.step, FixedImplementation) then FixRefusal(c, s, task, input.body) else None;
          if fix.Some? then fix
          else if RoleIs(task.step, MustFix) then BlindRefusal(c, existing, input)
          else None
  }

  // A missing or empty commit and missing metadata leave the stored ones alone.
  function Upserted(existing: Option<Output>, input: Input): Output {
    match existing
    case None => Output(Some(input.runId), input.kind, input.body, input.commitSha, input.metadata)
    case Some(row) =>
      Output(Some(input.runId), input.kind, input.body,
             if input.commitSha.Some? && input.commitSha.value != "" then input.commitSha else row.commitSha,
             if input.metadata.Some? then input.metadata else row.metadata)
  }

  function PredecessorOutputs(s: Store, task: Task): map<string, Output> {
    map id | id in s.outputs && id in s.tasks && InChain(s.tasks[id], task) && s.tasks[id].chainIndex.Some?
             && task.chainIndex.Some? && s.tasks[id].chainIndex.value < task.chainIndex.value :: s.outputs[id]
  }

  predicate Authorized(s: Store, input: Input) {
    && input.runId in s.runs && s.runs[input.runId].status == Live && s.runs[input.runId].taskId == input.taskId
    && input.taskId in s.tasks
  }

  function WritesOf(s: Store, task: string): seq<Write> {
    if task in s.writes then s.writes[task] else []
  }

  predicate Unlocks(task: Task, input: Input) {
    RoleIs(task.step, MustFix) && MetadataPhase(input.metadata) == Some(EvidenceUnlocked)
  }

  function Persisted(s: Store, task: Task, input: Input): (Store, Outcome)
  {
    var existing := if input.taskId in s.outputs then Some(s.outputs[input.taskId]) else None;
    var output := Upserted(existing, input);
    var stored := s.(outputs := s.outputs[input.taskId := output]);
    var evidence := if Unlocks(task, input) then PredecessorOutputs(stored, task) else map[];
    var write := Write(input.runId, input.kind, input.body, input.commitSha, MetadataPhase(output.metadata), evidence);
    (stored.(writes := s.writes[input.taskId := WritesOf(s, input.taskId) + [write]],
             archive := if Unlocks(task, input) && existing.Some?
                        then s.archive + [Archived(input.taskId, input.runId, existing.value.body)] else s.archive),
     Accepted(output, evidence))
  }

  function PersistStep(c: Contracts, s: Store, input: Input): (Store, Outcome) {
    if !Authorized(s, input) then (s, StaleFence)
    else
      var task := s.tasks[input.taskId];
      var refusal := PersistRefusal(c, s, task, input);
      if refusal.Some? then (s, Refused(refusal.value)) else Persisted(s, task, input)
  }

  datatype CompletionRefusal =
    | RetiredStep | OutputMissing | PriorRunsOutput | KindDiffers | NoExactHead | OtherHead
    | BodyRefused(refusal: Refusal) | NotClosed

  // Whether the Run that completes may rely on the stored output.
  function OutputRefusal(c: Contracts, step: Option<Step>, output: Option<Output>, runId: string, head: Option<string>)
    : Option<CompletionRefusal>
  {
    if step.Some? && step.value.outputKind == RETIRED_KIND then Some(RetiredStep)
    else if step.None? || !CanonicalAgentKind(step.value.outputKind) then None
    else if output.None? then Some(OutputMissing)
    else
      var row, kind := output.value, step.value.outputKind;
      if row.runId != Some(runId) && (row.runId.None? || !ImmutableOncePersisted(kind)) then Some(PriorRunsOutput)
      else if row.kind != kind then Some(KindDiffers)
      else if head.None? || head.value == "" then Some(NoExactHead)
      else if row.commitSha != head then Some(OtherHead)
      else
        var body := BodyRefusal(c, step.value, row.body, row.commitSha, MetadataPhase(row.metadata));
        if body.Some? then Some(BodyRefused(body.value))
        else if RoleIs(step, MustFix) && MetadataPhase(row.metadata) != Some(ClosedMustFix) then Some(NotClosed)
        else None
  }
}
