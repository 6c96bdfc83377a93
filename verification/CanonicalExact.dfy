// When an accepted body is also consistent in itself. The consistency checks
// compare the whole output kind, so they do not see a versioned one.
module CanonicalExact {
  import opened Prelude
  import opened StepKinds
  import opened CanonicalOutput
  import opened CanonicalOutputRuns
  import opened CanonicalFixStep

  /* ----------------------- what consistency means ----------------------- */

  lemma InFindingIds(findings: seq<Finding>, id: string)
    ensures id in MustFixExpected(findings) <==> exists f | f in findings :: f.id == id && f.severity != P2
  {
    if exists f | f in findings :: f.id == id && f.severity != P2 {
      var f :| f in findings && f.id == id && f.severity != P2;
      var i :| 0 <= i < |findings| && findings[i] == f;
    }
  }

  // The must-fix ids are exactly the ids of the P0 and P1 findings, and no list repeats one.
  lemma ClosedSelfMeaning(closed: ClosedReview)
    ensures ClosedSelfRefusal(closed) == None <==>
      && Distinct(FindingIds(closed.review.findings)) && Distinct(DispositionIds(closed.dispositions))
         && Distinct(closed.mustFixIds)
      && forall id :: id in closed.mustFixIds <==>
         exists f | f in closed.review.findings :: f.id == id && f.severity != P2
  {
    NoDuplicates(FindingIds(closed.review.findings));
    NoDuplicates(DispositionIds(closed.dispositions));
    NoDuplicates(closed.mustFixIds);
    var expected, actual := MustFixExpected(closed.review.findings), Elements(closed.mustFixIds);
    forall id
      ensures id in expected <==> exists f | f in closed.review.findings :: f.id == id && f.severity != P2
    {
      InFindingIds(closed.review.findings, id);
    }
    assert (forall id :: id in closed.mustFixIds <==> id in expected) <==> expected == actual;
  }

  lemma {:induction false} InAdopted(dispositions: seq<Disposition>, id: string)
    ensures id in AdoptedIds(dispositions) <==> Disposition(id, Adopted) in dispositions
  {
    if dispositions != [] {
      InAdopted(dispositions[1..], id);
      assert dispositions == [dispositions[0]] + dispositions[1..];
    }
  }

  lemma {:induction false} AdoptedDistinct(dispositions: seq<Disposition>)
    requires Distinct(DispositionIds(dispositions))
    ensures Distinct(AdoptedIds(dispositions))
  {
    if dispositions != [] {
      var ids, rest := DispositionIds(dispositions), DispositionIds(dispositions[1..]);
      assert forall i | 0 <= i < |rest| :: rest[i] == ids[i + 1];
      AdoptedDistinct(dispositions[1..]);
      InAdopted(dispositions[1..], dispositions[0].id);
      if Disposition(dispositions[0].id, Adopted) in dispositions[1..] {
        var i :| 0 <= i < |dispositions| - 1 && dispositions[1..][i] == Disposition(dispositions[0].id, Adopted);
        assert ids[i + 1] == ids[0];
      }
    }
  }

  lemma {:induction false} DistinctCount(values: seq<string>, id: string)
    requires Distinct(values)
    ensures multiset(values)[id] == if id in values then 1 else 0
  {
    if values != [] {
      assert values == [values[0]] + values[1..];
      DistinctCount(values[1..], id);
    }
  }

  lemma SameElements(a: seq<string>, b: seq<string>)
    requires Distinct(a) && Distinct(b)
    ensures multiset(a) == multiset(b) <==> forall id :: id in a <==> id in b
  {
    forall id
      ensures multiset(a)[id] == (if id in a then 1 else 0) && multiset(b)[id] == (if id in b then 1 else 0)
    {
      DistinctCount(a, id);
      DistinctCount(b, id);
    }
    if multiset(a) == multiset(b) {
      forall id
        ensures id in a <==> id in b
      {
        assert multiset(a)[id] == multiset(b)[id];
      }
    }
  }

  // Each disposition is given once, and the closed findings are exactly the adopted ones.
  lemma FixedSelfMeaning(fix: FixedArtifact)
    ensures FixedSelfRefusal(fix) == None <==>
      && Distinct(DispositionIds(fix.dispositions)) && Distinct(fix.closedFindings)
      && forall id :: id in fix.closedFindings <==> Disposition(id, Adopted) in fix.dispositions
  {
    NoDuplicates(DispositionIds(fix.dispositions));
    NoDuplicates(fix.closedFindings);
    if Distinct(DispositionIds(fix.dispositions)) && Distinct(fix.closedFindings) {
      AdoptedDistinct(fix.dispositions);
      SameElements(AdoptedIds(fix.dispositions), fix.closedFindings);
      forall id
        ensures id in AdoptedIds(fix.dispositions) <==> Disposition(id, Adopted) in fix.dispositions
      {
        InAdopted(fix.dispositions, id);
      }
    }
  }

  /* --------------------------- on the bare kinds ------------------------ */

  // Every write of a canonical step passed its body checks.
  lemma WrittenPasses(c: Contracts, s: Store, task: string, i: nat)
    requires Reachable(c, s) && task in s.tasks && s.tasks[task].step.Some? && i < |WritesOf(s, task)|
    requires CanonicalAgentKind(s.tasks[task].step.value.outputKind)
    ensures var write := WritesOf(s, task)[i];
            BodyRefusal(c, s.tasks[task].step.value, write.body, write.commitSha, write.phase) == None
  {
    ReachableSequences(c, s);
    assert BodiesOk(c, s, task) by { assert TaskOk(c, s, task); }
  }

  lemma ClosedPasses(c: Contracts, step: Step, body: string, authored: Option<string>)
    requires step.outputKind == MUST_FIX && BodyRefusal(c, step, body, authored, Some(ClosedMustFix)) == None
    ensures c.closedReview(body).Some? && ClosedSelfRefusal(c.closedReview(body).value) == None
  {
  }

  lemma FixPasses(c: Contracts, step: Step, body: string, authored: Option<string>, phase: Option<Phase>)
    requires step.outputKind == FIXED_IMPLEMENTATION && BodyRefusal(c, step, body, authored, phase) == None
    ensures c.fixed(body).Some? && FixedSelfRefusal(c.fixed(body).value) == None
  {
    assert FIXED_IMPLEMENTATION != MUST_FIX by { assert |FIXED_IMPLEMENTATION| == 20; }
  }

  lemma ClosedIsConsistent(c: Contracts, s: Store, task: string, i: nat)
    requires Reachable(c, s) && task in s.tasks && s.tasks[task].step.Some?
        && s.tasks[task].step.value.outputKind == MUST_FIX
    requires i < |WritesOf(s, task)| && WritesOf(s, task)[i].phase == Some(ClosedMustFix)
    ensures c.closedReview(WritesOf(s, task)[i].body).Some?
    ensures ClosedSelfRefusal(c.closedReview(WritesOf(s, task)[i].body).value) == None
  {
    MustFixRole();
    WrittenPasses(c, s, task, i);
    var write := WritesOf(s, task)[i];
    ClosedPasses(c, s.tasks[task].step.value, write.body, write.commitSha);
  }

  lemma FixIsConsistent(c: Contracts, s: Store, task: string, i: nat)
    requires Reachable(c, s) && task in s.tasks && s.tasks[task].step.Some?
    requires s.tasks[task].step.value.outputKind == FIXED_IMPLEMENTATION
    requires i < |WritesOf(s, task)|
    ensures c.fixed(WritesOf(s, task)[i].body).Some?
    ensures FixedSelfRefusal(c.fixed(WritesOf(s, task)[i].body).value) == None
  {
    FixedImplementationRole();
    WrittenPasses(c, s, task, i);
    var write := WritesOf(s, task)[i];
    FixPasses(c, s.tasks[task].step.value, write.body, write.commitSha, write.phase);
  }

  lemma IdAt(dispositions: seq<Disposition>, id: string)
    ensures id in Elements(DispositionIds(dispositions)) <==>
      exists i :: 0 <= i < |dispositions| && dispositions[i].id == id
    ensures Distinct(DispositionIds(dispositions)) ==>
      forall i, j | 0 <= i < j < |dispositions| :: dispositions[i].id != dispositions[j].id
  {
    var ids := DispositionIds(dispositions);
    if id in Elements(ids) {
      var i :| 0 <= i < |ids| && ids[i] == id;
    }
    if i :| 0 <= i < |dispositions| && dispositions[i].id == id { assert ids[i] == id; }
    if Distinct(ids) {
      forall i, j | 0 <= i < j < |dispositions|
        ensures dispositions[i].id != dispositions[j].id
      {
        assert ids[i] != ids[j];
      }
    }
  }

  lemma StoredRow(c: Contracts, s: Store, id: string)
    requires Reachable(c, s) && id in s.tasks
    ensures RowIsLastWrite(s, id)
  {
    ReachableSequences(c, s);
    assert TaskOk(c, s, id);
  }

  lemma StoredFixIsConsistent(c: Contracts, s: Store, id: string)
    requires Reachable(c, s) && id in s.outputs && id in s.tasks && s.tasks[id].step.Some?
    requires s.tasks[id].step.value.outputKind == FIXED_IMPLEMENTATION
    ensures c.fixed(s.outputs[id].body).Some?
    ensures FixedSelfRefusal(c.fixed(s.outputs[id].body).value) == None
  {
    StoredRow(c, s, id);
    FixIsConsistent(c, s, id, |WritesOf(s, id)| - 1);
  }

  // On the bare kind, a stored fix gives each finding of its sibling reports one
  // disposition, gives none to anything else, and closes just what it adopted.
  lemma FixOutputExact(c: Contracts, s: Store, id: string)
    requires Reachable(c, s) && id in s.outputs && id in s.tasks && s.tasks[id].step.Some?
    requires s.tasks[id].step.value.outputKind == FIXED_IMPLEMENTATION
    ensures c.fixed(s.outputs[id].body).Some?
    ensures var fix := c.fixed(s.outputs[id].body).value;
            && (forall finding :: finding in SiblingFindingIds(c, s, s.tasks[id])
                                  <==> exists i :: 0 <= i < |fix.dispositions| && fix.dispositions[i].id == finding)
            && (forall i, j | 0 <= i < j < |fix.dispositions| :: fix.dispositions[i].id != fix.dispositions[j].id)
            && (forall finding :: finding in fix.closedFindings <==> Disposition(finding, Adopted) in fix.dispositions)
  {
    FixedImplementationRole();
    StoredFixIsConsistent(c, s, id);
    FixOutputCovers(c, s, id);
    var fix := c.fixed(s.outputs[id].body).value;
    FixedSelfMeaning(fix);
    IdAt(fix.dispositions, "");
    forall finding
      ensures finding in SiblingFindingIds(c, s, s.tasks[id]) <==>
        exists i :: 0 <= i < |fix.dispositions| && fix.dispositions[i].id == finding
    {
      IdAt(fix.dispositions, finding);
    }
  }

  /* ------------------------ on the versioned kinds ----------------------- */

  lemma Follow(c: Contracts, start: Store, events: seq<Event>, s: Store, e: Event)
    requires Execute(c, start, events) == Some(s) && Enabled(s, e)
    ensures Execute(c, start, events + [e]) == Some(Next(c, s, e))
  {
    assert (events + [e])[..|events|] == events;
  }

  function BlindInput(kind: string, phase: Phase): Input {
    Input("t", "r", kind, "b", Some("h"), Some(Metadata(Some(phase))))
  }

  // Contracts as the registry has them: no kind without one is ever satisfied,
  // and the artifacts read from one body name one head.
  ghost predicate Registered(c: Contracts) {
    && (forall step: Step, body: string {:trigger c.canonical(step, body)} ::
      (!HasContract(step.outputKind) ==> c.canonical(step, body) == None)
      && (RoleOf(step.outputKind) == Some(FixedImplementation) && c.canonical(step, body).Some? ==>
        c.fixed(body).Some? && c.canonical(step, body) == Some(c.fixed(body).value.headSha))
      && (c.review(body).Some? && c.canonical(step, body).Some?
         ==> c.canonical(step, body) == Some(c.review(body).value.headSha)))
    && (forall body: string {:trigger c.closedReview(body)} ::
       c.closedReview(body).Some? ==> c.review(body) == Some(c.closedReview(body).value.review))
  }

  function RegisteredHead(step: Step, body: string): Option<string> {
    if HasContract(step.outputKind) then Some("h") else None
  }

  // Contracts under which one closed review leaves out its only P0 finding.
  function CarelessReview(): Contracts {
    var review := ReviewArtifact("h", "g", "h", [Finding("f", P0)]);
    Contracts(_ => Some(review),
              _ => Some(ClosedReview(review, [Disposition("f", Rejected)], [])),
              _ => Some(FixedArtifact("h", "h", [], [])),
              RegisteredHead)
  }

  function BlindStore(kind: string): Store {
    Store(map["t" := Task("t", "p", Some("c"), Some(0), Some(1), Some(Step("s", "m", "n", kind)))],
          map["r" := Run("t", Live, None)], map[], map[], [])
  }

  lemma CarelessCovers()
    ensures SequenceRefusal(CarelessReview().review("b"), CarelessReview().closedReview("b")) == None
    ensures ClosedSelfRefusal(CarelessReview().closedReview("b").value) != None
  {
    var closed := CarelessReview().closedReview("b").value;
    assert FindingIds(closed.review.findings) == ["f"] && DispositionIds(closed.dispositions) == ["f"];
    assert closed.review.findings[0].id in MustFixExpected(closed.review.findings);
  }

  lemma CarelessBody(step: Step, phase: Option<Phase>)
    requires step.outputKind != MUST_FIX && HasContract(step.outputKind)
    ensures BodyRefusal(CarelessReview(), step, "b", Some("h"), phase) == None
  {
    assert FixedSelfRefusal(FixedArtifact("h", "h", [], [])) == None
        by { FixedSelfMeaning(FixedArtifact("h", "h", [], [])); }
  }

  // One accepted call of the sequence, on the row the previous one left.
  lemma BlindAccepted(c: Contracts, s: Store, input: Input)
    requires Authorized(s, input) && RoleIs(s.tasks[input.taskId].step, MustFix)
    requires input.kind == s.tasks[input.taskId].step.value.outputKind && input.kind != RETIRED_KIND
    requires BodyRefusal(c, s.tasks[input.taskId].step.value, input.body, input.commitSha,
        MetadataPhase(input.metadata)) == None
    requires BlindRefusal(c, Existing(s, input.taskId), input) == None
    ensures PersistStep(c, s, input).1.Accepted?
  {
  }

  lemma CarelessReviewAccepted(kind: string) returns (c: Contracts, s: Store)
    requires RoleOf(kind) == Some(MustFix) && HasContract(kind) && kind != MUST_FIX
    ensures Registered(c) && InconsistentClosed(c, s, "t", kind, 2)
  {
    c := CarelessReview();
    CarelessCovers();
    var start := BlindStore(kind).(runs := map[]);
    var events, unlocked := CarelessUnlocked(kind, start);
    var events', closed := BlindCall(c, kind, start, events, unlocked, ClosedMustFix);
    s := closed;
  }

  // An accepted closed review of this kind that is not consistent in itself.
  ghost predicate InconsistentClosed(c: Contracts, s: Store, task: string, kind: string, i: nat) {
    && Reachable(c, s) && task in s.tasks && s.tasks[task].step.Some? && s.tasks[task].step.value.outputKind == kind
    && i < |WritesOf(s, task)| && WritesOf(s, task)[i].phase == Some(ClosedMustFix)
    && c.closedReview(WritesOf(s, task)[i].body).Some?
    && ClosedSelfRefusal(c.closedReview(WritesOf(s, task)[i].body).value) != None
  }

  // Of all kinds in the combined review's role, an inconsistent closed review
  // can be accepted under exactly one: the bare kind with its first version.
  lemma ClosedInconsistentIff(kind: string)
    requires RoleOf(kind) == Some(MustFix)
    ensures (exists c, s, task, i :: Registered(c) && InconsistentClosed(c, s, task, kind, i))
        <==> kind == MUST_FIX + "-v1"
  {
    BareKindOfRole(Normalized(kind));
    OneContract(kind, MUST_FIX);
    if kind == MUST_FIX + "-v1" { var c, s := CarelessReviewAccepted(kind); }
    if c, s, task, i :| Registered(c) && InconsistentClosed(c, s, task, kind, i) {
      InconsistentClosedHasContract(c, s, task, kind, i);
    }
  }

  lemma InconsistentClosedHasContract(c: Contracts, s: Store, task: string, kind: string, i: nat)
    requires RoleOf(kind) == Some(MustFix) && Registered(c) && InconsistentClosed(c, s, task, kind, i)
    ensures HasContract(kind) && kind != MUST_FIX
  {
    if kind == MUST_FIX { ClosedIsConsistent(c, s, task, i); }
    FixedImplementationRole();
    WritesHaveContract(c, s, task, i);
  }

  // A write of a canonical step was judged by a contract of the registry.
  lemma WritesHaveContract(c: Contracts, s: Store, task: string, i: nat)
    requires Reachable(c, s) && Registered(c) && task in s.tasks && s.tasks[task].step.Some? && i < |WritesOf(s, task)|
    requires var kind := s.tasks[task].step.value.outputKind;
             CanonicalAgentKind(kind) && kind != MUST_FIX && kind != FIXED_IMPLEMENTATION
    ensures HasContract(s.tasks[task].step.value.outputKind)
  {
    ReachableSequences(c, s);
    assert BodiesOk(c, s, task) by { assert TaskOk(c, s, task); }
    var step, write := s.tasks[task].step.value, WritesOf(s, task)[i];
    assert BodyRefusal(c, step, write.body, write.commitSha, write.phase) == None;
    assert c.canonical(step, write.body).Some?;
  }

  lemma CarelessUnlocked(kind: string, start: Store) returns (events: seq<Event>, s: Store)
    requires RoleOf(kind) == Some(MustFix) && HasContract(kind) && kind != MUST_FIX
        && start == BlindStore(kind).(runs := map[])
    ensures Execute(CarelessReview(), start, events) == Some(s) && s.tasks == start.tasks
        && s.runs == BlindStore(kind).runs
    ensures s.outputs == map["t" := Output(Some("r"), kind, "b", Some("h"), Some(Metadata(Some(EvidenceUnlocked))))]
    ensures |WritesOf(s, "t")| == 2
  {
    var c, begin := CarelessReview(), StartRun("r", "t");
    Follow(c, start, [], start, begin);
    var events1, s1 := BlindCall(c, kind, start, [] + [begin], Next(c, start, begin), IndependentFindings);
    events, s := BlindCall(c, kind, start, events1, s1, EvidenceUnlocked);
  }

  lemma BlindCall(c: Contracts, kind: string, start: Store, events: seq<Event>, s: Store, phase: Phase)
      returns (events': seq<Event>, t: Store)
    requires RoleOf(kind) == Some(MustFix) && HasContract(kind) && kind != MUST_FIX && c == CarelessReview()
    requires Execute(c, start, events) == Some(s)
    requires s.tasks == BlindStore(kind).tasks && s.runs == BlindStore(kind).runs
    requires BlindRefusal(c, Existing(s, "t"), BlindInput(kind, phase)) == None
    ensures Execute(c, start, events') == Some(t) && t.tasks == s.tasks && t.runs == s.runs
    ensures t.outputs == s.outputs["t" := Output(Some("r"), kind, "b", Some("h"), Some(Metadata(Some(phase))))]
    ensures |WritesOf(t, "t")| == |WritesOf(s, "t")| + 1
    ensures WritesOf(t, "t")[|WritesOf(s, "t")|].phase == Some(phase)
        && WritesOf(t, "t")[|WritesOf(s, "t")|].body == "b"
  {
    var e := Persist(BlindInput(kind, phase));
    CarelessBody(s.tasks["t"].step.value, Some(phase));
    RetiredHasNoRole();
    BlindAccepted(c, s, BlindInput(kind, phase));
    AcceptedAppends(c, s, BlindInput(kind, phase));
    Follow(c, start, events, s, e);
    events', t := events + [e], Next(c, s, e);
  }

  /* ------------------- the same for the fix step's kind ------------------ */

  const REPORT_KIND := "review-findings"

  lemma ReportKindRole()
    ensures RoleOf(REPORT_KIND) == Some(ReviewFindings) && HasContract(REPORT_KIND)
  {
    UnversionedIsNormal("review", "findings");
    assert REPORT_KIND == "review" + "-" + "findings";
  }

  // Contracts under which a fix closes a finding it never adopted.
  function CarelessFix(): Contracts {
    Contracts(_ => Some(ReviewArtifact("h", "g", "h", [])),
              _ => None,
              _ => Some(FixedArtifact("h", "h", [], ["x"])),
              RegisteredHead)
  }

  function ReportThenFix(report: string, kind: string): map<string, Task> {
    map["r" := Task("r", "p", Some("c"), Some(0), Some(1), Some(Step("s1", "m", "n", report))),
        "f" := Task("f", "p", Some("c"), Some(1), Some(2), Some(Step("s2", "m", "n", kind)))]
  }

  function FixTasks(kind: string): map<string, Task> {
    ReportThenFix(REPORT_KIND, kind)
  }

  function ReportInput(): Input {
    Input("r", "q", REPORT_KIND, "b", Some("h"), None)
  }

  function FixInput(kind: string): Input {
    Input("f", "w", kind, "b", Some("h"), None)
  }

  lemma ReportAccepted(kind: string, s: Store)
    requires s.tasks == FixTasks(kind) && s.runs == map["q" := Run("r", Live, None)] && s.outputs == map[]
    ensures PersistStep(CarelessFix(), s, ReportInput()).1.Accepted?
  {
    ReportKindRole();
    assert |REPORT_KIND| == 15 && |MUST_FIX| == 8 && |FIXED_IMPLEMENTATION| == 20 && |RETIRED_KIND| == 12;
  }

  predicate ReportStored(s: Store, kind: string) {
    && s.tasks == FixTasks(kind)
    && s.runs == map["q" := Run("r", Succeeded, Some("h")), "w" := Run("f", Live, None)]
    && s.outputs == map["r" := Output(Some("q"), REPORT_KIND, "b", Some("h"), None)]
  }

  lemma FixReviewLayer(kind: string)
    ensures ReviewLayer(FixTasks(kind), FixTasks(kind)["f"]) == Some(1)
  {
    var tasks := FixTasks(kind);
    assert tasks["r"].chainLayer.value in EarlierLayers(tasks, tasks["f"]);
    assert EarlierLayers(tasks, tasks["f"]) == {1};
  }

  // A fix and one report before it: the report is the fix's only sibling.
  lemma ReportAndFix(tasks: map<string, Task>, r: string, f: string, layer: int)
    requires r != f && tasks.Keys == {r, f} && tasks[r].chainLayer == Some(layer)
        && tasks[f].chainLayer == Some(layer + 1)
    requires InChain(tasks[r], tasks[f])
    requires RoleIs(tasks[r].step, ReviewFindings) && RoleIs(tasks[f].step, FixedImplementation)
    ensures Siblings(tasks, tasks[f], layer, ReviewFindings) == {r}
    ensures Siblings(tasks, tasks[f], layer, BlindFindings) == {}
    ensures !Instantiated(tasks, tasks[f], BlindFindings)
  {
  }

  lemma OnlySibling(report: string, kind: string)
    requires RoleOf(report) == Some(ReviewFindings) && RoleOf(kind) == Some(FixedImplementation)
    ensures var tasks := ReportThenFix(report, kind);
            Siblings(tasks, tasks["f"], 1, ReviewFindings) == {"r"}
                && Siblings(tasks, tasks["f"], 1, BlindFindings) == {}
            && !Instantiated(tasks, tasks["f"], BlindFindings)
  {
    ReportAndFix(ReportThenFix(report, kind), "r", "f", 1);
  }

  lemma FixSiblings(kind: string)
    requires RoleOf(kind) == Some(FixedImplementation)
    ensures Siblings(FixTasks(kind), FixTasks(kind)["f"], 1, ReviewFindings) == {"r"}
    ensures Siblings(FixTasks(kind), FixTasks(kind)["f"], 1, BlindFindings) == {}
    ensures !Instantiated(FixTasks(kind), FixTasks(kind)["f"], BlindFindings)
  {
    ReportKindRole();
    OnlySibling(REPORT_KIND, kind);
  }

  lemma StoredReport(s: Store, kind: string)
    requires RoleOf(kind) == Some(FixedImplementation) && ReportStored(s, kind)
    ensures ReportOf(CarelessFix(), s, FixedArtifact("h", "h", [], ["x"]), ReviewFindings, "r")
            == Reports(ReviewArtifact("h", "g", "h", []))
  {
    assert s.runs["q"].headSha == Some("h");
    assert SucceededAt(s.runs, "r", "h");
  }

  lemma FixFromSiblings(c: Contracts, s: Store, task: Task, body: string, fix: FixedArtifact, layer: int)
    requires c.fixed(body) == Some(fix) && task.chainId.Some? && task.chainId.value != "" && task.chainLayer.Some?
    requires ReviewLayer(s.tasks, task) == Some(layer)
    requires SiblingReport(c, s, task, fix, layer, ReviewFindings).Reports?
    requires SiblingReport(c, s, task, fix, layer, BlindFindings) == Excused
    requires CoverRefusal(fix, [SiblingReport(c, s, task, fix, layer, ReviewFindings).review]) == None
    ensures FixRefusal(c, s, task, body) == None
  {
    assert Reported(Excused) == [];
    var reviewed := SiblingReport(c, s, task, fix, layer, ReviewFindings);
    assert Reported(reviewed) + Reported(Excused) == [reviewed.review];
  }

  lemma CarelessFixCovers(s: Store, kind: string)
    requires RoleOf(kind) == Some(FixedImplementation) && ReportStored(s, kind)
    ensures FixRefusal(CarelessFix(), s, s.tasks["f"], "b") == None
  {
    var c, task, fix := CarelessFix(), s.tasks["f"], FixedArtifact("h", "h", [], ["x"]);
    FixReviewLayer(kind);
    FixSiblings(kind);
    StoredReport(s, kind);
    OneSibling(c, s, task, fix, 1, ReviewFindings, "r");
    EmptyReportCovers();
    FixFromSiblings(c, s, task, "b", fix, 1);
  }

  lemma EmptyReportCovers()
    ensures CoverRefusal(FixedArtifact("h", "h", [], ["x"]), [ReviewArtifact("h", "g", "h", [])]) == None
  {
    assert DispositionIds([]) == [];
  }

  lemma FixAccepted(c: Contracts, s: Store, input: Input)
    requires Authorized(s, input) && RoleIs(s.tasks[input.taskId].step, FixedImplementation)
    requires input.kind == s.tasks[input.taskId].step.value.outputKind && input.kind != RETIRED_KIND
    requires BodyRefusal(c, s.tasks[input.taskId].step.value, input.body, input.commitSha,
        MetadataPhase(input.metadata)) == None
    requires FixRefusal(c, s, s.tasks[input.taskId], input.body) == None
    ensures PersistStep(c, s, input).1.Accepted?
  {
  }

  lemma UnadoptedClosed()
    ensures FixedSelfRefusal(FixedArtifact("h", "h", [], ["x"])) != None
  {
    FixedSelfMeaning(FixedArtifact("h", "h", [], ["x"]));
    assert "x" in ["x"];
  }

  lemma CarelessFixBody(step: Step)
    requires step.outputKind != MUST_FIX && step.outputKind != FIXED_IMPLEMENTATION && HasContract(step.outputKind)
    ensures BodyRefusal(CarelessFix(), step, "b", Some("h"), None) == None
  {
  }

  lemma CarelessFixStored(kind: string, s: Store)
    requires RoleOf(kind) == Some(FixedImplementation) && HasContract(kind) && kind != FIXED_IMPLEMENTATION
    requires ReportStored(s, kind)
    ensures var t := Next(CarelessFix(), s, Persist(FixInput(kind)));
            t.tasks == s.tasks && "f" in t.outputs && t.outputs["f"].body == "b"
  {
    var c, input := CarelessFix(), FixInput(kind);
    MustFixRole();
    RetiredHasNoRole();
    CarelessFixCovers(s, kind);
    CarelessFixBody(s.tasks["f"].step.value);
    FixAccepted(c, s, input);
    AcceptedAppends(c, s, input);
  }

  lemma CarelessFixAccepted(kind: string) returns (c: Contracts, s: Store)
    requires RoleOf(kind) == Some(FixedImplementation) && HasContract(kind) && kind != FIXED_IMPLEMENTATION
    ensures Registered(c) && InconsistentFix(c, s, "f", kind)
  {
    c := CarelessFix();
    var start := Store(FixTasks(kind), map[], map[], map[], []);
    var events, before := StoreReport(kind, start);
    CarelessFixStored(kind, before);
    Follow(c, start, events, before, Persist(FixInput(kind)));
    s := Next(c, before, Persist(FixInput(kind)));
    UnadoptedClosed();
  }

  // A stored fix of this kind that is not consistent in itself.
  ghost predicate InconsistentFix(c: Contracts, s: Store, task: string, kind: string) {
    && Reachable(c, s) && task in s.tasks && s.tasks[task].step.Some? && s.tasks[task].step.value.outputKind == kind
    && task in s.outputs && c.fixed(s.outputs[task].body).Some?
    && FixedSelfRefusal(c.fixed(s.outputs[task].body).value) != None
  }

  // Of all kinds in the fix step's role, an inconsistent fix can be stored under
  // exactly one: the bare kind with its first version.
  lemma FixInconsistentIff(kind: string)
    requires RoleOf(kind) == Some(FixedImplementation)
    ensures (exists c, s, task :: Registered(c) && InconsistentFix(c, s, task, kind))
        <==> kind == FIXED_IMPLEMENTATION + "-v1"
  {
    BareKindOfRole(Normalized(kind));
    OneContract(kind, FIXED_IMPLEMENTATION);
    if kind == FIXED_IMPLEMENTATION + "-v1" { var c, s := CarelessFixAccepted(kind); }
    if c, s, task :| Registered(c) && InconsistentFix(c, s, task, kind) {
      InconsistentFixHasContract(c, s, task, kind);
    }
  }

  lemma InconsistentFixHasContract(c: Contracts, s: Store, task: string, kind: string)
    requires RoleOf(kind) == Some(FixedImplementation) && Registered(c) && InconsistentFix(c, s, task, kind)
    ensures HasContract(kind) && kind != FIXED_IMPLEMENTATION
  {
    StoredRow(c, s, task);
    if kind == FIXED_IMPLEMENTATION { StoredFixIsConsistent(c, s, task); }
    MustFixRole();
    WritesHaveContract(c, s, task, |WritesOf(s, task)| - 1);
  }

  lemma StoreReport(kind: string, start: Store) returns (events: seq<Event>, s: Store)
    requires start == Store(FixTasks(kind), map[], map[], map[], [])
    ensures Execute(CarelessFix(), start, events) == Some(s) && ReportStored(s, kind)
  {
    var c := CarelessFix();
    var e1, e2, e3, e4 := StartRun("q", "r"), Persist(ReportInput()), EndRun("q", true, Some("h")), StartRun("w", "f");
    Follow(c, start, [], start, e1);
    var s1 := Next(c, start, e1);
    ReportAccepted(kind, s1);
    AcceptedAppends(c, s1, ReportInput());
    Follow(c, start, [] + [e1], s1, e2);
    var s2 := Next(c, s1, e2);
    Follow(c, start, [] + [e1] + [e2], s2, e3);
    var s3 := Next(c, s2, e3);
    Follow(c, start, [] + [e1] + [e2] + [e3], s3, e4);
    events, s := [] + [e1] + [e2] + [e3] + [e4], Next(c, s3, e4);
  }

  /* --------------------------- completing a Run -------------------------- */

  // A commit id is never empty.
  ghost predicate NamesCommits(c: Contracts, step: Step, body: string) {
    && (c.review(body).Some? ==> c.review(body).value.headSha != "")
    && (c.closedReview(body).Some? ==> c.closedReview(body).value.review.headSha != "")
    && (c.fixed(body).Some? ==> c.fixed(body).value.headSha != "")
    && c.canonical(step, body) != Some("")
  }

  lemma PassedHead(c: Contracts, step: Step, body: string, authored: Option<string>, phase: Option<Phase>)
    requires NamesCommits(c, step, body) && BodyRefusal(c, step, body, authored, phase) == None
    ensures authored.Some? && authored.value != ""
  {
  }

  lemma StoredBodyPasses(c: Contracts, s: Store, id: string)
    requires Reachable(c, s) && id in s.outputs && id in s.tasks && s.tasks[id].step.Some?
    requires CanonicalAgentKind(s.tasks[id].step.value.outputKind)
        && NamesCommits(c, s.tasks[id].step.value, s.outputs[id].body)
    ensures var step, row := s.tasks[id].step.value, s.outputs[id];
            BodyRefusal(c, step, row.body, row.commitSha, MetadataPhase(row.metadata)) == None
  {
    ReachableSequences(c, s);
    assert TaskOk(c, s, id);
    var last := WritesOf(s, id)[|WritesOf(s, id)| - 1];
    PassedHead(c, s.tasks[id].step.value, last.body, last.commitSha, last.phase);
  }

  // What persistence accepted, completion never refuses for its content: it
  // turns only on whose output it is, its kind, its head and its phase.
  lemma CompletionTurnsOnBinding(c: Contracts, s: Store, id: string, runId: string, head: Option<string>)
    requires Reachable(c, s) && id in s.outputs && id in s.tasks && s.tasks[id].step.Some?
    requires CanonicalAgentKind(s.tasks[id].step.value.outputKind)
        && NamesCommits(c, s.tasks[id].step.value, s.outputs[id].body)
    ensures var step, row := s.tasks[id].step, s.outputs[id];
            OutputRefusal(c, step, Some(row), runId, head) == None <==>
            && step.value.outputKind != RETIRED_KIND && row.kind == step.value.outputKind
            && (row.runId == Some(runId) || (row.runId.Some? && ImmutableOncePersisted(step.value.outputKind)))
            && head.Some? && head.value != "" && row.commitSha == head
            && (RoleIs(step, MustFix) ==> MetadataPhase(row.metadata) == Some(ClosedMustFix))
  {
    StoredBodyPasses(c, s, id);
  }
}
