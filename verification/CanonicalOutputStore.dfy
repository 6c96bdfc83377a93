// Canonical persistence as the program runs it: loops over query results and
// rows updated in place, proved against the functions the guarantees are about.
module CanonicalOutputStore {
  import opened Prelude
  import opened StepKinds
  import opened CanonicalOutput
  import opened CanonicalFixStep

  // The rows of a query, each once, in no particular order.
  method Rows(ids: set<string>) returns (rows: seq<string>)
    ensures forall id :: id in rows <==> id in ids
    ensures Distinct(rows)
  {
    rows := [];
    var rest := ids;
    while rest != {}
      invariant rest <= ids
      invariant forall id :: id in rows <==> id in ids && id !in rest
      invariant Distinct(rows)
      decreases |rest|
    {
      var id :| id in rest;
      rows, rest := rows + [id], rest - {id};
    }
  }

  predicate HasHead(heads: map<string, set<string>>, task: string, head: string) {
    task in heads && head in heads[task]
  }

  predicate SucceedsAt(run: Run, task: string, head: string) {
    run.taskId == task && run.headSha == Some(head)
  }

  predicate Seen(runs: map<string, Run>, rows: seq<string>, task: string, head: string) {
    exists row | row in rows :: row in runs && SucceedsAt(runs[row], task, head)
  }

  // The heads at which each sibling task has a successful Run.
  method SuccessfulSiblingHeads(runs: map<string, Run>, siblings: set<string>) returns (heads: map<string, set<string>>)
    ensures forall task, head | task in siblings :: HasHead(heads, task, head) <==> SucceededAt(runs, task, head)
  {
    var successful := set run | run in runs && runs[run].status == Succeeded && runs[run].taskId in siblings;
    var rows := Rows(successful);
    heads := map[];
    for i := 0 to |rows|
      invariant forall task, head :: HasHead(heads, task, head) <==> Seen(runs, rows[..i], task, head)
    {
      assert rows[i] in rows;
      assert rows[..i + 1] == rows[..i] + [rows[i]];
      var run := runs[rows[i]];
      ghost var before := heads;
      if run.headSha.Some? {
        var known := if run.taskId in heads then heads[run.taskId] else {};
        heads := heads[run.taskId := known + {run.headSha.value}];
      }
      forall task, head
        ensures HasHead(heads, task, head) <==> Seen(runs, rows[..i + 1], task, head)
      {
        assert HasHead(heads, task, head) <==> HasHead(before, task, head) || SucceedsAt(run, task, head);
        SeenMore(runs, rows[..i], rows[i], task, head);
      }
    }
    assert rows[..|rows|] == rows;
    forall task, head | task in siblings
      ensures HasHead(heads, task, head) <==> SucceededAt(runs, task, head)
    {
      SeenAll(runs, rows, successful, siblings, task, head);
    }
  }

  lemma SeenMore(runs: map<string, Run>, rows: seq<string>, row: string, task: string, head: string)
    requires row in runs
    ensures Seen(runs, rows + [row], task, head) <==> Seen(runs, rows, task, head) || SucceedsAt(runs[row], task, head)
  {
    if Seen(runs, rows, task, head) {
      var earlier :| earlier in rows && earlier in runs && SucceedsAt(runs[earlier], task, head);
      assert earlier in rows + [row];
    }
    if SucceedsAt(runs[row], task, head) {
      assert (rows + [row])[|rows|] == row;
    }
  }

  lemma SeenAll(runs: map<string, Run>, rows: seq<string>, successful: set<string>, siblings: set<string>,
      task: string, head: string)
    requires successful == set run | run in runs && runs[run].status == Succeeded && runs[run].taskId in siblings
    requires (forall row :: row in rows <==> row in successful) && task in siblings
    ensures Seen(runs, rows, task, head) <==> SucceededAt(runs, task, head)
  {
    if Seen(runs, rows, task, head) {
      var row :| row in rows && row in runs && SucceedsAt(runs[row], task, head);
      assert row in successful;
    }
    if SucceededAt(runs, task, head) {
      var run :| run in runs && runs[run].taskId == task && runs[run].status == Succeeded
          && runs[run].headSha == Some(head);
      assert run in rows && SucceedsAt(runs[run], task, head);
    }
  }

  method MatchesOf(tasks: map<string, Task>, rows: seq<string>, role: StepRole) returns (matches: seq<string>)
    requires Distinct(rows) && forall id | id in rows :: id in tasks
    ensures Distinct(matches) && forall id :: id in matches <==> id in rows && RoleIs(tasks[id].step, role)
  {
    matches := [];
    for i := 0 to |rows|
      invariant forall id :: id in matches <==> id in rows[..i] && RoleIs(tasks[id].step, role)
      invariant Distinct(matches)
    {
      assert rows[..i + 1] == rows[..i] + [rows[i]];
      if RoleIs(tasks[rows[i]].step, role) { matches := matches + [rows[i]]; }
    }
    assert rows[..|rows|] == rows;
  }

  lemma OnlyMatch(matches: seq<string>, ids: set<string>)
    requires Distinct(matches) && forall id :: id in matches <==> id in ids
    ensures |matches| == 0 <==> ids == {}
    ensures |matches| == 1 ==> ids == {matches[0]}
    ensures |matches| > 1 ==> forall id :: ids != {id}
  {
    if |matches| > 0 {
      assert matches[0] in ids;
    }
    if |matches| > 1 {
      assert matches[0] in ids && matches[1] in ids && matches[0] != matches[1];
    }
  }

  datatype Collected = Failed(refusal: Refusal) | AllReports(reports: seq<ReviewArtifact>)

  // One report for each of the two kinds, review findings first.
  method CollectReports(c: Contracts, s: Store, task: Task, fix: FixedArtifact, layer: int)
      returns (collected: Collected)
    ensures var reviewed := SiblingReport(c, s, task, fix, layer, ReviewFindings);
            var blind := SiblingReport(c, s, task, fix, layer, BlindFindings);
            collected == if reviewed.Unusable? then Failed(reviewed.refusal)
                         else if blind.Unusable? then Failed(blind.refusal)
                         else AllReports(Reported(reviewed) + Reported(blind))
  {
    var siblings := set id | id in s.tasks && InChain(s.tasks[id], task) && s.tasks[id].chainLayer == Some(layer);
    var rows := Rows(siblings);
    var heads := SuccessfulSiblingHeads(s.runs, siblings);
    var kinds := [ReviewFindings, BlindFindings];
    var reports: seq<ReviewArtifact> := [];
    for k := 0 to 2
      invariant k >= 1 ==> !SiblingReport(c, s, task, fix, layer, ReviewFindings).Unusable?
      invariant k == 2 ==> !SiblingReport(c, s, task, fix, layer, BlindFindings).Unusable?
      invariant k == 0 ==> reports == []
      invariant k == 1 ==> reports == Reported(SiblingReport(c, s, task, fix, layer, ReviewFindings))
      invariant k == 2 ==> reports == Reported(SiblingReport(c, s, task, fix, layer, ReviewFindings))
                                      + Reported(SiblingReport(c, s, task, fix, layer, BlindFindings))
    {
      var sibling := SiblingOf(c, s, task, fix, layer, kinds[k], rows, heads);
      if sibling.Unusable? { return Failed(sibling.refusal); }
      reports := reports + Reported(sibling);
    }
    collected := AllReports(reports);
  }

  method FixedImplementationPersistenceRefusal(c: Contracts, s: Store, task: Task, body: string)
      returns (refusal: Option<Refusal>)
    ensures refusal == FixRefusal(c, s, task, body)
  {
    var parsed := c.fixed(body);
    if parsed.None? { return Some(BodyViolatesContract); }
    if task.chainId.None? || task.chainId.value == "" || task.chainLayer.None? { return Some(NoReviewBoundary); }
    var layer := ReviewLayer(s.tasks, task);
    if layer.None? { return Some(NoReviewLayer); }
    var collected := CollectReports(c, s, task, parsed.value, layer.value);
    match collected
    case Failed(reason) => refusal := Some(reason);
    case AllReports(reports) => refusal := CoverRefusal(parsed.value, reports);
  }

  method SiblingOf(c: Contracts, s: Store, task: Task, fix: FixedArtifact, layer: int, role: StepRole,
                   rows: seq<string>, heads: map<string, set<string>>) returns (sibling: Sibling)
    requires Distinct(rows)
    requires forall id :: id in rows <==>
      id in s.tasks && InChain(s.tasks[id], task) && s.tasks[id].chainLayer == Some(layer)
    requires forall id, head | id in rows :: HasHead(heads, id, head) <==> SucceededAt(s.runs, id, head)
    ensures sibling == SiblingReport(c, s, task, fix, layer, role)
  {
    var matches := MatchesOf(s.tasks, rows, role);
    OnlyMatch(matches, Siblings(s.tasks, task, layer, role));
    if |matches| == 0 {
      return if Instantiated(s.tasks, task, role) then Unusable(SiblingMissing(role)) else Excused;
    }
    if |matches| != 1 { return Unusable(SiblingMissing(role)); }
    var id := matches[0];
    assert id in Siblings(s.tasks, task, layer, role);
    OneSibling(c, s, task, fix, layer, role, id);
    sibling := StoredReportOf(c, s, fix, role, id, heads);
  }

  method StoredReportOf(c: Contracts, s: Store, fix: FixedArtifact, role: StepRole, id: string,
      heads: map<string, set<string>>)
      returns (sibling: Sibling)
    requires id in s.tasks && s.tasks[id].step.Some?
    requires forall head :: HasHead(heads, id, head) <==> SucceededAt(s.runs, id, head)
    ensures sibling == ReportOf(c, s, fix, role, id)
  {
    if id !in s.outputs || s.outputs[id].kind != s.tasks[id].step.value.outputKind {
      return Unusable(SiblingMissing(role));
    }
    var output := s.outputs[id];
    if output.runId.None? || output.runId.value !in s.runs || s.runs[output.runId.value].taskId != id
       || output.commitSha.None? || !HasHead(heads, id, output.commitSha.value) {
      return Unusable(SiblingUnbacked(role));
    }
    var report := c.review(output.body);
    if report.None? { return Unusable(SiblingViolatesContract(role)); }
    if output.commitSha.value != fix.sourceHead || report.value.headSha != fix.sourceHead
       || report.value.reviewedHead != fix.sourceHead {
      return Unusable(SourceHeadMismatch(role));
    }
    sibling := Reports(report.value);
  }

  // The table of stored outputs, with the history the guarantees speak of.
  class OutputTable {
    var store: Store

    constructor (store: Store)
      ensures this.store == store
    {
      this.store := store;
    }

    // Upserts the task's row, or refuses and changes nothing.
    method Persist(c: Contracts, input: Input) returns (outcome: Outcome)
      modifies this
      ensures (store, outcome) == PersistStep(c, old(store), input)
    {
      if !Authorized(store, input) { return StaleFence; }
      var task := store.tasks[input.taskId];
      var existing := if input.taskId in store.outputs then Some(store.outputs[input.taskId]) else None;
      if input.kind == RETIRED_KIND || (task.step.Some? && task.step.value.outputKind == RETIRED_KIND) {
        return Refused(RetiredKind);
      }
      if task.step.Some? {
        var step := task.step.value;
        if CanonicalAgentKind(step.outputKind) && input.kind != step.outputKind { return Refused(WrongKind); }
        if ImmutableOncePersisted(step.outputKind) && existing.Some? { return Refused(Immutable); }
        if CanonicalAgentKind(step.outputKind) {
          var body := BodyRefusal(c, step, input.body, input.commitSha, MetadataPhase(input.metadata));
          if body.Some? { return Refused(body.value); }
        }
        if RoleIs(task.step, FixedImplementation) {
          var fix := FixedImplementationPersistenceRefusal(c, store, task, input.body);
          if fix.Some? { return Refused(fix.value); }
        }
        if RoleIs(task.step, MustFix) {
          var blind := BlindRefusal(c, existing, input);
          if blind.Some? { return Refused(blind.value); }
        }
      }
      assert PersistRefusal(c, store, task, input) == None;
      var unlocks := Unlocks(task, input);
      if unlocks && existing.Some? {
        store := store.(archive := store.archive + [Archived(input.taskId, input.runId, existing.value.body)]);
      }
      var output := Upserted(existing, input);
      store := store.(outputs := store.outputs[input.taskId := output]);
      var evidence := if unlocks then PredecessorOutputs(store, task) else map[];
      var write := Write(input.runId, input.kind, input.body, input.commitSha, MetadataPhase(output.metadata),
          evidence);
      store := store.(writes := store.writes[input.taskId := WritesOf(store, input.taskId) + [write]]);
      outcome := Accepted(output, evidence);
    }
  }
}
