// The fix step: its dispositions answer its sibling reports, now and later.
module CanonicalFixStep {
  import opened Prelude
  import opened StepKinds
  import opened CanonicalOutput
  import opened CanonicalOutputRuns

  // Everything one event leaves in place.
  predicate Grows(s: Store, t: Store) {
    && t.tasks == s.tasks
    && (forall r | r in s.runs ::
      r in t.runs && t.runs[r].taskId == s.runs[r].taskId && (s.runs[r].status == Succeeded ==> t.runs[r] == s.runs[r]))
    && (forall id | id in s.outputs && id in s.tasks && s.tasks[id].step.Some?
                    && ImmutableOncePersisted(s.tasks[id].step.value.outputKind) ::
      id in t.outputs && t.outputs[id] == s.outputs[id])
  }

  lemma EventGrows(c: Contracts, s: Store, e: Event)
    requires Enabled(s, e)
    ensures Grows(s, Next(c, s, e))
  {
    if e.Persist? && PersistStep(c, s, e.input).1.Accepted? {
      AcceptedAppends(c, s, e.input);
      AcceptedIsNew(c, s, e.input);
    } else if e.Persist? {
      RefusedChangesNothing(c, s, e.input);
    }
  }

  // A findings report already stored is never accepted again.
  lemma AcceptedIsNew(c: Contracts, s: Store, input: Input)
    requires PersistStep(c, s, input).1.Accepted? && Authorized(s, input)
    ensures s.tasks[input.taskId].step.Some? && ImmutableOncePersisted(s.tasks[input.taskId].step.value.outputKind) ==>
      input.taskId !in s.outputs
  {
  }

  // Reports never change once persisted, whatever calls come after.
  lemma {:induction false} ReportsImmutable(c: Contracts, s: Store, events: seq<Event>, t: Store, task: string)
    requires Execute(c, s, events) == Some(t)
    requires task in s.outputs && task in s.tasks && s.tasks[task].step.Some?
    requires ImmutableOncePersisted(s.tasks[task].step.value.outputKind)
    ensures t.tasks == s.tasks && task in t.outputs && t.outputs[task] == s.outputs[task]
  {
    if events != [] {
      var before := Execute(c, s, events[..|events| - 1]).value;
      ReportsImmutable(c, s, events[..|events| - 1], before, task);
      EventGrows(c, before, events[|events| - 1]);
    }
  }

  lemma SucceededStays(s: Store, t: Store, task: string, head: string)
    requires Grows(s, t) && SucceededAt(s.runs, task, head)
    ensures SucceededAt(t.runs, task, head)
  {
    var run :| run in s.runs && s.runs[run].taskId == task && s.runs[run].status == Succeeded
        && s.runs[run].headSha == Some(head);
    assert run in t.runs;
  }

  lemma ReportStays(c: Contracts, s: Store, t: Store, fix: FixedArtifact, role: StepRole, id: string)
    requires Grows(s, t) && id in s.tasks && RoleIs(s.tasks[id].step, role)
        && (role == ReviewFindings || role == BlindFindings)
    requires ReportOf(c, s, fix, role, id).Reports?
    ensures ReportOf(c, t, fix, role, id) == ReportOf(c, s, fix, role, id)
  {
    SucceededStays(s, t, id, s.outputs[id].commitSha.value);
  }

  lemma SiblingStays(c: Contracts, s: Store, t: Store, task: Task, fix: FixedArtifact, layer: int, role: StepRole)
    requires Grows(s, t) && (role == ReviewFindings || role == BlindFindings)
    requires !SiblingReport(c, s, task, fix, layer, role).Unusable?
    ensures SiblingReport(c, t, task, fix, layer, role) == SiblingReport(c, s, task, fix, layer, role)
  {
    var matches := Siblings(s.tasks, task, layer, role);
    if matches != {} {
      var id :| id in matches && matches == {id};
      ReportStays(c, s, t, fix, role, id);
    }
  }

  lemma FixStaysGrowing(c: Contracts, s: Store, t: Store, task: Task, body: string)
    requires Grows(s, t) && FixRefusal(c, s, task, body) == None
    ensures FixRefusal(c, t, task, body) == None
  {
    var fix, layer := c.fixed(body).value, ReviewLayer(s.tasks, task).value;
    SiblingStays(c, s, t, task, fix, layer, ReviewFindings);
    SiblingStays(c, s, t, task, fix, layer, BlindFindings);
  }

  // What is accepted as a fix now would be accepted again after any later calls.
  lemma {:induction false} FixStays(c: Contracts, s: Store, events: seq<Event>, t: Store, task: Task, body: string)
    requires Execute(c, s, events) == Some(t) && FixRefusal(c, s, task, body) == None
    ensures FixRefusal(c, t, task, body) == None
  {
    if events != [] {
      var before := Execute(c, s, events[..|events| - 1]).value;
      FixStays(c, s, events[..|events| - 1], before, task, body);
      EventGrows(c, before, events[|events| - 1]);
      FixStaysGrowing(c, before, t, task, body);
    }
  }

  ghost predicate FixesOk(c: Contracts, s: Store) {
    forall id {:trigger FixOk(c, s, id)} | id in s.outputs && id in s.tasks
        && RoleIs(s.tasks[id].step, FixedImplementation) ::
      FixOk(c, s, id)
  }

  predicate FixOk(c: Contracts, s: Store, id: string)
    requires id in s.outputs && id in s.tasks
  {
    FixRefusal(c, s, s.tasks[id], s.outputs[id].body) == None
  }

  lemma FixAllowed(c: Contracts, s: Store, input: Input)
    requires PersistStep(c, s, input).1.Accepted? && Authorized(s, input)
    requires RoleIs(s.tasks[input.taskId].step, FixedImplementation)
    ensures FixRefusal(c, s, s.tasks[input.taskId], input.body) == None
  {
  }

  lemma EventKeepsFixes(c: Contracts, s: Store, e: Event)
    requires FixesOk(c, s) && Enabled(s, e)
    ensures FixesOk(c, Next(c, s, e))
  {
    var t := Next(c, s, e);
    EventGrows(c, s, e);
    forall id | id in t.outputs && id in t.tasks && RoleIs(t.tasks[id].step, FixedImplementation)
      ensures FixOk(c, t, id)
    {
      if e.Persist? && e.input.taskId == id && PersistStep(c, s, e.input).1.Accepted? {
        AcceptedAppends(c, s, e.input);
        FixAllowed(c, s, e.input);
        FixStaysGrowing(c, s, t, s.tasks[id], e.input.body);
      } else {
        OutputUntouched(c, s, e, id);
        assert FixOk(c, s, id);
        FixStaysGrowing(c, s, t, s.tasks[id], s.outputs[id].body);
      }
    }
  }

  lemma OutputUntouched(c: Contracts, s: Store, e: Event, id: string)
    requires Enabled(s, e) && id in Next(c, s, e).outputs
    requires !(e.Persist? && e.input.taskId == id && PersistStep(c, s, e.input).1.Accepted?)
    ensures id in s.outputs && Next(c, s, e).outputs[id] == s.outputs[id]
  {
    if e.Persist? {
      if PersistStep(c, s, e.input).1.Accepted? { AcceptedAppends(c, s, e.input); }
      else { RefusedChangesNothing(c, s, e.input); }
    }
  }

  lemma {:induction false} ExecuteKeepsFixes(c: Contracts, start: Store, events: seq<Event>, s: Store)
    requires FixesOk(c, start) && Execute(c, start, events) == Some(s)
    ensures FixesOk(c, s)
  {
    if events != [] {
      var before := Execute(c, start, events[..|events| - 1]).value;
      ExecuteKeepsFixes(c, start, events[..|events| - 1], before);
      EventKeepsFixes(c, before, events[|events| - 1]);
    }
  }

  lemma OneSibling(c: Contracts, s: Store, task: Task, fix: FixedArtifact, layer: int, role: StepRole, id: string)
    requires Siblings(s.tasks, task, layer, role) == {id} && id in s.tasks && s.tasks[id].step.Some?
    ensures SiblingReport(c, s, task, fix, layer, role) == ReportOf(c, s, fix, role, id)
  {
    assert id in Siblings(s.tasks, task, layer, role);
    assert exists other ::
      other in Siblings(s.tasks, task, layer, role) && Siblings(s.tasks, task, layer, role) == {other};
  }

  /* -------------------------- what the check means ----------------------- */

  // The ids of all findings in the reports stored in the fix step's review layer.
  function SiblingFindingIds(c: Contracts, s: Store, task: Task): set<string> {
    match ReviewLayer(s.tasks, task)
    case None => {}
    case Some(layer) =>
      set id, k | id in Siblings(s.tasks, task, layer, ReviewFindings) + Siblings(s.tasks, task, layer, BlindFindings)
                  && id in s.outputs && c.review(s.outputs[id].body).Some?
                  && 0 <= k < |c.review(s.outputs[id].body).value.findings|
               :: c.review(s.outputs[id].body).value.findings[k].id
  }

  // What one usable sibling says: nothing stored, or one report every sibling of the role holds.
  predicate SpeaksFor(c: Contracts, s: Store, task: Task, layer: int, role: StepRole, sibling: Sibling) {
    && !sibling.Unusable?
    && (forall id | id in Siblings(s.tasks, task, layer, role) ::
      id in s.outputs && c.review(s.outputs[id].body).Some? && sibling == Reports(c.review(s.outputs[id].body).value))
    && (sibling.Reports? ==> Siblings(s.tasks, task, layer, role) != {})
  }

  lemma SiblingSpeaks(c: Contracts, s: Store, task: Task, fix: FixedArtifact, layer: int, role: StepRole)
    requires !SiblingReport(c, s, task, fix, layer, role).Unusable?
    ensures SpeaksFor(c, s, task, layer, role, SiblingReport(c, s, task, fix, layer, role))
  {
    var matches := Siblings(s.tasks, task, layer, role);
    if matches != {} {
      var id :| id in matches && matches == {id};
    }
  }

  lemma ReportedIsStored(c: Contracts, s: Store, task: Task, layer: int, role: StepRole, sibling: Sibling, j: nat)
    requires SpeaksFor(c, s, task, layer, role, sibling) && sibling.Reports? && j < |sibling.review.findings|
    requires ReviewLayer(s.tasks, task) == Some(layer) && (role == ReviewFindings || role == BlindFindings)
    ensures sibling.review.findings[j].id in SiblingFindingIds(c, s, task)
  {
    var source :| source in Siblings(s.tasks, task, layer, role);
    assert c.review(s.outputs[source].body).value.findings[j].id == sibling.review.findings[j].id;
  }

  lemma StoredIsReported(c: Contracts, s: Store, task: Task, layer: int, reviewed: Sibling, blind: Sibling, id: string)
    requires SpeaksFor(c, s, task, layer, ReviewFindings, reviewed)
        && SpeaksFor(c, s, task, layer, BlindFindings, blind)
    requires ReviewLayer(s.tasks, task) == Some(layer) && id in SiblingFindingIds(c, s, task)
    ensures id in AllFindingIds(Reported(reviewed) + Reported(blind))
  {
    var source, k :| source in Siblings(s.tasks, task, layer, ReviewFindings)
        + Siblings(s.tasks, task, layer, BlindFindings)
                     && source in s.outputs && c.review(s.outputs[source].body).Some?
                     && 0 <= k < |c.review(s.outputs[source].body).value.findings|
                     && c.review(s.outputs[source].body).value.findings[k].id == id;
    var reports := Reported(reviewed) + Reported(blind);
    var i := if source in Siblings(s.tasks, task, layer, ReviewFindings) then 0 else |reports| - 1;
    assert reports[i].findings[k].id == id;
  }

  lemma ReportsAreSiblings(c: Contracts, s: Store, task: Task, layer: int, reviewed: Sibling, blind: Sibling)
    requires SpeaksFor(c, s, task, layer, ReviewFindings, reviewed)
        && SpeaksFor(c, s, task, layer, BlindFindings, blind)
    requires ReviewLayer(s.tasks, task) == Some(layer)
    ensures AllFindingIds(Reported(reviewed) + Reported(blind)) == SiblingFindingIds(c, s, task)
  {
    var reports := Reported(reviewed) + Reported(blind);
    forall id | id in AllFindingIds(reports)
      ensures id in SiblingFindingIds(c, s, task)
    {
      var i, j :| 0 <= i < |reports| && 0 <= j < |reports[i].findings| && reports[i].findings[j].id == id;
      if i == 0 && reviewed.Reports? {
        ReportedIsStored(c, s, task, layer, ReviewFindings, reviewed, j);
      } else {
        ReportedIsStored(c, s, task, layer, BlindFindings, blind, j);
      }
    }
    forall id | id in SiblingFindingIds(c, s, task)
      ensures id in AllFindingIds(reports)
    {
      StoredIsReported(c, s, task, layer, reviewed, blind, id);
    }
  }

  // Every finding of every stored sibling report is disposed of, and nothing else.
  lemma FixCovers(c: Contracts, s: Store, task: Task, body: string)
    requires FixRefusal(c, s, task, body) == None
    ensures c.fixed(body).Some?
    ensures Elements(DispositionIds(c.fixed(body).value.dispositions)) == SiblingFindingIds(c, s, task)
  {
    var fix, layer := c.fixed(body).value, ReviewLayer(s.tasks, task).value;
    var reviewed := SiblingReport(c, s, task, fix, layer, ReviewFindings);
    var blind := SiblingReport(c, s, task, fix, layer, BlindFindings);
    SiblingSpeaks(c, s, task, fix, layer, ReviewFindings);
    SiblingSpeaks(c, s, task, fix, layer, BlindFindings);
    ReportsAreSiblings(c, s, task, layer, reviewed, blind);
  }

  // In every reachable store, and so after any further calls that leave it in
  // place, a fix output disposes of exactly the findings of its sibling reports.
  lemma FixOutputCovers(c: Contracts, s: Store, id: string)
    requires Reachable(c, s) && id in s.outputs && id in s.tasks && RoleIs(s.tasks[id].step, FixedImplementation)
    ensures c.fixed(s.outputs[id].body).Some?
    ensures Elements(DispositionIds(c.fixed(s.outputs[id].body).value.dispositions))
        == SiblingFindingIds(c, s, s.tasks[id])
  {
    var start: Store, events: seq<Event> :| Initial(start) && Execute(c, start, events) == Some(s);
    ExecuteKeepsFixes(c, start, events, s);
    assert FixOk(c, s, id);
    FixCovers(c, s, s.tasks[id], s.outputs[id].body);
  }
}
