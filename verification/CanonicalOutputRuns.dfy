// What canonical persistence guarantees over every sequence of calls.
module CanonicalOutputRuns {
  import opened Prelude
  import opened StepKinds
  import opened CanonicalOutput

  /* ------------------------------- events ------------------------------- */

  // A Run gets the fence of a task only while no other Run holds it, and never
  // gets it back once it has stopped.
  datatype Event =
    | Persist(input: Input)
    | StartRun(runId: string, taskId: string)
    | EndRun(runId: string, succeeded: bool, headSha: Option<string>)

  predicate NobodyLive(runs: map<string, Run>, taskId: string) {
    forall id | id in runs && runs[id].taskId == taskId :: runs[id].status != Live
  }

  predicate Enabled(s: Store, e: Event) {
    match e
    case Persist(_) => true
    case StartRun(runId, taskId) => runId !in s.runs && NobodyLive(s.runs, taskId)
    case EndRun(runId, _, _) => runId in s.runs && s.runs[runId].status == Live
  }

  function Next(c: Contracts, s: Store, e: Event): Store
    requires Enabled(s, e)
  {
    match e
    case Persist(input) => PersistStep(c, s, input).0
    case StartRun(runId, taskId) => s.(runs := s.runs[runId := Run(taskId, Live, None)])
    case EndRun(runId, succeeded, headSha) =>
      var status := if succeeded then Succeeded else Stopped;
      s.(runs := s.runs[runId := s.runs[runId].(status := status, headSha := headSha)])
  }

  predicate Initial(s: Store) {
    s.runs == map[] && s.outputs == map[] && s.writes == map[] && s.archive == []
  }

  function Execute(c: Contracts, s: Store, events: seq<Event>): Option<Store> {
    if events == [] then Some(s)
    else
      var before := Execute(c, s, events[..|events| - 1]);
      var e := events[|events| - 1];
      if before.Some? && Enabled(before.value, e) then Some(Next(c, before.value, e)) else None
  }

  ghost predicate Reachable(c: Contracts, s: Store) {
    exists start: Store, events: seq<Event> :: Initial(start) && Execute(c, start, events) == Some(s)
  }

  /* --------------------------- blind sequences -------------------------- */

  // The writes of a combined blind review, in order.
  predicate BlindOrder(c: Contracts, writes: seq<Write>) {
    forall i: nat {:trigger BlindStep(c, writes, i)} | i < |writes| :: BlindStep(c, writes, i)
  }

  predicate BlindStep(c: Contracts, writes: seq<Write>, i: nat)
    requires i < |writes|
  {
    match writes[i].phase
    case Some(IndependentFindings) =>
      i > 0 && writes[i - 1].runId == writes[i].runId ==> writes[i - 1].phase == Some(IndependentFindings)
    case Some(EvidenceUnlocked) =>
      && i > 0 && writes[i - 1].runId == writes[i].runId && writes[i - 1].phase == Some(IndependentFindings)
      && writes[i - 1].body == writes[i].body
    case Some(ClosedMustFix) =>
      && i > 0 && writes[i - 1].runId == writes[i].runId && writes[i - 1].phase == Some(EvidenceUnlocked)
      && SequenceRefusal(c.review(writes[i - 1].body), c.closedReview(writes[i].body)) == None
    case _ => false
  }

  // A Run that no longer holds the fence has no write after another Run's.
  predicate OneBlockPerRun(writes: seq<Write>) {
    forall i: nat, j: nat, k: nat | i < j < k < |writes| && writes[i].runId == writes[k].runId ::
      writes[j].runId == writes[i].runId
  }

  predicate WritersKnown(s: Store, task: string) {
    var writes := WritesOf(s, task);
    && (forall i: nat | i < |writes| :: writes[i].runId in s.runs && s.runs[writes[i].runId].taskId == task)
    && (forall i: nat | i < |writes| && s.runs[writes[i].runId].status == Live ::
      writes[i].runId == writes[|writes| - 1].runId)
  }

  // The stored row is what the last write made of it.
  predicate RowIsLastWrite(s: Store, task: string) {
    var writes := WritesOf(s, task);
    && (task in s.outputs <==> writes != [])
    && (writes != [] ==>
      var last, row := writes[|writes| - 1], s.outputs[task];
      row.runId == Some(last.runId) && row.kind == last.kind && row.body == last.body
          && MetadataPhase(row.metadata) == last.phase
      && (last.commitSha.Some? && last.commitSha.value != "" ==> row.commitSha == last.commitSha))
  }

  // Evidence was given only with an unlocking write, and the findings it
  // followed were archived.
  predicate EvidenceOk(s: Store, task: string) {
    var writes := WritesOf(s, task);
    forall i: nat | i < |writes| ::
      && (writes[i].evidence != map[] ==> task in s.tasks && RoleIs(s.tasks[task].step, MustFix)
                                          && writes[i].phase == Some(EvidenceUnlocked))
      && (task in s.tasks && RoleIs(s.tasks[task].step, MustFix) && writes[i].phase == Some(EvidenceUnlocked) ==>
          Archived(task, writes[i].runId, writes[i].body) in s.archive)
  }

  predicate BodiesOk(c: Contracts, s: Store, task: string) {
    var writes := WritesOf(s, task);
    task in s.tasks && s.tasks[task].step.Some? && CanonicalAgentKind(s.tasks[task].step.value.outputKind) ==>
      forall i: nat | i < |writes| ::
        BodyRefusal(c, s.tasks[task].step.value, writes[i].body, writes[i].commitSha, writes[i].phase) == None
  }

  predicate TaskOk(c: Contracts, s: Store, task: string) {
    && RowIsLastWrite(s, task) && WritersKnown(s, task) && OneBlockPerRun(WritesOf(s, task)) && EvidenceOk(s, task)
    && BodiesOk(c, s, task)
    && (task in s.tasks && RoleIs(s.tasks[task].step, MustFix) ==> BlindOrder(c, WritesOf(s, task)))
    && (WritesOf(s, task) != [] ==> task in s.tasks)
  }

  // One fence per task at a time.
  predicate FenceExclusive(runs: map<string, Run>) {
    forall a, b | a in runs && b in runs && runs[a].status == Live && runs[b].status == Live
                  && runs[a].taskId == runs[b].taskId :: a == b
  }

  ghost predicate SequencesOk(c: Contracts, s: Store) {
    FenceExclusive(s.runs) && forall task {:trigger TaskOk(c, s, task)} :: TaskOk(c, s, task)
  }

  lemma BlindStepKept(c: Contracts, writes: seq<Write>, write: Write, i: nat)
    requires i < |writes| && BlindStep(c, writes, i)
    ensures BlindStep(c, writes + [write], i)
  {
    assert (writes + [write])[i] == writes[i];
    if i > 0 { assert (writes + [write])[i - 1] == writes[i - 1]; }
  }

  function Existing(s: Store, task: string): Option<Output> {
    if task in s.outputs then Some(s.outputs[task]) else None
  }

  function WriteOf(s: Store, input: Input): Write
    requires Authorized(s, input)
  {
    var output := Upserted(Existing(s, input.taskId), input);
    var task := s.tasks[input.taskId];
    Write(input.runId, input.kind, input.body, input.commitSha, MetadataPhase(output.metadata),
          if Unlocks(task, input) then PredecessorOutputs(s.(outputs := s.outputs[input.taskId := output]), task)
          else map[])
  }

  // What an accepted call adds, and all it changes.
  lemma AcceptedAppends(c: Contracts, s: Store, input: Input)
    requires PersistStep(c, s, input).1.Accepted?
    ensures Authorized(s, input) && PersistRefusal(c, s, s.tasks[input.taskId], input) == None
    ensures var t := PersistStep(c, s, input).0;
            && t.tasks == s.tasks && t.runs == s.runs
            && t.outputs == s.outputs[input.taskId := Upserted(Existing(s, input.taskId), input)]
            && t.writes == s.writes[input.taskId := WritesOf(s, input.taskId) + [WriteOf(s, input)]]
            && s.archive <= t.archive
            && (Unlocks(s.tasks[input.taskId], input) && Existing(s, input.taskId).Some? ==>
                Archived(input.taskId, input.runId, s.outputs[input.taskId].body) in t.archive)
            && PersistStep(c, s, input).1.evidence == WriteOf(s, input).evidence
  {
  }

  lemma RefusedChangesNothing(c: Contracts, s: Store, input: Input)
    requires !PersistStep(c, s, input).1.Accepted?
    ensures PersistStep(c, s, input).0 == s
  {
  }

  lemma BlindAllowed(c: Contracts, s: Store, input: Input)
    requires Authorized(s, input) && RoleIs(s.tasks[input.taskId].step, MustFix)
    requires PersistRefusal(c, s, s.tasks[input.taskId], input) == None
    ensures BlindRefusal(c, Existing(s, input.taskId), input) == None
    ensures MetadataPhase(Upserted(Existing(s, input.taskId), input).metadata) == MetadataPhase(input.metadata)
  {
  }

  // A write the sequence allows after the row the last write left.
  lemma AllowedStep(c: Contracts, writes: seq<Write>, existing: Option<Output>, input: Input, write: Write)
    requires BlindRefusal(c, existing, input) == None
    requires existing.Some? <==> writes != []
    requires writes != [] ==>
      var last := writes[|writes| - 1];
      existing.value.runId == Some(last.runId) && existing.value.body == last.body
          && MetadataPhase(existing.value.metadata) == last.phase
    requires write.runId == input.runId && write.body == input.body && write.phase == MetadataPhase(input.metadata)
    ensures BlindStep(c, writes + [write], |writes|)
  {
  }

  lemma OneMoreStep(c: Contracts, writes: seq<Write>, write: Write)
    requires BlindOrder(c, writes) && BlindStep(c, writes + [write], |writes|)
    ensures BlindOrder(c, writes + [write])
  {
    forall i: nat | i < |writes| + 1
      ensures BlindStep(c, writes + [write], i)
    {
      if i < |writes| { BlindStepKept(c, writes, write, i); }
    }
  }

  lemma AcceptedIsAllowed(c: Contracts, s: Store, input: Input)
    requires PersistStep(c, s, input).1.Accepted? && Authorized(s, input)
    ensures PersistRefusal(c, s, s.tasks[input.taskId], input) == None
  {
  }

  lemma WrittenAsInput(s: Store, input: Input)
    requires Authorized(s, input)
    requires MetadataPhase(Upserted(Existing(s, input.taskId), input).metadata) == MetadataPhase(input.metadata)
    ensures var write := WriteOf(s, input);
            write.runId == input.runId && write.body == input.body && write.phase == MetadataPhase(input.metadata)
  {
  }

  lemma BlindWrites(c: Contracts, s: Store, task: string)
    requires TaskOk(c, s, task) && task in s.tasks && RoleIs(s.tasks[task].step, MustFix)
    ensures RowIsLastWrite(s, task) && BlindOrder(c, WritesOf(s, task))
  {
  }

  lemma AcceptedBlindStep(c: Contracts, s: Store, input: Input)
    requires TaskOk(c, s, input.taskId) && PersistStep(c, s, input).1.Accepted?
    requires Authorized(s, input) && RoleIs(s.tasks[input.taskId].step, MustFix)
    ensures BlindOrder(c, WritesOf(s, input.taskId) + [WriteOf(s, input)])
  {
    BlindWrites(c, s, input.taskId);
    AcceptedIsAllowed(c, s, input);
    BlindAllowed(c, s, input);
    WrittenAsInput(s, input);
    AllowedStep(c, WritesOf(s, input.taskId), Existing(s, input.taskId), input, WriteOf(s, input));
    OneMoreStep(c, WritesOf(s, input.taskId), WriteOf(s, input));
  }

  lemma BlockKept(s: Store, task: string, runId: string, write: Write)
    requires OneBlockPerRun(WritesOf(s, task)) && WritersKnown(s, task)
    requires runId in s.runs && s.runs[runId].status == Live && write.runId == runId
    ensures OneBlockPerRun(WritesOf(s, task) + [write])
  {
    var writes := WritesOf(s, task);
    var after := writes + [write];
    forall i: nat, j: nat, k: nat | i < j < k < |after| && after[i].runId == after[k].runId
      ensures after[j].runId == after[i].runId
    {
      assert after[i] == writes[i] && after[j] == writes[j];
      if k == |writes| {
        assert writes[i].runId == runId && writes[|writes| - 1].runId == runId;
        if j < |writes| - 1 { assert writes[|writes| - 1].runId == writes[i].runId; }
      } else {
        assert after[k] == writes[k];
      }
    }
  }

  lemma WritersKept(s: Store, input: Input, writes: seq<Write>, write: Write)
    requires FenceExclusive(s.runs) && Authorized(s, input) && WritersKnown(s, input.taskId)
    requires writes == WritesOf(s, input.taskId) && write.runId == input.runId
    ensures var after := writes + [write];
            && (forall i: nat | i < |after| ::
               after[i].runId in s.runs && s.runs[after[i].runId].taskId == input.taskId)
            && (forall i: nat | i < |after|
               && s.runs[after[i].runId].status == Live :: after[i].runId == after[|after| - 1].runId)
  {
    var after := writes + [write];
    forall i: nat | i < |after|
      ensures after[i].runId in s.runs && s.runs[after[i].runId].taskId == input.taskId
      ensures s.runs[after[i].runId].status == Live ==> after[i].runId == input.runId
    {
      if i < |writes| { assert after[i] == writes[i]; }
    }
  }

  lemma EvidenceKept(c: Contracts, s: Store, input: Input)
    requires TaskOk(c, s, input.taskId) && PersistStep(c, s, input).1.Accepted?
    ensures EvidenceOk(PersistStep(c, s, input).0, input.taskId)
  {
    AcceptedAppends(c, s, input);
    var t := PersistStep(c, s, input).0;
    var before, write := WritesOf(s, input.taskId), WriteOf(s, input);
    if Unlocks(s.tasks[input.taskId], input) {
      BlindAllowed(c, s, input);
    }
    forall i: nat | i < |before| + 1
      ensures var w := (before + [write])[i];
              && (w.evidence != map[] ==>
                 RoleIs(t.tasks[input.taskId].step, MustFix) && w.phase == Some(EvidenceUnlocked))
              && (RoleIs(t.tasks[input.taskId].step, MustFix) && w.phase == Some(EvidenceUnlocked) ==>
                  Archived(input.taskId, w.runId, w.body) in t.archive)
    {
      if i < |before| {
        assert (before + [write])[i] == before[i];
      } else if RoleIs(t.tasks[input.taskId].step, MustFix) {
        BlindAllowed(c, s, input);
      }
    }
  }

  lemma BodiesKept(c: Contracts, s: Store, input: Input)
    requires TaskOk(c, s, input.taskId) && PersistStep(c, s, input).1.Accepted?
    ensures BodiesOk(c, PersistStep(c, s, input).0, input.taskId)
  {
    AcceptedAppends(c, s, input);
    var before, write := WritesOf(s, input.taskId), WriteOf(s, input);
    var step := s.tasks[input.taskId].step;
    if step.Some? && CanonicalAgentKind(step.value.outputKind) {
      WrittenBody(c, s, input);
      forall i: nat | i < |before| + 1
        ensures var w := (before + [write])[i]; BodyRefusal(c, step.value, w.body, w.commitSha, w.phase) == None
      {
        if i < |before| { assert (before + [write])[i] == before[i]; }
      }
    }
  }

  // The checks on a body read the phase only under the bare must-fix kind,
  // where the written phase is the one that was checked.
  lemma WrittenBody(c: Contracts, s: Store, input: Input)
    requires PersistStep(c, s, input).1.Accepted? && Authorized(s, input) && s.tasks[input.taskId].step.Some?
    requires CanonicalAgentKind(s.tasks[input.taskId].step.value.outputKind)
    ensures var w := WriteOf(s, input);
            BodyRefusal(c, s.tasks[input.taskId].step.value, w.body, w.commitSha, w.phase) == None
  {
    AcceptedAppends(c, s, input);
    BodyAllowed(c, s, input);
    var step := s.tasks[input.taskId].step.value;
    if step.outputKind == MUST_FIX {
      MustFixRole();
      BlindAllowed(c, s, input);
    } else {
      PhaseIgnored(c, step, input.body, input.commitSha, MetadataPhase(input.metadata), WriteOf(s, input).phase);
    }
  }

  lemma PhaseIgnored(c: Contracts, step: Step, body: string, authored: Option<string>, phase: Option<Phase>,
      other: Option<Phase>)
    requires step.outputKind != MUST_FIX
    ensures BodyRefusal(c, step, body, authored, phase) == BodyRefusal(c, step, body, authored, other)
  {
  }

  lemma BodyAllowed(c: Contracts, s: Store, input: Input)
    requires Authorized(s, input) && s.tasks[input.taskId].step.Some?
    requires CanonicalAgentKind(s.tasks[input.taskId].step.value.outputKind)
    requires PersistRefusal(c, s, s.tasks[input.taskId], input) == None
    ensures BodyRefusal(c, s.tasks[input.taskId].step.value, input.body, input.commitSha,
        MetadataPhase(input.metadata)) == None
    ensures input.kind == s.tasks[input.taskId].step.value.outputKind
  {
  }

  lemma PersistKeepsOwn(c: Contracts, s: Store, input: Input)
    requires FenceExclusive(s.runs) && TaskOk(c, s, input.taskId) && PersistStep(c, s, input).1.Accepted?
    ensures TaskOk(c, PersistStep(c, s, input).0, input.taskId)
  {
    AcceptedAppends(c, s, input);
    var before, write := WritesOf(s, input.taskId), WriteOf(s, input);
    if RoleIs(s.tasks[input.taskId].step, MustFix) { AcceptedBlindStep(c, s, input); }
    BlockKept(s, input.taskId, input.runId, write);
    WritersKept(s, input, before, write);
    EvidenceKept(c, s, input);
    BodiesKept(c, s, input);
  }

  lemma PersistKeepsOther(c: Contracts, s: Store, input: Input, task: string)
    requires TaskOk(c, s, task) && task != input.taskId && PersistStep(c, s, input).1.Accepted?
    ensures TaskOk(c, PersistStep(c, s, input).0, task)
  {
    AcceptedAppends(c, s, input);
    assert WritesOf(PersistStep(c, s, input).0, task) == WritesOf(s, task);
  }

  lemma EventKeepsSequences(c: Contracts, s: Store, e: Event)
    requires SequencesOk(c, s) && Enabled(s, e)
    ensures SequencesOk(c, Next(c, s, e))
  {
    var t := Next(c, s, e);
    if e.Persist? && !PersistStep(c, s, e.input).1.Accepted? {
      RefusedChangesNothing(c, s, e.input);
    } else {
      if e.Persist? { AcceptedAppends(c, s, e.input); }
      forall task
        ensures TaskOk(c, t, task)
      {
        assert TaskOk(c, s, task);
        if !e.Persist? {
          assert WritesOf(t, task) == WritesOf(s, task);
        } else if task == e.input.taskId {
          PersistKeepsOwn(c, s, e.input);
        } else {
          PersistKeepsOther(c, s, e.input, task);
        }
      }
    }
  }

  lemma {:induction false} ExecuteKeepsSequences(c: Contracts, start: Store, events: seq<Event>, s: Store)
    requires SequencesOk(c, start) && Execute(c, start, events) == Some(s)
    ensures SequencesOk(c, s)
  {
    if events != [] {
      var before := Execute(c, start, events[..|events| - 1]).value;
      ExecuteKeepsSequences(c, start, events[..|events| - 1], before);
      EventKeepsSequences(c, before, events[|events| - 1]);
    }
  }

  lemma ReachableSequences(c: Contracts, s: Store)
    requires Reachable(c, s)
    ensures SequencesOk(c, s)
  {
    var start: Store, events: seq<Event> :| Initial(start) && Execute(c, start, events) == Some(s);
    forall task
      ensures TaskOk(c, start, task)
    {
    }
    ExecuteKeepsSequences(c, start, events, s);
  }

  /* ------------------- what a blind review may rely on ------------------- */

  // After unlocking, the only write left to that Run is one closed review.
  lemma AfterUnlock(c: Contracts, s: Store, task: string, i: nat, k: nat)
    requires Reachable(c, s) && task in s.tasks && RoleIs(s.tasks[task].step, MustFix)
    requires i < k < |WritesOf(s, task)| && WritesOf(s, task)[i].phase == Some(EvidenceUnlocked)
    requires WritesOf(s, task)[k].runId == WritesOf(s, task)[i].runId
    ensures k == i + 1 && WritesOf(s, task)[k].phase == Some(ClosedMustFix)
  {
    ReachableSequences(c, s);
    assert TaskOk(c, s, task);
    OrderAfterUnlock(c, WritesOf(s, task), i, k);
  }

  lemma OrderAfterUnlock(c: Contracts, writes: seq<Write>, i: nat, k: nat)
    requires BlindOrder(c, writes) && OneBlockPerRun(writes)
    requires i < k < |writes| && writes[i].phase == Some(EvidenceUnlocked) && writes[k].runId == writes[i].runId
    ensures k == i + 1 && writes[k].phase == Some(ClosedMustFix)
  {
    assert BlindStep(c, writes, i + 1) && (k > i + 1 ==> BlindStep(c, writes, i + 2));
  }

  // Predecessor evidence reaches a blind review only in a call that repeats the
  // body of the independent findings the same Run persisted directly before,
  // and that body is archived. It reaches a Run at most once, and that Run never
  // persists independent findings again.
  lemma EvidenceAfterFindings(c: Contracts, s: Store, task: string, i: nat)
    requires Reachable(c, s) && i < |WritesOf(s, task)| && WritesOf(s, task)[i].evidence != map[]
    ensures var writes := WritesOf(s, task);
            && i > 0 && writes[i - 1].runId == writes[i].runId && writes[i - 1].phase == Some(IndependentFindings)
            && writes[i - 1].body == writes[i].body
            && Archived(task, writes[i].runId, writes[i - 1].body) in s.archive
            && (forall k: nat | k < |writes| && k != i
               && writes[k].runId == writes[i].runId :: writes[k].evidence == map[])
            && (forall k: nat | i < k < |writes|
               && writes[k].runId == writes[i].runId :: writes[k].phase != Some(IndependentFindings))
  {
    ReachableSequences(c, s);
    assert TaskOk(c, s, task);
    var writes := WritesOf(s, task);
    assert BlindStep(c, writes, i);
    forall k: nat | k < |writes| && k != i && writes[k].runId == writes[i].runId
      ensures writes[k].evidence == map[]
      ensures k > i ==> writes[k].phase != Some(IndependentFindings)
    {
      if k > i {
        OrderAfterUnlock(c, writes, i, k);
      } else if writes[k].phase == Some(EvidenceUnlocked) {
        OrderAfterUnlock(c, writes, k, i);
      }
    }
  }

  predicate EarlierInChain(s: Store, task: Task, id: string) {
    && id in s.tasks && task.chainId.Some? && task.chainId.value != ""
    && s.tasks[id].chainId == task.chainId && s.tasks[id].projectId == task.projectId
    && s.tasks[id].chainIndex.Some? && task.chainIndex.Some? && s.tasks[id].chainIndex.value < task.chainIndex.value
  }

  // The evidence of an accepted call is what the chain's earlier tasks have
  // stored, all of it, and nothing of the review's own or of later tasks.
  lemma EvidenceIsPredecessors(c: Contracts, s: Store, input: Input, id: string)
    requires PersistStep(c, s, input).1.Accepted? && Unlocks(s.tasks[input.taskId], input)
    ensures var task, evidence := s.tasks[input.taskId], PersistStep(c, s, input).1.evidence;
            && (id in evidence <==> id != input.taskId && id in s.outputs && EarlierInChain(s, task, id))
            && (id in evidence ==> evidence[id] == s.outputs[id])
  {
    AcceptedAppends(c, s, input);
  }

  // A closed review in a Run's history covers the findings the Run itself wrote
  // two writes earlier, over the same range, and is that Run's last write.
  lemma ClosedReviewAccounts(c: Contracts, s: Store, task: string, i: nat)
    requires Reachable(c, s) && task in s.tasks && RoleIs(s.tasks[task].step, MustFix)
    requires i < |WritesOf(s, task)| && WritesOf(s, task)[i].phase == Some(ClosedMustFix)
    ensures var writes := WritesOf(s, task);
            && i >= 2 && writes[i - 2].runId == writes[i].runId && writes[i - 2].phase == Some(IndependentFindings)
            && c.review(writes[i - 2].body).Some? && c.closedReview(writes[i].body).Some?
    ensures var writes := WritesOf(s, task);
            var independent, closed := c.review(writes[i - 2].body).value, c.closedReview(writes[i].body).value;
            && closed.review.headSha == independent.headSha && closed.review.reviewedBase == independent.reviewedBase
            && closed.review.reviewedHead == independent.reviewedHead
            && forall finding | finding in independent.findings :: exists d | d in closed.dispositions ::
               d.id == finding.id
    ensures forall k: nat | i < k < |WritesOf(s, task)| :: WritesOf(s, task)[k].runId != WritesOf(s, task)[i].runId
  {
    ReachableSequences(c, s);
    assert TaskOk(c, s, task);
    var writes := WritesOf(s, task);
    assert BlindStep(c, writes, i) && BlindStep(c, writes, i - 1);
    forall k: nat | i < k < |writes|
      ensures writes[k].runId != writes[i].runId
    {
      if writes[k].runId == writes[i].runId { OrderAfterUnlock(c, writes, i - 1, k); }
    }
    CoveredFindings(c.review(writes[i - 2].body).value, c.closedReview(writes[i].body).value);
  }

  lemma CoveredFindings(independent: ReviewArtifact, closed: ClosedReview)
    ensures Elements(FindingIds(independent.findings)) <= Elements(DispositionIds(closed.dispositions)) <==>
            forall finding | finding in independent.findings :: exists d | d in closed.dispositions ::
                d.id == finding.id
  {
    var sources, covered := FindingIds(independent.findings), DispositionIds(closed.dispositions);
    if Elements(sources) <= Elements(covered) {
      forall finding | finding in independent.findings
        ensures exists d | d in closed.dispositions :: d.id == finding.id
      {
        var j :| 0 <= j < |independent.findings| && independent.findings[j] == finding;
        assert sources[j] in Elements(sources);
        var k :| 0 <= k < |covered| && covered[k] == sources[j];
        assert closed.dispositions[k].id == finding.id;
      }
    }
    if forall finding | finding in independent.findings :: exists d | d in closed.dispositions :: d.id == finding.id {
      forall id | id in Elements(sources)
        ensures id in Elements(covered)
      {
        var j :| 0 <= j < |sources| && sources[j] == id;
        var d :| d in closed.dispositions && d.id == independent.findings[j].id;
        var k :| 0 <= k < |closed.dispositions| && closed.dispositions[k] == d;
        assert covered[k] == id;
      }
    }
  }
}
