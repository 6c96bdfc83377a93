// Admitting a chain step: the layer barrier, the startability checklist, the
// chain hold, and what every run of admitted starts keeps.
module ChainAdmission {
  import opened Prelude
  import opened Ordering
  import opened ChainOrder
  import Facts = ChainRunFacts

  /* ------------------------------ the barrier ---------------------------- */

  // Whether an unfinished row stands before the target. A row or target without
  // a layer blocks every other row.
  predicate Blocks(item: Row, target: Row) {
    && item.status != Done
    && if LayerOf(item).Some? && LayerOf(target).Some? then LayerOf(item).value < LayerOf(target).value
       else item.id != target.id
  }

  function Find(rows: seq<Row>, id: string): Option<Row> {
    if rows == [] then None else if rows[0].id == id then Some(rows[0]) else Find(rows[1..], id)
  }

  function FirstBlocking(ordered: seq<Row>, target: Row): Option<Row> {
    if ordered == [] then None
    else if Blocks(ordered[0], target) then Some(ordered[0])
    else FirstBlocking(ordered[1..], target)
  }

  function BlockingPredecessor(rows: seq<Row>, targetId: string): Option<Row> {
    var ordered := Sort(NotAfter, rows);
    match Find(ordered, targetId)
    case None => None
    case Some(target) => FirstBlocking(ordered, target)
  }

  lemma {:induction false} FindMeans(rows: seq<Row>, id: string)
    ensures Find(rows, id).Some? ==> Find(rows, id).value in rows && Find(rows, id).value.id == id
    ensures Find(rows, id).None? ==> forall row | row in rows :: row.id != id
  {
    if rows != [] {
      FindMeans(rows[1..], id);
      assert rows == [rows[0]] + rows[1..];
    }
  }

  lemma {:induction false} FirstBlockingMeans(ordered: seq<Row>, target: Row)
    requires Sorted(NotAfter, ordered)
    ensures FirstBlocking(ordered, target).None? ==> forall row | row in ordered :: !Blocks(row, target)
    ensures FirstBlocking(ordered, target).Some? ==>
      var first := FirstBlocking(ordered, target).value;
      first in ordered && Blocks(first, target) && forall row | row in ordered
          && Blocks(row, target) :: NotAfter(first, row)
  {
    if ordered != [] {
      FirstBlockingMeans(ordered[1..], target);
      assert ordered == [ordered[0]] + ordered[1..];
      NotAfterTotal();
    }
  }

  // No blocker is named exactly when no row blocks; the one named is the first
  // of those that do.
  lemma BlockerMeans(rows: seq<Row>, target: Row)
    requires DistinctIds(rows) && target in rows
    ensures BlockingPredecessor(rows, target.id).None? <==> forall row | row in rows :: !Blocks(row, target)
    ensures BlockingPredecessor(rows, target.id).Some? ==>
      var first := BlockingPredecessor(rows, target.id).value;
      first in rows && Blocks(first, target) && forall row | row in rows && Blocks(row, target) :: NotAfter(first, row)
  {
    NotAfterTotal();
    SortSorts(NotAfter, rows);
    var ordered := Sort(NotAfter, rows);
    forall row
      ensures row in ordered <==> row in rows
    {
      SameRows(rows, row);
    }
    FindMeans(ordered, target.id);
    FirstBlockingMeans(ordered, target);
  }

  /* ----------------------- who is free to go next ------------------------ */

  predicate KnownLayers(rows: seq<Row>) {
    forall row | row in rows :: LayerOf(row).Some?
  }

  predicate LowestUnfinished(rows: seq<Row>, row: Row) {
    && row in rows && row.status != Done && LayerOf(row).Some?
    && forall other | other in rows && other.status != Done
       && LayerOf(other).Some? :: LayerOf(row).value <= LayerOf(other).value
  }

  predicate Free(rows: seq<Row>, row: Row) {
    row in rows && row.status != Done && BlockingPredecessor(rows, row.id).None?
  }

  // With every layer known, the unfinished rows nothing blocks are exactly those
  // of the lowest unfinished layer.
  lemma FreeIsLowestLayer(rows: seq<Row>, row: Row)
    requires DistinctIds(rows) && KnownLayers(rows)
    ensures Free(rows, row) <==> LowestUnfinished(rows, row)
  {
    if row in rows { BlockerMeans(rows, row); }
  }

  // With an unfinished row of unknown layer, only a row that is the last
  // unfinished one is free.
  lemma FreeAmongUnknown(rows: seq<Row>, unknown: Row, row: Row)
    requires DistinctIds(rows) && unknown in rows && unknown.status != Done && LayerOf(unknown).None?
    ensures Free(rows, row) <==> row == unknown && forall other | other in rows && other.status != Done :: other == row
  {
    SameId(rows);
    if row in rows {
      BlockerMeans(rows, row);
      if Free(rows, row) {
        assert !Blocks(unknown, row);
        forall other | other in rows && other.status != Done
          ensures other == row
        {
          assert !Blocks(other, row);
        }
      }
    }
  }

  lemma SameId(rows: seq<Row>)
    requires DistinctIds(rows)
    ensures forall a, b | a in rows && b in rows && a.id == b.id :: a == b
  {
  }

  // A chain stands still, with work left and nothing free, exactly when one of
  // two or more unfinished rows has neither a layer nor an index.
  lemma StuckIff(rows: seq<Row>)
    requires DistinctIds(rows) && exists row :: row in rows && row.status != Done
    ensures (forall row | row in rows :: !Free(rows, row)) <==>
      exists unknown, other :: unknown in rows && other in rows && unknown != other
        && unknown.status != Done && other.status != Done && LayerOf(unknown).None?
  {
    if exists unknown :: unknown in rows && unknown.status != Done && LayerOf(unknown).None? {
      var unknown :| unknown in rows && unknown.status != Done && LayerOf(unknown).None?;
      forall row | row in rows
        ensures Free(rows, row) <==> row == unknown && forall other | other in rows
            && other.status != Done :: other == row
      {
        FreeAmongUnknown(rows, unknown, row);
      }
    } else {
      var start :| start in rows && start.status != Done;
      var lowest := SomeLowest(rows, start, rows);
      BlockerMeans(rows, lowest);
      assert Free(rows, lowest);
    }
  }

  lemma {:induction false} SomeLowest(rows: seq<Row>, start: Row, rest: seq<Row>) returns (lowest: Row)
    requires start in rows && start.status != Done && (forall row | row in rest :: row in rows)
    requires forall row | row in rows && row.status != Done :: LayerOf(row).Some?
    ensures lowest in rows && lowest.status != Done && LayerOf(lowest).value <= LayerOf(start).value
    ensures forall other | other in rest && other.status != Done :: LayerOf(lowest).value <= LayerOf(other).value
    decreases |rest|
  {
    if rest == [] {
      lowest := start;
    } else {
      assert rest == [rest[0]] + rest[1..];
      var better := if rest[0].status != Done && LayerOf(rest[0]).value < LayerOf(start).value then rest[0] else start;
      lowest := SomeLowest(rows, better, rest[1..]);
    }
  }

  /* ------------------------------- the hold ------------------------------ */

  datatype Control = Control(
    projectId: string, chainId: string, held: bool, heldLayer: Option<int>, heldExecutionLayer: Option<int>)

  function ExecutionBarrier(control: Control): Option<int> {
    if control.heldLayer == Some(0) && control.heldExecutionLayer.None? then None
    else if control.heldExecutionLayer.Some? then control.heldExecutionLayer
    else control.heldLayer
  }

  predicate HeldBeforeFirstLayer(control: Control) {
    control.held && control.heldLayer == Some(0) && control.heldExecutionLayer.None?
  }

  predicate Addressed(row: Row, control: Control) {
    control.held && row.chainId == Some(control.chainId) && row.projectId == control.projectId
  }

  predicate Held(row: Row, control: Option<Control>) {
    control.Some? && Addressed(row, control.value) &&
    var barrier := ExecutionBarrier(control.value);
    || HeldBeforeFirstLayer(control.value) || control.value.heldLayer.None?
    || LayerOf(row).None? || barrier.None? || LayerOf(row).value > barrier.value
  }

  // The filter the query builder applies for one control row.
  predicate HeldWhere(row: Row, control: Control) {
    Addressed(row, control) &&
    var barrier := ExecutionBarrier(control);
    if control.heldLayer.None? || HeldBeforeFirstLayer(control) || barrier.None? then true
    else
      || (row.layer.Some? && row.layer.value > barrier.value)
      || (row.layer.None? && ((row.index.Some? && row.index.value > barrier.value) || row.index.None?))
  }

  // The condition the raw query applies; a comparison with NULL does not hold.
  predicate HeldSql(row: Row, control: Control) {
    && Addressed(row, control)
    && (|| control.heldLayer.None?
        || (control.heldLayer == Some(0) && control.heldExecutionLayer.None?)
        || LayerOf(row).None?
        || var barrier := if control.heldExecutionLayer.Some? then control.heldExecutionLayer else control.heldLayer;
           barrier.Some? && LayerOf(row).Some? && LayerOf(row).value > barrier.value)
  }

  // One barrier, however it is asked.
  lemma HoldFormsAgree(row: Row, control: Control)
    ensures Held(row, Some(control)) <==> HeldWhere(row, control)
    ensures Held(row, Some(control)) <==> HeldSql(row, control)
  {
  }

  /* ------------------------------- admission ----------------------------- */

  datatype AssigneeType = Agent | Human

  datatype Task = Task(
    row: Row, assigneeType: AssigneeType, assigneeAgentId: Option<string>, agentArchived: Option<bool>,
    repoId: Option<string>, hasRepoGrant: bool, archived: bool, maxSessions: int, mergeReadiness: bool,
    dispatchAfterTaskId: Option<string>, dispatchAfterStatus: Option<TaskStatus>)

  datatype Checklist = Checklist(
    repoBound: bool, agentAssignee: bool, repoAccessGrant: bool, budgetRemaining: bool, noActiveRun: bool,
    predecessorsDone: bool)

  datatype Startability = Startability(startable: bool, checklist: Checklist)

  predicate BindingResolved(task: Task) {
    task.dispatchAfterTaskId.None? || task.dispatchAfterStatus == Some(Done)
  }

  predicate BudgetRemaining(maxSessions: int, facts: Facts.RunFacts) {
    facts.total < maxSessions + Facts.Larger(0, if facts.budgetGrants.Some? then facts.budgetGrants.value else 0)
  }

  function TaskStartability(task: Task, facts: Facts.RunFacts, predecessorsDone: bool): Startability {
    var checklist := Checklist(
      task.repoId.Some?, task.assigneeType == Agent && task.assigneeAgentId.Some?, task.hasRepoGrant,
      BudgetRemaining(task.maxSessions, facts), !facts.active, predecessorsDone && BindingResolved(task));
    Startability(
      && checklist.repoBound && checklist.agentAssignee && checklist.repoAccessGrant && checklist.budgetRemaining
      && checklist.noActiveRun && checklist.predecessorsDone
      && task.agentArchived == Some(false) && !task.archived && (task.row.status == Todo || task.row.status == Backlog),
      checklist)
  }

  datatype Refusal =
    | HeldBeforeFirst | HeldUnknownLayer | HeldAfterLayer(layer: int)
    | PredecessorUnfinished(blocker: Row) | BindingUnfinished
    | TaskArchived | AlreadyDone | HumanStep | ServerOwned | RunActive | BudgetExhausted | WrongStatus
    | NoRepository | NoAssignee | NoGrant | AssigneeArchived | CannotStart

  function HoldRefusal(row: Row, control: Option<Control>): Option<Refusal> {
    if !Held(row, control) then None
    else if control.value.heldLayer == Some(0) then Some(HeldBeforeFirst)
    else if LayerOf(row).None? || control.value.heldLayer.None? then Some(HeldUnknownLayer)
    else Some(HeldAfterLayer(control.value.heldLayer.value))
  }

  function StepRefusal(task: Task, verdict: Startability, blocker: Option<Row>,
      hold: Option<Refusal>): Option<Refusal> {
    if hold.Some? then hold
    else if !verdict.checklist.predecessorsDone then
      Some(if blocker.Some? then PredecessorUnfinished(blocker.value) else BindingUnfinished)
    else if task.archived then Some(TaskArchived)
    else if task.row.status == Done then Some(AlreadyDone)
    else if task.assigneeType != Agent then Some(HumanStep)
    else if task.mergeReadiness then Some(ServerOwned)
    else if !verdict.checklist.noActiveRun then Some(RunActive)
    else if !verdict.checklist.budgetRemaining then Some(BudgetExhausted)
    else if task.row.status != Todo && task.row.status != Backlog then Some(WrongStatus)
    else if !verdict.checklist.repoBound then Some(NoRepository)
    else if !verdict.checklist.agentAssignee then Some(NoAssignee)
    else if !verdict.checklist.repoAccessGrant then Some(NoGrant)
    else if task.agentArchived == Some(true) then Some(AssigneeArchived)
    else if !verdict.startable then Some(CannotStart)
    else None
  }

  // The one ruling every reader and the start guard share.
  function Admission(task: Task, rows: seq<Row>, facts: Facts.RunFacts, control: Option<Control>): Option<Refusal> {
    var blocker := BlockingPredecessor(rows, task.row.id);
    StepRefusal(task, TaskStartability(task, facts, blocker.None?), blocker, HoldRefusal(task.row, control))
  }

  lemma NamedRefusals(task: Task, verdict: Startability, blocker: Option<Row>, hold: Option<Refusal>)
    requires verdict.startable <==>
      && verdict.checklist.repoBound && verdict.checklist.agentAssignee && verdict.checklist.repoAccessGrant
      && verdict.checklist.budgetRemaining && verdict.checklist.noActiveRun && verdict.checklist.predecessorsDone
      && task.agentArchived == Some(false) && !task.archived && (task.row.status == Todo || task.row.status == Backlog)
    requires hold != Some(CannotStart)
    ensures StepRefusal(task, verdict, blocker, hold) == Some(CannotStart) ==> task.agentArchived.None?
  {
    if task.agentArchived.Some? {
      var archived := task.agentArchived.value;
      assert task.agentArchived == if archived then Some(true) else Some(false);
    }
  }

  // The hold of an absent, released, foreign or chainless control refuses no step;
  // one that is on refuses a step of its chain exactly when it names no layer, or
  // holds before the first, or the step's place is unknown or past the barrier.
  predicate HoldStops(row: Row, control: Option<Control>) {
    && control.Some? && control.value.held
    && row.projectId == control.value.projectId && row.chainId.Some? && row.chainId.value == control.value.chainId
    && match control.value.heldLayer
       case None => true
       case Some(layer) =>
         || (layer == 0 && control.value.heldExecutionLayer.None?)
         || (row.layer.None? && row.index.None?)
         || (if row.layer.Some? then row.layer.value else row.index.value)
            > (if control.value.heldExecutionLayer.Some? then control.value.heldExecutionLayer.value else layer)
  }

  lemma HoldRefusesIff(row: Row, control: Option<Control>)
    ensures HoldRefusal(row, control).Some? <==> HoldStops(row, control)
    ensures HoldRefusal(row, control) == Some(HeldBeforeFirst) <==>
      HoldStops(row, control) && control.value.heldLayer == Some(0)
    ensures forall layer :: HoldRefusal(row, control) == Some(HeldAfterLayer(layer)) <==>
      HoldStops(row, control) && control.value.heldLayer == Some(layer) && layer != 0
      && (row.layer.Some? || row.index.Some?)
  {
  }

  // An unfinished row stands before the step: on a lower layer, or anywhere else
  // in the chain if the layer of either is unknown.
  predicate StandsBefore(row: Row, target: Row) {
    && row.status in {Backlog, Todo, Doing, Review}
    && if (row.layer.Some? || row.index.Some?) && (target.layer.Some? || target.index.Some?)
       then (if row.layer.Some? then row.layer.value else row.index.value)
            < (if target.layer.Some? then target.layer.value else target.index.value)
       else row.id != target.id
  }

  // Fewer runs than the configured sessions and the attempts granted on top.
  predicate WithinBudget(maxSessions: int, facts: Facts.RunFacts) {
    facts.total < maxSessions
    || (facts.budgetGrants.Some? && facts.budgetGrants.value > 0
        && facts.total - maxSessions < facts.budgetGrants.value)
  }

  lemma BlocksMeans(row: Row, target: Row)
    ensures Blocks(row, target) <==> StandsBefore(row, target)
  {
  }

  lemma BudgetMeans(maxSessions: int, facts: Facts.RunFacts)
    ensures BudgetRemaining(maxSessions, facts) <==> WithinBudget(maxSessions, facts)
  {
  }

  // A step is admitted exactly when nothing holds it or stands before it, the task
  // it waits for is done, it is open and not archived, an agent that is not
  // archived either and may use its repository is to do it, no run of it is
  // active, and its budget is not spent.
  lemma AdmittedIff(task: Task, rows: seq<Row>, facts: Facts.RunFacts, control: Option<Control>)
    requires DistinctIds(rows) && (task.row in rows || rows == [])
    ensures Admission(task, rows, facts, control).None? <==>
      && !HoldStops(task.row, control) && (forall row | row in rows :: !StandsBefore(row, task.row))
      && (task.dispatchAfterTaskId == None || task.dispatchAfterStatus == Some(Done))
      && !task.archived && task.row.status in {Todo, Backlog}
      && task.assigneeType == Agent && task.assigneeAgentId.Some? && task.agentArchived == Some(false)
      && !task.mergeReadiness
      && !facts.active && WithinBudget(task.maxSessions, facts) && task.repoId.Some? && task.hasRepoGrant
  {
    if rows != [] { BlockerMeans(rows, task.row); }
    HoldRefusesIff(task.row, control);
    BudgetMeans(task.maxSessions, facts);
    forall row | row in rows
      ensures Blocks(row, task.row) <==> StandsBefore(row, task.row)
    {
      BlocksMeans(row, task.row);
    }
    var blocker := BlockingPredecessor(rows, task.row.id);
    NamedRefusals(task, TaskStartability(task, facts, blocker.None?), blocker, HoldRefusal(task.row, control));
  }

  // Every refusal says something true of the step, and the last resort is left to
  // an assignee that is not loaded.
  lemma RefusalIsTrue(task: Task, rows: seq<Row>, facts: Facts.RunFacts, control: Option<Control>)
    requires DistinctIds(rows) && (task.row in rows || rows == [])
    ensures match Admission(task, rows, facts, control)
            case Some(HeldBeforeFirst) => HoldStops(task.row, control)
            case Some(HeldUnknownLayer) => HoldStops(task.row, control)
            case Some(HeldAfterLayer(_)) => HoldStops(task.row, control)
            case Some(PredecessorUnfinished(row)) => row in rows && StandsBefore(row, task.row)
            case Some(BindingUnfinished) => task.dispatchAfterTaskId.Some? && task.dispatchAfterStatus != Some(Done)
            case Some(TaskArchived) => task.archived
            case Some(AlreadyDone) => task.row.status == Done
            case Some(HumanStep) => task.assigneeType == Human
            case Some(ServerOwned) => task.mergeReadiness
            case Some(RunActive) => facts.active
            case Some(BudgetExhausted) => !WithinBudget(task.maxSessions, facts)
            case Some(WrongStatus) => task.row.status in {Doing, Review}
            case Some(NoRepository) => task.repoId.None?
            case Some(NoAssignee) => task.assigneeAgentId.None?
            case Some(NoGrant) => !task.hasRepoGrant
            case Some(AssigneeArchived) => task.agentArchived == Some(true)
            case Some(CannotStart) => task.agentArchived.None?
            case None => true
  {
    if rows != [] { BlockerMeans(rows, task.row); }
    HoldRefusesIff(task.row, control);
    BudgetMeans(task.maxSessions, facts);
    var blocker := BlockingPredecessor(rows, task.row.id);
    if blocker.Some? && rows != [] { BlocksMeans(blocker.value, task.row); }
    NamedRefusals(task, TaskStartability(task, facts, blocker.None?), blocker, HoldRefusal(task.row, control));
  }

  /* ------------------- what every run of a chain keeps ------------------- */

  datatype ChainRun = ChainRun(taskId: string, active: bool, budgetGrants: int)

  datatype State = State(tasks: seq<Task>, runs: map<string, ChainRun>)

  datatype Action =
    | Start(taskId: string, runId: string, budgetGrants: int)
    | EndRun(runId: string, status: TaskStatus)
    | Finish(taskId: string)

  function ChainRows(s: State): seq<Row> {
    seq(|s.tasks|, i requires 0 <= i < |s.tasks| => s.tasks[i].row)
  }

  predicate HasActiveRun(s: State, taskId: string) {
    exists r | r in s.runs :: s.runs[r].taskId == taskId && s.runs[r].active
  }

  // The facts the admission reads of the stored runs.
  predicate TruthfulFacts(s: State, taskId: string, facts: Facts.RunFacts) {
    && facts.active == HasActiveRun(s, taskId)
    && facts.total == |set r | r in s.runs && s.runs[r].taskId == taskId|
  }

  ghost predicate Enabled(s: State, a: Action) {
    match a
    case Start(taskId, runId, _) =>
      && runId !in s.runs
      && exists i, facts, control ::
         0 <= i < |s.tasks| && s.tasks[i].row.id == taskId && TruthfulFacts(s, taskId, facts)
         && Admission(s.tasks[i], ChainRows(s), facts, control).None?
    case EndRun(runId, _) => runId in s.runs && s.runs[runId].active
    case Finish(taskId) => !HasActiveRun(s, taskId)
  }

  function WithStatus(tasks: seq<Task>, taskId: string, status: TaskStatus): seq<Task> {
    seq(|tasks|, i requires 0 <= i < |tasks| =>
      if tasks[i].row.id == taskId then tasks[i].(row := tasks[i].row.(status := status)) else tasks[i])
  }

  // A start makes the row DOING; a run ends by leaving its row in some status;
  // a row without a run can be finished by hand.
  function Next(s: State, a: Action): State {
    match a
    case Start(taskId, runId, grants) =>
      State(WithStatus(s.tasks, taskId, Doing), s.runs[runId := ChainRun(taskId, true, grants)])
    case EndRun(runId, status) =>
      if runId in s.runs then
        State(WithStatus(s.tasks, s.runs[runId].taskId, status), s.runs[runId := s.runs[runId].(active := false)])
      else s
    case Finish(taskId) => s.(tasks := WithStatus(s.tasks, taskId, Done))
  }

  predicate Active(s: State, i: nat)
    requires i < |s.tasks|
  {
    HasActiveRun(s, s.tasks[i].row.id)
  }

  function Layer(s: State, i: nat): int
    requires i < |s.tasks|
  {
    LayerLast(s.tasks[i].row)
  }

  predicate WellFormed(s: State) {
    && (forall i, j | 0 <= i < j < |s.tasks| :: s.tasks[i].row.id != s.tasks[j].row.id)
    && (forall i | 0 <= i < |s.tasks| :: LayerOf(s.tasks[i].row).Some?)
    && (forall r | r in s.runs :: exists i | 0 <= i < |s.tasks| :: s.tasks[i].row.id == s.runs[r].taskId)
  }

  predicate OneRunEach(runs: map<string, ChainRun>) {
    forall r, q | r in runs && q in runs && runs[r].active && runs[q].active
        && runs[r].taskId == runs[q].taskId :: r == q
  }

  predicate Inv(s: State) {
    && WellFormed(s)
    && (forall i: nat | i < |s.tasks| && Active(s, i) :: s.tasks[i].row.status != Done)
    && (forall i: nat, j: nat | i < |s.tasks| && j < |s.tasks| && Active(s, i) && Layer(s, j) < Layer(s, i) ::
          s.tasks[j].row.status == Done)
    && OneRunEach(s.runs)
  }

  lemma StatusOf(s: State, taskId: string, status: TaskStatus, i: nat)
    requires i < |s.tasks|
    ensures var tasks := WithStatus(s.tasks, taskId, status);
            && |tasks| == |s.tasks| && tasks[i].row.id == s.tasks[i].row.id
               && LayerOf(tasks[i].row) == LayerOf(s.tasks[i].row)
            && tasks[i].row.status == if s.tasks[i].row.id == taskId then status else s.tasks[i].row.status
  {
  }

  // An admitted start finds every lower layer done, itself unfinished, and no run of its own.
  lemma AdmittedFinds(s: State, a: Action) returns (i: nat)
    requires Inv(s) && a.Start? && Enabled(s, a)
    ensures i < |s.tasks| && s.tasks[i].row.id == a.taskId && s.tasks[i].row.status != Done && !Active(s, i)
    ensures forall j: nat | j < |s.tasks| && Layer(s, j) < Layer(s, i) :: s.tasks[j].row.status == Done
  {
    var k, facts, control :| 0 <= k < |s.tasks| && s.tasks[k].row.id == a.taskId && TruthfulFacts(s, a.taskId, facts)
                             && Admission(s.tasks[k], ChainRows(s), facts, control).None?;
    var rows := ChainRows(s);
    i := k;
    assert rows[i] == s.tasks[i].row;
    AdmittedIff(s.tasks[i], rows, facts, control);
    forall j: nat | j < |s.tasks| && Layer(s, j) < Layer(s, i)
      ensures s.tasks[j].row.status == Done
    {
      assert rows[j] in rows && !Blocks(rows[j], s.tasks[i].row);
    }
  }

  lemma RowsKept(s: State, a: Action)
    ensures |Next(s, a).tasks| == |s.tasks|
    ensures forall i | 0 <= i < |s.tasks| ::
      Next(s, a).tasks[i].row.id == s.tasks[i].row.id && LayerOf(Next(s, a).tasks[i].row) == LayerOf(s.tasks[i].row)
  {
  }

  lemma WellFormedKept(s: State, a: Action)
    requires Inv(s) && Enabled(s, a)
    ensures WellFormed(Next(s, a))
  {
    var t := Next(s, a);
    RowsKept(s, a);
    forall r | r in t.runs
      ensures exists i | 0 <= i < |t.tasks| :: t.tasks[i].row.id == t.runs[r].taskId
    {
      var i := OwnerOf(s, a, r);
      assert t.tasks[i].row.id == t.runs[r].taskId;
    }
  }

  lemma OwnerOf(s: State, a: Action, r: string) returns (i: nat)
    requires Inv(s) && Enabled(s, a) && r in Next(s, a).runs
    ensures i < |s.tasks| && s.tasks[i].row.id == Next(s, a).runs[r].taskId
  {
    if r in s.runs {
      i :| i < |s.tasks| && s.tasks[i].row.id == s.runs[r].taskId;
    } else {
      i := AdmittedFinds(s, a);
    }
  }

  lemma StartOneRun(s: State, a: Action)
    requires Inv(s) && a.Start? && Enabled(s, a)
    ensures OneRunEach(Next(s, a).runs)
  {
    var k := AdmittedFinds(s, a);
    var runs := Next(s, a).runs;
    forall r | r in s.runs && s.runs[r].active
      ensures s.runs[r].taskId != a.taskId && runs[r] == s.runs[r]
    {
      assert !HasActiveRun(s, a.taskId);
    }
  }

  lemma StartKeeps(s: State, a: Action)
    requires Inv(s) && a.Start? && Enabled(s, a)
    ensures Inv(Next(s, a))
  {
    var t := Next(s, a);
    var k := AdmittedFinds(s, a);
    WellFormedKept(s, a);
    StartOneRun(s, a);
    RowsKept(s, a);
    forall i: nat | i < |t.tasks|
      ensures t.tasks[i].row.status == if i == k then Doing else s.tasks[i].row.status
      ensures Active(t, i) <==> Active(s, i) || i == k
    {
      StatusOf(s, a.taskId, Doing, i);
      StartActive(s, a, i);
    }
    forall i: nat, j: nat | i < |t.tasks| && j < |t.tasks| && Active(t, i) && Layer(t, j) < Layer(t, i)
      ensures t.tasks[j].row.status == Done
    {
      assert s.tasks[j].row.status == Done;
    }
  }

  lemma StartActive(s: State, a: Action, i: nat)
    requires a.Start? && a.runId !in s.runs && i < |s.tasks|
    ensures i < |Next(s, a).tasks| && (Active(Next(s, a), i) <==> Active(s, i) || s.tasks[i].row.id == a.taskId)
  {
    var t := Next(s, a);
    if Active(s, i) {
      var r :| r in s.runs && s.runs[r].taskId == s.tasks[i].row.id && s.runs[r].active;
      assert t.runs[r] == s.runs[r];
    }
    if s.tasks[i].row.id == a.taskId {
      assert t.runs[a.runId].active;
    }
  }

  lemma EndActive(s: State, a: Action, i: nat)
    requires Inv(s) && a.EndRun? && Enabled(s, a) && i < |s.tasks|
    ensures var ended := s.runs[a.runId].taskId;
            && i < |Next(s, a).tasks| && (Active(Next(s, a), i) ==> Active(s, i) && s.tasks[i].row.id != ended)
            && (s.tasks[i].row.id == ended ==> Active(s, i))
  {
    var t := Next(s, a);
    StatusOf(s, s.runs[a.runId].taskId, a.status, i);
    if Active(t, i) {
      var r :| r in t.runs && t.runs[r].taskId == t.tasks[i].row.id && t.runs[r].active;
      assert s.runs[r].active;
    }
  }

  lemma EndKeeps(s: State, a: Action)
    requires Inv(s) && a.EndRun? && Enabled(s, a)
    ensures Inv(Next(s, a))
  {
    var t, ended := Next(s, a), s.runs[a.runId].taskId;
    WellFormedKept(s, a);
    forall i: nat | i < |t.tasks|
      ensures i < |s.tasks| && Layer(t, i) == Layer(s, i)
      ensures t.tasks[i].row.status == if s.tasks[i].row.id == ended then a.status else s.tasks[i].row.status
      ensures Active(t, i) ==> Active(s, i) && s.tasks[i].row.id != ended
      ensures s.tasks[i].row.id == ended ==> Active(s, i)
    {
      StatusOf(s, ended, a.status, i);
      EndActive(s, a, i);
    }
    forall i: nat, j: nat | i < |t.tasks| && j < |t.tasks| && Active(t, i) && Layer(t, j) < Layer(t, i)
      ensures t.tasks[j].row.status == Done
    {
      assert s.tasks[j].row.status == Done;
    }
  }

  lemma FinishKeeps(s: State, a: Action)
    requires Inv(s) && a.Finish? && Enabled(s, a)
    ensures Inv(Next(s, a))
  {
    var t := Next(s, a);
    WellFormedKept(s, a);
    forall i: nat | i < |t.tasks|
      ensures t.tasks[i].row.id == s.tasks[i].row.id && Layer(t, i) == Layer(s, i)
      ensures t.tasks[i].row.status == if s.tasks[i].row.id == a.taskId then Done else s.tasks[i].row.status
      ensures Active(t, i) <==> Active(s, i)
    {
      StatusOf(s, a.taskId, Done, i);
    }
  }

  function Run(s: State, actions: seq<Action>): State {
    if actions == [] then s else Next(Run(s, actions[..|actions| - 1]), actions[|actions| - 1])
  }

  ghost predicate Allowed(s: State, actions: seq<Action>) {
    actions == [] || (Allowed(s, actions[..|actions| - 1])
        && Enabled(Run(s, actions[..|actions| - 1]), actions[|actions| - 1]))
  }

  lemma {:induction false} RunKeeps(s: State, actions: seq<Action>)
    requires Inv(s) && Allowed(s, actions)
    ensures Inv(Run(s, actions))
  {
    if actions != [] {
      var before, a := Run(s, actions[..|actions| - 1]), actions[|actions| - 1];
      RunKeeps(s, actions[..|actions| - 1]);
      match a
      case Start(_, _, _) => StartKeeps(before, a);
      case EndRun(_, _) => EndKeeps(before, a);
      case Finish(_) => FinishKeeps(before, a);
    }
  }

  // In every run of admitted starts, ends and manual finishes over a chain with
  // known layers: while a row has an active run every lower layer is done, all
  // active rows share one layer, no row has two active runs, and the rows free
  // to go next are exactly the unfinished ones of the lowest unfinished layer.
  lemma BarrierHolds(start: State, actions: seq<Action>)
    requires WellFormed(start) && start.runs == map[] && Allowed(start, actions)
    ensures var s := Run(start, actions);
            && (forall i: nat, j: nat | i < |s.tasks| && j < |s.tasks| && Active(s, i) && Layer(s, j) < Layer(s, i) ::
                  s.tasks[j].row.status == Done)
            && (forall i: nat, j: nat | i < |s.tasks| && j < |s.tasks| && Active(s, i)
               && Active(s, j) :: Layer(s, i) == Layer(s, j))
            && OneRunEach(s.runs)
            && (forall row :: Free(ChainRows(s), row) <==> LowestUnfinished(ChainRows(s), row))
  {
    RunKeeps(start, actions);
    var s := Run(start, actions);
    var rows := ChainRows(s);
    assert DistinctIds(rows) && KnownLayers(rows);
    forall row
      ensures Free(rows, row) <==> LowestUnfinished(rows, row)
    {
      FreeIsLowestLayer(rows, row);
    }
  }
}