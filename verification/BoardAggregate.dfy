// One card per chain: its counts, its frontier step and its column, emitted once.
module BoardAggregate {
  import opened Prelude
  import opened Ordering
  import opened ChainOrder

  datatype Member = Member(row: Row, latestRunActive: bool)

  predicate MemberNotAfter(a: Member, b: Member) {
    NotAfter(a.row, b.row)
  }

  function RowsOfMembers(members: seq<Member>): seq<Row> {
    if members == [] then [] else [members[0].row] + RowsOfMembers(members[1..])
  }

  /* ---------------------------- status counts ---------------------------- */

  function CountWith(members: seq<Member>, status: TaskStatus): nat {
    if members == [] then 0
    else CountWith(members[..|members| - 1], status) + (if members[|members| - 1].row.status == status then 1 else 0)
  }

  method StepStatusCounts(primary: seq<Member>) returns (counts: map<TaskStatus, nat>)
    ensures forall status ::
      status in counts && counts[status] == |set i | 0 <= i < |primary| && primary[i].row.status == status|
    ensures counts[Backlog] + counts[Todo] + counts[Doing] + counts[Review] + counts[Done] == |primary|
  {
    counts := map[Backlog := 0, Todo := 0, Doing := 0, Review := 0, Done := 0];
    forall status: TaskStatus
      ensures status in counts && counts[status] == 0
    {
      match status case Backlog => case Todo => case Doing => case Review => case Done =>
    }
    for i := 0 to |primary|
      invariant forall status :: status in counts && counts[status] == CountWith(primary[..i], status)
      invariant counts[Backlog] + counts[Todo] + counts[Doing] + counts[Review] + counts[Done] == i
    {
      var status := primary[i].row.status;
      assert primary[..i + 1][..i] == primary[..i];
      counts := counts[status := counts[status] + 1];
    }
    assert primary[..|primary|] == primary;
    forall status
      ensures CountWith(primary, status) == |set i | 0 <= i < |primary| && primary[i].row.status == status|
    {
      CountIsSize(primary, status);
    }
  }

  function PlacesWith(members: seq<Member>, status: TaskStatus): set<int> {
    set i | 0 <= i < |members| && members[i].row.status == status
  }

  lemma {:induction false} CountIsSize(members: seq<Member>, status: TaskStatus)
    ensures CountWith(members, status) == |PlacesWith(members, status)|
  {
    if members != [] {
      var last := |members| - 1;
      CountIsSize(members[..last], status);
      assert PlacesWith(members, status)
          == PlacesWith(members[..last], status) + (if members[last].row.status == status then {last} else {});
    }
  }

  /* -------------------------- frontier and column ------------------------ */

  function FirstUnfinished(ordered: seq<Member>): Option<Member> {
    if ordered == [] then None
    else if ordered[0].row.status != Done then Some(ordered[0])
    else FirstUnfinished(ordered[1..])
  }

  function Frontier(primary: seq<Member>, repairs: seq<Member>): Member
    requires primary != [] || repairs != []
  {
    SortKeepsLength(primary);
    SortKeepsLength(repairs);
    var steps, fixes := Sort(MemberNotAfter, primary), Sort(MemberNotAfter, repairs);
    if FirstUnfinished(steps).Some? then FirstUnfinished(steps).value
    else if FirstUnfinished(fixes).Some? then FirstUnfinished(fixes).value
    else if steps != [] then steps[|steps| - 1]
    else fixes[|fixes| - 1]
  }

  predicate BusyChain(members: seq<Member>) {
    exists i | 0 <= i < |members| :: members[i].row.status == Doing || members[i].latestRunActive
  }

  predicate AllDone(members: seq<Member>) {
    forall i | 0 <= i < |members| :: members[i].row.status == Done
  }

  function Column(primary: seq<Member>, repairs: seq<Member>): TaskStatus
    requires primary != [] || repairs != []
  {
    if BusyChain(primary + repairs) then Doing
    else if AllDone(primary + repairs) then Done
    else Frontier(primary, repairs).row.status
  }

  lemma SortKeepsLength(members: seq<Member>)
    ensures |Sort(MemberNotAfter, members)| == |members|
  {
    SortSorts(MemberNotAfter, members);
    assert |multiset(members)| == |members|
        && |multiset(Sort(MemberNotAfter, members))| == |Sort(MemberNotAfter, members)|;
  }

  lemma SortKeepsMembers(members: seq<Member>, member: Member)
    ensures member in Sort(MemberNotAfter, members) <==> member in members
  {
    SortSorts(MemberNotAfter, members);
    assert member in members <==> member in multiset(members);
  }

  lemma {:induction false} FirstUnfinishedMeans(ordered: seq<Member>)
    ensures FirstUnfinished(ordered).Some? ==>
      FirstUnfinished(ordered).value in ordered && FirstUnfinished(ordered).value.row.status != Done
    ensures FirstUnfinished(ordered).None? <==> forall member | member in ordered :: member.row.status == Done
  {
    if ordered != [] {
      FirstUnfinishedMeans(ordered[1..]);
      assert ordered == [ordered[0]] + ordered[1..];
    }
  }

  // The frontier is one of the members, and it is finished only when all are.
  lemma FrontierIsMember(primary: seq<Member>, repairs: seq<Member>)
    requires primary != [] || repairs != []
    ensures Frontier(primary, repairs) in primary + repairs
    ensures Frontier(primary, repairs).row.status == Done <==> AllDone(primary + repairs)
  {
    var steps, fixes := Sort(MemberNotAfter, primary), Sort(MemberNotAfter, repairs);
    SortKeepsLength(primary);
    SortKeepsLength(repairs);
    forall member
      ensures member in steps <==> member in primary
      ensures member in fixes <==> member in repairs
    {
      SortKeepsMembers(primary, member);
      SortKeepsMembers(repairs, member);
    }
    FirstUnfinishedMeans(steps);
    FirstUnfinishedMeans(fixes);
    assert AllDone(primary + repairs) <==> forall member | member in primary + repairs :: member.row.status == Done;
  }

  // The unfinished member that comes first.
  predicate FirstOfUnfinished(member: Member, members: seq<Member>) {
    && member in members && member.row.status != Done
    && forall other | other in members && other.row.status != Done :: NotAfter(member.row, other.row)
  }

  predicate LastOfAll(member: Member, members: seq<Member>) {
    member in members && forall other | other in members :: NotAfter(other.row, member.row)
  }

  lemma {:induction false} FirstUnfinishedLeast(ordered: seq<Member>)
    requires Sorted(MemberNotAfter, ordered)
    ensures FirstUnfinished(ordered).Some? ==> FirstOfUnfinished(FirstUnfinished(ordered).value, ordered)
  {
    NotAfterTotal();
    if ordered != [] {
      assert forall member | member in ordered[1..] :: MemberNotAfter(ordered[0], member);
      assert ordered == [ordered[0]] + ordered[1..];
      FirstUnfinishedLeast(ordered[1..]);
    }
  }

  lemma SortedMembers(members: seq<Member>)
    ensures Sorted(MemberNotAfter, Sort(MemberNotAfter, members))
    ensures forall member :: member in Sort(MemberNotAfter, members) <==> member in members
  {
    NotAfterTotal();
    SortSorts(MemberNotAfter, members);
    forall member
      ensures member in Sort(MemberNotAfter, members) <==> member in members
    {
      SortKeepsMembers(members, member);
    }
  }

  lemma SortedFirst(members: seq<Member>)
    ensures var first := FirstUnfinished(Sort(MemberNotAfter, members));
            && (first.Some? <==> exists member :: member in members && member.row.status != Done)
            && (first.Some? ==> FirstOfUnfinished(first.value, members))
  {
    SortedMembers(members);
    FirstUnfinishedMeans(Sort(MemberNotAfter, members));
    FirstUnfinishedLeast(Sort(MemberNotAfter, members));
  }

  lemma SortedLast(members: seq<Member>)
    requires members != []
    ensures var ordered := Sort(MemberNotAfter, members);
            ordered != [] && LastOfAll(ordered[|ordered| - 1], members)
  {
    SortedMembers(members);
    SortKeepsLength(members);
    NotAfterTotal();
    var ordered := Sort(MemberNotAfter, members);
    forall other | other in members
      ensures NotAfter(other.row, ordered[|ordered| - 1].row)
    {
      var i :| 0 <= i < |ordered| && ordered[i] == other;
      if i < |ordered| - 1 { assert MemberNotAfter(ordered[i], ordered[|ordered| - 1]); }
    }
  }

  // The frontier is the chain's own first unfinished step; or, when every step
  // is done, the first unfinished repair; or, when those are done as well, the
  // last step, or the last repair of a chain without steps.
  lemma FrontierMeans(primary: seq<Member>, repairs: seq<Member>)
    requires primary != [] || repairs != []
    ensures var frontier := Frontier(primary, repairs);
            if exists member :: member in primary && member.row.status != Done
            then FirstOfUnfinished(frontier, primary)
            else if exists member :: member in repairs && member.row.status != Done
            then FirstOfUnfinished(frontier, repairs)
            else if primary != [] then LastOfAll(frontier, primary)
            else LastOfAll(frontier, repairs)
  {
    SortedFirst(primary);
    SortedFirst(repairs);
    SortKeepsLength(primary);
    SortKeepsLength(repairs);
    if primary != [] { SortedLast(primary); } else { SortedLast(repairs); }
  }

  // A chain stands under DOING exactly while something in it is running, under
  // DONE exactly when nothing is and every step and repair is done, and
  // otherwise where its frontier stands.
  lemma ColumnMeans(primary: seq<Member>, repairs: seq<Member>)
    requires primary != [] || repairs != []
    ensures Column(primary, repairs) == Doing <==>
            exists member :: member in primary + repairs && (member.row.status == Doing || member.latestRunActive)
    ensures Column(primary, repairs) == Done <==>
            (forall member | member in primary + repairs :: member.row.status == Done && !member.latestRunActive)
    ensures Column(primary, repairs) !in {Doing, Done} ==>
            Column(primary, repairs) == Frontier(primary, repairs).row.status
  {
    FrontierIsMember(primary, repairs);
    var frontier, members := Frontier(primary, repairs), primary + repairs;
    if frontier.row.status == Doing {
      var i :| 0 <= i < |members| && members[i] == frontier;
    }
    assert BusyChain(members) <==>
      exists member :: member in members && (member.row.status == Doing || member.latestRunActive);
    assert AllDone(members) <==> forall member | member in members :: member.row.status == Done;
  }

  /* ----------------- the frontier is where progress stands --------------- */

  lemma {:induction false} InsertRow(member: Member, ordered: seq<Member>)
    ensures RowsOfMembers(Insert(MemberNotAfter, member, ordered))
        == Insert(NotAfter, member.row, RowsOfMembers(ordered))
  {
    if ordered != [] {
      if MemberNotAfter(member, ordered[0]) {
        assert ([member] + ordered)[1..] == ordered;
      } else {
        InsertRow(member, ordered[1..]);
        var rest := Insert(MemberNotAfter, member, ordered[1..]);
        assert ([ordered[0]] + rest)[1..] == rest;
      }
    }
  }

  lemma {:induction false} SortRows(members: seq<Member>)
    ensures RowsOfMembers(Sort(MemberNotAfter, members)) == Sort(NotAfter, RowsOfMembers(members))
  {
    if members != [] {
      SortRows(members[1..]);
      InsertRow(members[0], Sort(MemberNotAfter, members[1..]));
    }
  }

  lemma {:induction false} FirstIsActive(ordered: seq<Member>)
    requires FirstUnfinished(ordered).Some?
    ensures RowsOfMembers(ordered) != [] && ActiveRow(RowsOfMembers(ordered)) == FirstUnfinished(ordered).value.row
  {
    if ordered[0].row.status == Done {
      FirstIsActive(ordered[1..]);
    }
  }

  // While a step is unfinished, the board's frontier is the very step that the
  // chain's progress names as active, whatever repairs there are.
  lemma FrontierIsActiveStep(primary: seq<Member>, repairs: seq<Member>)
    requires !AllDone(primary)
    ensures ChainProgress(RowsOfMembers(primary)).Some?
    ensures var progress := ChainProgress(RowsOfMembers(primary)).value;
            var frontier := Frontier(primary, repairs);
            && progress.activeStepName == StepName(frontier.row) && progress.activeStatus == frontier.row.status
            && progress.currentLayer == DenseOrdinal(RowsOfMembers(primary), LayerLast(frontier.row))
  {
    var steps := Sort(MemberNotAfter, primary);
    var i :| 0 <= i < |primary| && primary[i].row.status != Done;
    SortKeepsMembers(primary, primary[i]);
    FirstUnfinishedMeans(steps);
    FirstIsActive(steps);
    SortRows(primary);
    LayersSorted(RowsOfMembers(primary));
  }

  /* ------------------------------ emitted once --------------------------- */

  predicate FirstWith(keys: seq<Option<string>>, i: nat)
    requires i < |keys|
  {
    keys[i].Some? && forall j | 0 <= j < i :: keys[j] != keys[i]
  }

  // Each chain's aggregate goes out with the first card of its chain, and with
  // no other.
  method EmitOnce<T>(keys: seq<Option<string>>, aggregates: map<string, T>) returns (emitted: seq<Option<T>>)
    ensures |emitted| == |keys|
    ensures forall i | 0 <= i < |keys| ::
      emitted[i] == if FirstWith(keys, i) && keys[i].value in aggregates then Some(aggregates[keys[i].value]) else None
  {
    emitted := [];
    var seen: set<string> := {};
    for i := 0 to |keys|
      invariant |emitted| == i
      invariant forall key :: key in seen <==> key in aggregates && exists j | 0 <= j < i :: keys[j] == Some(key)
      invariant forall k | 0 <= k < i ::
        emitted[k] == if FirstWith(keys, k) && keys[k].value in aggregates
                      then Some(aggregates[keys[k].value]) else None
    {
      if keys[i].None? || keys[i].value in seen || keys[i].value !in aggregates {
        emitted := emitted + [None];
      } else {
        emitted := emitted + [Some(aggregates[keys[i].value])];
        seen := seen + {keys[i].value};
      }
    }
  }

  /* ------------------------- repairs and their chains -------------------- */

  datatype Marker = Marker(regressionTaskId: Option<string>, repairKind: Option<string>)

  datatype MarkerRow = MarkerRow(taskId: string, marker: Option<Marker>)

  datatype BoundTask = BoundTask(projectId: string, chainId: Option<string>)

  datatype Binding = Binding(projectId: string, chainId: string, repairKind: string)

  predicate Given(text: Option<string>) {
    text.Some? && text.value != ""
  }

  // The binding one marker row states, if it is a valid one.
  function BindingOf(repairs: map<string, string>, regressions: map<string, BoundTask>,
      row: MarkerRow): Option<Binding> {
    if row.marker.None? || !Given(row.marker.value.regressionTaskId) || !Given(row.marker.value.repairKind)
        || row.taskId !in repairs
       || row.marker.value.regressionTaskId.value !in regressions then None
    else
      var regression := regressions[row.marker.value.regressionTaskId.value];
      if !Given(regression.chainId) || regression.projectId != repairs[row.taskId] then None
      else Some(Binding(regression.projectId, regression.chainId.value, row.marker.value.repairKind.value))
  }

  // The first row, newest first, that states a valid binding for the task.
  function NewestValid(repairs: map<string, string>, regressions: map<string, BoundTask>, rows: seq<MarkerRow>,
      task: string)
    : Option<Binding>
  {
    if rows == [] then None
    else if rows[0].taskId == task && BindingOf(repairs, regressions, rows[0]).Some?
    then BindingOf(repairs, regressions, rows[0])
    else NewestValid(repairs, regressions, rows[1..], task)
  }

  lemma {:induction false} NewestValidMore(repairs: map<string, string>, regressions: map<string, BoundTask>,
                                           rows: seq<MarkerRow>, row: MarkerRow, task: string)
    ensures NewestValid(repairs, regressions, rows + [row], task) ==
            if NewestValid(repairs, regressions, rows, task).Some? then NewestValid(repairs, regressions, rows, task)
            else if row.taskId == task then BindingOf(repairs, regressions, row) else None
  {
    if rows == [] {
      assert [] + [row] == [row];
    } else {
      NewestValidMore(repairs, regressions, rows[1..], row, task);
      assert (rows + [row])[1..] == rows[1..] + [row];
    }
  }

  // A marker row binds its repair task to the chain of the regression task it
  // names, when both are known and belong to one project.
  lemma BindingMeans(repairs: map<string, string>, regressions: map<string, BoundTask>, row: MarkerRow,
                     binding: Binding)
    ensures BindingOf(repairs, regressions, row) == Some(binding) <==>
            && row.marker.Some? && row.marker.value.regressionTaskId.Some?
            && row.marker.value.repairKind == Some(binding.repairKind) && binding.repairKind != ""
            && var named := row.marker.value.regressionTaskId.value;
            && named != "" && named in regressions && regressions[named].chainId == Some(binding.chainId)
            && binding.chainId != "" && regressions[named].projectId == binding.projectId
            && row.taskId in repairs && repairs[row.taskId] == binding.projectId
  {
  }

  // The first row that states a valid binding for the task decides.
  lemma {:induction false} NewestValidMeans(repairs: map<string, string>, regressions: map<string, BoundTask>,
                                            rows: seq<MarkerRow>, task: string)
    ensures NewestValid(repairs, regressions, rows, task).None? <==>
            forall i | 0 <= i < |rows| && rows[i].taskId == task :: BindingOf(repairs, regressions, rows[i]).None?
    ensures NewestValid(repairs, regressions, rows, task).Some? ==>
            exists i :: 0 <= i < |rows| && rows[i].taskId == task
              && NewestValid(repairs, regressions, rows, task) == BindingOf(repairs, regressions, rows[i])
              && forall j | 0 <= j < i && rows[j].taskId == task :: BindingOf(repairs, regressions, rows[j]).None?
  {
    if rows != [] && NewestValid(repairs, regressions, rows[1..], task).Some?
       && !(rows[0].taskId == task && BindingOf(repairs, regressions, rows[0]).Some?) {
      NewestValidMeans(repairs, regressions, rows[1..], task);
      var i :| 0 <= i < |rows[1..]| && rows[1..][i].taskId == task
        && NewestValid(repairs, regressions, rows[1..], task) == BindingOf(repairs, regressions, rows[1..][i])
        && forall j | 0 <= j < i && rows[1..][j].taskId == task ::
          BindingOf(repairs, regressions, rows[1..][j]).None?;
      assert rows[i + 1] == rows[1..][i];
      assert forall j | 1 <= j < i + 1 :: rows[j] == rows[1..][j - 1];
    } else if rows != [] {
      NewestValidMeans(repairs, regressions, rows[1..], task);
      assert forall j | 1 <= j < |rows| :: rows[j] == rows[1..][j - 1];
    }
  }

  method RepairChainBindingsFromRows(repairs: map<string, string>, regressions: map<string, BoundTask>,
      rows: seq<MarkerRow>)
      returns (bindings: map<string, Binding>)
    ensures forall task :: task in bindings <==> NewestValid(repairs, regressions, rows, task).Some?
    ensures forall task | task in bindings :: Some(bindings[task]) == NewestValid(repairs, regressions, rows, task)
    ensures forall task | task in bindings :: task in repairs && bindings[task].projectId == repairs[task]
  {
    bindings := map[];
    for i := 0 to |rows|
      invariant forall task :: task in bindings <==> NewestValid(repairs, regressions, rows[..i], task).Some?
      invariant forall task | task in bindings ::
          Some(bindings[task]) == NewestValid(repairs, regressions, rows[..i], task)
      invariant forall task | task in bindings :: task in repairs && bindings[task].projectId == repairs[task]
    {
      var row := rows[i];
      assert rows[..i + 1] == rows[..i] + [row];
      forall task
        ensures NewestValid(repairs, regressions, rows[..i + 1], task) ==
                if NewestValid(repairs, regressions, rows[..i], task).Some?
                then NewestValid(repairs, regressions, rows[..i], task)
                else if row.taskId == task then BindingOf(repairs, regressions, row) else None
      {
        NewestValidMore(repairs, regressions, rows[..i], row, task);
      }
      if row.taskId !in bindings {
        var binding := BindingOf(repairs, regressions, row);
        if binding.Some? { bindings := bindings[row.taskId := binding.value]; }
      }
    }
    assert rows[..|rows|] == rows;
  }
}
