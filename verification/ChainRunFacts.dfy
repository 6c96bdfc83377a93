// What a task's runs amount to: the fold over grouped rows and the direct count.
module ChainRunFacts {
  import opened Prelude

  datatype RunStatus =
    | Queued | Claimed | Provisioning | Running | WaitingInbox
    | Succeeded | Failed | TimedOut | Cancelled | Lost

  datatype Run = Run(taskId: Option<string>, status: RunStatus, budgetGrants: int)

  // One row of the query grouped by task and status.
  datatype Group = Group(taskId: Option<string>, status: RunStatus, count: nat, maxGrants: Option<int>)

  datatype RunFacts = RunFacts(total: nat, active: bool, budgetGrants: Option<int>)

  const NO_RUNS := RunFacts(0, false, None)

  function Larger(a: int, b: int): int { if a <= b then b else a }

  function HighestBudgetGrants(first: Option<int>, second: Option<int>): int {
    Larger(Larger(0, if first.Some? then first.value else 0), if second.Some? then second.value else 0)
  }

  // The larger of the two grants that are given, and never below zero.
  lemma HighestOfTwo(first: Option<int>, second: Option<int>)
    ensures var highest := HighestBudgetGrants(first, second);
            && highest >= 0
            && (first.Some? ==> first.value <= highest) && (second.Some? ==> second.value <= highest)
            && (highest == 0 || Some(highest) == first || Some(highest) == second)
  {
  }

  // Zero grants read as none.
  function Granted(highest: int): Option<int> {
    if highest == 0 then None else Some(highest)
  }

  function Folded(facts: RunFacts, group: Group, activeStatuses: set<RunStatus>): RunFacts {
    RunFacts(facts.total + group.count, facts.active || group.status in activeStatuses,
             Granted(HighestBudgetGrants(facts.budgetGrants, group.maxGrants)))
  }

  function Facts(groups: seq<Group>, task: string, activeStatuses: set<RunStatus>): RunFacts {
    if groups == [] then NO_RUNS
    else
      var rest, last := Facts(groups[..|groups| - 1], task, activeStatuses), groups[|groups| - 1];
      if last.taskId == Some(task) then Folded(rest, last, activeStatuses) else rest
  }

  predicate Mentioned(groups: seq<Group>, task: string) {
    exists i | 0 <= i < |groups| :: groups[i].taskId == Some(task)
  }

  method RunFactsByTask(groups: seq<Group>, activeStatuses: set<RunStatus>) returns (facts: map<string, RunFacts>)
    ensures forall task :: task in facts <==> Mentioned(groups, task)
    ensures forall task | task in facts :: facts[task] == Facts(groups, task, activeStatuses)
  {
    facts := map[];
    for i := 0 to |groups|
      invariant forall task :: task in facts <==> Mentioned(groups[..i], task)
      invariant forall task | task in facts :: facts[task] == Facts(groups[..i], task, activeStatuses)
    {
      var group := groups[i];
      assert groups[..i + 1] == groups[..i] + [group];
      assert groups[..i + 1][..i] == groups[..i];
      forall task
        ensures Mentioned(groups[..i + 1], task) <==> Mentioned(groups[..i], task) || group.taskId == Some(task)
        ensures !Mentioned(groups[..i], task) ==> Facts(groups[..i], task, activeStatuses) == NO_RUNS
      {
        MentionedMore(groups[..i], group, task);
        UnmentionedFacts(groups[..i], task, activeStatuses);
      }
      if group.taskId.Some? {
        var task := group.taskId.value;
        var current := if task in facts then facts[task] else NO_RUNS;
        facts := facts[task := Folded(current, group, activeStatuses)];
      }
    }
    assert groups[..|groups|] == groups;
  }

  lemma MentionedMore(groups: seq<Group>, group: Group, task: string)
    ensures Mentioned(groups + [group], task) <==> Mentioned(groups, task) || group.taskId == Some(task)
  {
    var more := groups + [group];
    if Mentioned(groups, task) {
      var i :| 0 <= i < |groups| && groups[i].taskId == Some(task);
      assert more[i].taskId == Some(task);
    }
    if group.taskId == Some(task) {
      assert more[|groups|].taskId == Some(task);
    }
  }

  lemma {:induction false} UnmentionedFacts(groups: seq<Group>, task: string, activeStatuses: set<RunStatus>)
    ensures !Mentioned(groups, task) ==> Facts(groups, task, activeStatuses) == NO_RUNS
  {
    if groups != [] {
      UnmentionedFacts(groups[..|groups| - 1], task, activeStatuses);
      MentionedMore(groups[..|groups| - 1], groups[|groups| - 1], task);
      assert groups[..|groups| - 1] + [groups[|groups| - 1]] == groups;
    }
  }

  /* ---------------------------- the direct count ------------------------- */

  function Count(runs: seq<Run>, task: string): nat {
    if runs == [] then 0 else Count(runs[1..], task) + (if runs[0].taskId == Some(task) then 1 else 0)
  }

  function HighestOf(runs: seq<Run>, task: string): int {
    if runs == [] then 0
    else if runs[0].taskId == Some(task) then Larger(runs[0].budgetGrants, HighestOf(runs[1..], task))
    else HighestOf(runs[1..], task)
  }

  predicate AnyActive(runs: seq<Run>, task: string, activeStatuses: set<RunStatus>) {
    exists i | 0 <= i < |runs| :: runs[i].taskId == Some(task) && runs[i].status in activeStatuses
  }

  // The facts read off the ungrouped runs.
  function DirectFacts(runs: seq<Run>, task: string, activeStatuses: set<RunStatus>): RunFacts {
    RunFacts(Count(runs, task), AnyActive(runs, task, activeStatuses), Granted(HighestOf(runs, task)))
  }

  function PlacesOf(runs: seq<Run>, task: string): set<int> {
    set i | 0 <= i < |runs| && runs[i].taskId == Some(task)
  }

  lemma {:induction false} CountMore(runs: seq<Run>, run: Run, task: string)
    ensures Count(runs + [run], task) == Count(runs, task) + (if run.taskId == Some(task) then 1 else 0)
  {
    if runs == [] {
      assert [] + [run] == [run];
    } else {
      CountMore(runs[1..], run, task);
      assert (runs + [run])[1..] == runs[1..] + [run];
    }
  }

  lemma PlacesMore(runs: seq<Run>, run: Run, task: string)
    ensures |PlacesOf(runs + [run], task)| == |PlacesOf(runs, task)| + (if run.taskId == Some(task) then 1 else 0)
  {
    var more := runs + [run];
    assert forall i | 0 <= i < |runs| :: more[i] == runs[i];
    assert PlacesOf(more, task) == PlacesOf(runs, task) + (if run.taskId == Some(task) then {|runs|} else {});
  }

  lemma {:induction false} CountIsSize(runs: seq<Run>, task: string)
    ensures Count(runs, task) == |PlacesOf(runs, task)|
  {
    if runs == [] {
      assert PlacesOf(runs, task) == {};
    } else {
      var front, last := runs[..|runs| - 1], runs[|runs| - 1];
      CountIsSize(front, task);
      CountMore(front, last, task);
      PlacesMore(front, last, task);
      assert runs == front + [last];
    }
  }

  lemma {:induction false} HighestMeans(runs: seq<Run>, task: string)
    ensures forall run | run in runs && run.taskId == Some(task) :: run.budgetGrants <= HighestOf(runs, task)
    ensures HighestOf(runs, task) == 0 ||
      (HighestOf(runs, task) > 0
       && exists run :: run in runs && run.taskId == Some(task) && run.budgetGrants == HighestOf(runs, task))
  {
    if runs != [] {
      HighestMeans(runs[1..], task);
      assert runs == [runs[0]] + runs[1..];
    }
  }

  // The facts in words: how many runs the task has, whether one is in an active
  // status, and the most attempts any of them was granted, if any was.
  lemma DirectMeans(runs: seq<Run>, task: string, activeStatuses: set<RunStatus>)
    ensures var facts := DirectFacts(runs, task, activeStatuses);
            && facts.total == |set i | 0 <= i < |runs| && runs[i].taskId == Some(task)|
            && (facts.active <==> exists run :: run in runs && run.taskId == Some(task) && run.status in activeStatuses)
            && (facts.budgetGrants.None? <==>
                forall run | run in runs && run.taskId == Some(task) :: run.budgetGrants <= 0)
            && (facts.budgetGrants.Some? ==>
                && (exists run ::
                     run in runs && run.taskId == Some(task) && run.budgetGrants == facts.budgetGrants.value)
                && forall run | run in runs && run.taskId == Some(task) :: run.budgetGrants <= facts.budgetGrants.value)
  {
    CountIsSize(runs, task);
    HighestMeans(runs, task);
    if run :| run in runs && run.taskId == Some(task) && run.status in activeStatuses {
      var i :| 0 <= i < |runs| && runs[i] == run;
      assert AnyActive(runs, task, activeStatuses);
    }
  }

  predicate InGroup(run: Run, group: Group) {
    run.taskId == group.taskId && run.status == group.status
  }

  function Outside(runs: seq<Run>, group: Group): seq<Run> {
    if runs == [] then []
    else if InGroup(runs[0], group) then Outside(runs[1..], group)
    else [runs[0]] + Outside(runs[1..], group)
  }

  function GroupCount(runs: seq<Run>, group: Group): nat {
    if runs == [] then 0 else GroupCount(runs[1..], group) + (if InGroup(runs[0], group) then 1 else 0)
  }

  function GroupHighest(runs: seq<Run>, group: Group): Option<int> {
    if runs == [] then None
    else
      var rest := GroupHighest(runs[1..], group);
      if !InGroup(runs[0], group) then rest
      else Some(if rest.Some? then Larger(runs[0].budgetGrants, rest.value) else runs[0].budgetGrants)
  }

  // What the grouped query returns: each group once, in any order, with its
  // count and maximum; together they cover every run.
  predicate GroupsOf(groups: seq<Group>, runs: seq<Run>) {
    && (forall i, j | 0 <= i < j < |groups| ::
       groups[i].taskId != groups[j].taskId || groups[i].status != groups[j].status)
    && (forall i | 0 <= i < |groups| ::
      groups[i].count == GroupCount(runs, groups[i]) && groups[i].count > 0
          && groups[i].maxGrants == GroupHighest(runs, groups[i]))
    && (forall run | run in runs :: exists i | 0 <= i < |groups| :: InGroup(run, groups[i]))
  }

  lemma {:induction false} OutsideKeeps(runs: seq<Run>, group: Group, other: Group)
    requires group.taskId != other.taskId || group.status != other.status
    ensures GroupCount(Outside(runs, group), other) == GroupCount(runs, other)
    ensures GroupHighest(Outside(runs, group), other) == GroupHighest(runs, other)
  {
    if runs != [] { OutsideKeeps(runs[1..], group, other); }
  }

  lemma {:induction false} OutsideMembers(runs: seq<Run>, group: Group)
    ensures forall run | run in Outside(runs, group) :: run in runs && !InGroup(run, group)
  {
    if runs != [] {
      OutsideMembers(runs[1..], group);
      assert runs == [runs[0]] + runs[1..];
    }
  }

  lemma {:induction false} OutsideIsShorter(runs: seq<Run>, group: Group)
    ensures |Outside(runs, group)| + GroupCount(runs, group) == |runs|
    ensures GroupCount(Outside(runs, group), group) == 0
  {
    if runs != [] { OutsideIsShorter(runs[1..], group); }
  }

  // The count and the maximum of a group depend on nothing but its task and status.
  lemma {:induction false} GroupByKey(runs: seq<Run>, group: Group, other: Group)
    requires group.taskId == other.taskId && group.status == other.status
    ensures GroupCount(runs, group) == GroupCount(runs, other) && GroupHighest(runs, group) == GroupHighest(runs, other)
    ensures Outside(runs, group) == Outside(runs, other)
  {
    if runs != [] { GroupByKey(runs[1..], group, other); }
  }

  lemma {:induction false} InAGroup(runs: seq<Run>, run: Run, group: Group)
    requires run in runs && !InGroup(run, group)
    ensures run in Outside(runs, group)
  {
    if runs[0] != run { InAGroup(runs[1..], run, group); }
  }

  // However the runs are spread, there is such a grouping of them.
  lemma {:induction false} GroupingExists(runs: seq<Run>) returns (groups: seq<Group>)
    ensures GroupsOf(groups, runs)
    decreases |runs|
  {
    if runs == [] { return []; }
    var bare := Group(runs[0].taskId, runs[0].status, 0, None);
    var last := bare.(count := GroupCount(runs, bare), maxGrants := GroupHighest(runs, bare));
    GroupByKey(runs, bare, last);
    OutsideIsShorter(runs, last);
    var before := GroupingExists(Outside(runs, last));
    groups := before + [last];
    forall i | 0 <= i < |before|
      ensures before[i].taskId != last.taskId || before[i].status != last.status
      ensures GroupCount(runs, before[i]) == before[i].count && GroupHighest(runs, before[i]) == before[i].maxGrants
    {
      if before[i].taskId == last.taskId && before[i].status == last.status {
        GroupByKey(Outside(runs, last), before[i], last);
      }
      OutsideKeeps(runs, last, before[i]);
    }
    forall run | run in runs
      ensures exists i | 0 <= i < |groups| :: InGroup(run, groups[i])
    {
      if InGroup(run, last) {
        assert groups[|before|] == last;
      } else {
        InAGroup(runs, run, last);
        var i :| 0 <= i < |before| && InGroup(run, before[i]);
        assert groups[i] == before[i];
      }
    }
  }

  // The groups can be taken off one by one.
  lemma {:induction false} GroupsTakenOff(groups: seq<Group>, runs: seq<Run>)
    requires GroupsOf(groups, runs)
    ensures IsGrouping(groups, runs)
    decreases |groups|
  {
    assert runs == [] || runs[0] in runs;
    if groups != [] {
      var before, last := groups[..|groups| - 1], groups[|groups| - 1];
      forall i | 0 <= i < |before|
        ensures before[i].count == GroupCount(Outside(runs, last), before[i])
        ensures before[i].maxGrants == GroupHighest(Outside(runs, last), before[i])
      {
        assert before[i] == groups[i];
        OutsideKeeps(runs, last, before[i]);
      }
      OutsideMembers(runs, last);
      forall run | run in Outside(runs, last)
        ensures exists i | 0 <= i < |before| :: InGroup(run, before[i])
      {
        var i :| 0 <= i < |groups| && InGroup(run, groups[i]);
        assert before[i] == groups[i];
      }
      GroupsTakenOff(before, Outside(runs, last));
    }
  }

  // The same, group by group from the last.
  predicate IsGrouping(groups: seq<Group>, runs: seq<Run>) {
    if groups == [] then runs == []
    else
      var last := groups[|groups| - 1];
      && last.count == GroupCount(runs, last) && last.count > 0 && last.maxGrants == GroupHighest(runs, last)
      && IsGrouping(groups[..|groups| - 1], Outside(runs, last))
  }

  lemma {:induction false} OutsideSplits(runs: seq<Run>, group: Group, task: string, activeStatuses: set<RunStatus>)
    ensures group.taskId == Some(task)
        ==> Count(runs, task) == Count(Outside(runs, group), task) + GroupCount(runs, group)
    ensures group.taskId != Some(task) ==> Count(runs, task) == Count(Outside(runs, group), task)
    ensures AnyActive(runs, task, activeStatuses) <==>
      AnyActive(Outside(runs, group), task, activeStatuses)
      || (group.taskId == Some(task) && group.status in activeStatuses && GroupCount(runs, group) > 0)
  {
    if runs != [] {
      OutsideSplits(runs[1..], group, task, activeStatuses);
      ActiveSplits(runs, task, activeStatuses);
      if !InGroup(runs[0], group) {
        ActiveSplits([runs[0]] + Outside(runs[1..], group), task, activeStatuses);
      }
    }
  }

  lemma ActiveSplits(runs: seq<Run>, task: string, activeStatuses: set<RunStatus>)
    requires runs != []
    ensures AnyActive(runs, task, activeStatuses) <==>
      (runs[0].taskId == Some(task) && runs[0].status in activeStatuses) || AnyActive(runs[1..], task, activeStatuses)
  {
    if AnyActive(runs[1..], task, activeStatuses) {
      var i :| 0 <= i < |runs| - 1 && runs[1..][i].taskId == Some(task) && runs[1..][i].status in activeStatuses;
      assert runs[i + 1].taskId == Some(task);
    }
    if AnyActive(runs, task, activeStatuses) {
      var i :| 0 <= i < |runs| && runs[i].taskId == Some(task) && runs[i].status in activeStatuses;
      if i > 0 { assert runs[1..][i - 1].taskId == Some(task); }
    }
  }

  lemma {:induction false} HighestSplits(runs: seq<Run>, group: Group, task: string)
    ensures group.taskId == Some(task) ==>
      HighestOf(runs, task) == (if GroupHighest(runs, group).Some?
                                then Larger(GroupHighest(runs, group).value, HighestOf(Outside(runs, group), task))
                                else HighestOf(Outside(runs, group), task))
    ensures group.taskId != Some(task) ==> HighestOf(runs, task) == HighestOf(Outside(runs, group), task)
    ensures HighestOf(runs, task) >= 0
  {
    if runs != [] {
      HighestSplits(runs[1..], group, task);
    }
  }

  lemma {:induction false} FoldTakesOff(groups: seq<Group>, runs: seq<Run>, task: string,
      activeStatuses: set<RunStatus>)
    requires IsGrouping(groups, runs)
    ensures Facts(groups, task, activeStatuses) == DirectFacts(runs, task, activeStatuses)
    ensures Mentioned(groups, task) <==> Count(runs, task) > 0
    decreases |groups|
  {
    if groups != [] {
      var before, last := groups[..|groups| - 1], groups[|groups| - 1];
      FoldTakesOff(before, Outside(runs, last), task, activeStatuses);
      OutsideSplits(runs, last, task, activeStatuses);
      HighestSplits(runs, last, task);
      HighestNonNegative(Outside(runs, last), task);
      MentionedMore(before, last, task);
      assert before + [last] == groups;
      GroupHasHighest(runs, last);
    }
  }

  lemma {:induction false} HighestNonNegative(runs: seq<Run>, task: string)
    ensures HighestOf(runs, task) >= 0
  {
    if runs != [] { HighestNonNegative(runs[1..], task); }
  }

  lemma {:induction false} GroupHasHighest(runs: seq<Run>, group: Group)
    ensures GroupHighest(runs, group).Some? <==> GroupCount(runs, group) > 0
  {
    if runs != [] { GroupHasHighest(runs[1..], group); }
  }

  // For every set of runs, folding its grouped rows in any order gives each task
  // the same facts as counting its runs directly.
  lemma FoldEqualsDirect(groups: seq<Group>, runs: seq<Run>, task: string, activeStatuses: set<RunStatus>)
    requires GroupsOf(groups, runs)
    ensures Facts(groups, task, activeStatuses) == DirectFacts(runs, task, activeStatuses)
    ensures Mentioned(groups, task) <==> Count(runs, task) > 0
  {
    GroupsTakenOff(groups, runs);
    FoldTakesOff(groups, runs, task, activeStatuses);
  }
}
