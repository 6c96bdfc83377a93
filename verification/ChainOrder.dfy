// The execution order of a chain's rows and the progress read off it.
module ChainOrder {
  import opened Prelude
  import opened Ordering

  datatype TaskStatus = Backlog | Todo | Doing | Review | Done

  datatype Row = Row(
    id: string, projectId: string, chainId: Option<string>, index: Option<int>, layer: Option<int>,
    name: string, status: TaskStatus, templateStepName: Option<string>)

  // 2^53 - 1: a row without a layer and an index sorts after every stored layer.
  const MISSING_LAYER_LAST := 9007199254740991

  function LayerOf(row: Row): Option<int> {
    if row.layer.Some? then row.layer else row.index
  }

  function LayerLast(row: Row): int {
    if LayerOf(row).Some? then LayerOf(row).value else MISSING_LAYER_LAST
  }

  function IndexLast(row: Row): int {
    if row.index.Some? then row.index.value else MISSING_LAYER_LAST
  }

  // Not after, by effective layer, then chain index, then id.
  predicate NotAfter(a: Row, b: Row) {
    || LayerLast(a) < LayerLast(b)
    || (LayerLast(a) == LayerLast(b) && IndexLast(a) < IndexLast(b))
    || (LayerLast(a) == LayerLast(b) && IndexLast(a) == IndexLast(b) && !TextLess(b.id, a.id))
  }

  lemma NotAfterTransitive(a: Row, b: Row, c: Row)
    requires NotAfter(a, b) && NotAfter(b, c)
    ensures NotAfter(a, c)
  {
    TextTrichotomy(a.id, b.id);
    TextTrichotomy(b.id, c.id);
    TextTrichotomy(a.id, c.id);
    if TextLess(c.id, a.id) && a.id != b.id && b.id != c.id && TextLess(a.id, b.id) && TextLess(b.id, c.id) {
      TextTransitive(a.id, b.id, c.id);
    }
  }

  // The order is total, and only rows with one id tie.
  lemma NotAfterTotal()
    ensures Total(NotAfter)
    ensures forall a, b :: NotAfter(a, b) && NotAfter(b, a) ==> a.id == b.id
  {
    forall a, b
      ensures NotAfter(a, b) || NotAfter(b, a)
      ensures NotAfter(a, b) && NotAfter(b, a) ==> a.id == b.id
    {
      TextTrichotomy(a.id, b.id);
    }
    forall a, b, c | NotAfter(a, b) && NotAfter(b, c)
      ensures NotAfter(a, c)
    {
      NotAfterTransitive(a, b, c);
    }
  }

  // Stored layer first, then index in its place, then last of all; rows of one
  // layer by index, those without one last; and rows of one index by id.
  lemma OrderMeans(a: Row, b: Row)
    ensures LayerLast(a) == (if a.layer.Some? then a.layer.value
                             else if a.index.Some? then a.index.value else 0x1F_FFFF_FFFF_FFFF)
    ensures LayerOf(a).Some? ==> LayerOf(a).value == LayerLast(a)
    ensures LayerOf(a).None? <==> a.layer.None? && a.index.None?
    ensures LayerLast(a) < LayerLast(b) ==> NotAfter(a, b) && !NotAfter(b, a)
    ensures LayerLast(a) == LayerLast(b) && a.index.Some? && b.index.Some? && a.index.value < b.index.value ==>
      NotAfter(a, b) && !NotAfter(b, a)
    ensures LayerLast(a) == LayerLast(b) && a.index.Some? && a.index.value < 0x1F_FFFF_FFFF_FFFF && b.index.None? ==>
      NotAfter(a, b) && !NotAfter(b, a)
    ensures LayerLast(a) == LayerLast(b) && a.index == b.index && PrefixOrDiffers(a.id, b.id) ==>
      NotAfter(a, b) && !NotAfter(b, a)
  {
    TextLessIff(a.id, b.id);
    TextTrichotomy(a.id, b.id);
  }

  predicate DistinctIds(rows: seq<Row>) {
    forall i, j | 0 <= i < j < |rows| :: rows[i].id != rows[j].id
  }

  lemma DistinctIdsNoTies(rows: seq<Row>)
    requires DistinctIds(rows)
    ensures NoTies(NotAfter, rows)
  {
    NotAfterTotal();
  }

  /* ------------------------------- progress ----------------------------- */

  datatype Progress = Progress(
    done: nat, total: nat, activeStepName: string, activeStatus: TaskStatus, currentLayer: nat, layerCount: nat)

  function StepName(row: Row): string {
    if row.templateStepName.Some? then row.templateStepName.value else row.name
  }

  function CountDone(rows: seq<Row>): nat {
    if rows == [] then 0 else (if rows[0].status == Done then 1 else 0) + CountDone(rows[1..])
  }

  // The first unfinished row, or the last row when there is none.
  function ActiveRow(ordered: seq<Row>): Row
    requires ordered != []
  {
    if ordered[0].status != Done || |ordered| == 1 then ordered[0] else ActiveRow(ordered[1..])
  }

  function Layers(rows: seq<Row>): set<int> {
    set i | 0 <= i < |rows| :: LayerLast(rows[i])
  }

  // The one-based rank of a layer among the chain's distinct layers.
  function DenseOrdinal(rows: seq<Row>, layer: int): nat {
    |set l | l in Layers(rows) && l <= layer|
  }

  function ChainProgress(rows: seq<Row>): Option<Progress> {
    if rows == [] then None
    else
      var ordered := Sort(NotAfter, rows);
      SortSorts(NotAfter, rows);
      NonEmptySort(rows);
      var active := ActiveRow(ordered);
      Some(Progress(CountDone(ordered), |ordered|, StepName(active), active.status,
                    DenseOrdinal(ordered, LayerLast(active)), |Layers(ordered)|))
  }

  lemma NonEmptySort(rows: seq<Row>)
    ensures |Sort(NotAfter, rows)| == |rows|
  {
    SortSorts(NotAfter, rows);
    assert |multiset(rows)| == |rows| && |multiset(Sort(NotAfter, rows))| == |Sort(NotAfter, rows)|;
  }

  // Progress does not depend on the order the rows arrive in.
  lemma ProgressOrderIndependent(rows: seq<Row>, others: seq<Row>)
    requires DistinctIds(rows) && multiset(rows) == multiset(others)
    ensures ChainProgress(rows) == ChainProgress(others)
  {
    NotAfterTotal();
    DistinctIdsNoTies(rows);
    SortOrderIndependent(NotAfter, rows, others);
    assert |multiset(rows)| == |rows| && |multiset(others)| == |others|;
  }

  /* ------------------- what progress says about the rows ----------------- */

  lemma {:induction false} ActiveFacts(ordered: seq<Row>)
    requires ordered != [] && Sorted(NotAfter, ordered)
    ensures ActiveRow(ordered) in ordered
    ensures ActiveRow(ordered).status == Done <==> forall row | row in ordered :: row.status == Done
    ensures ActiveRow(ordered).status != Done ==> forall row | row in ordered
        && row.status != Done :: NotAfter(ActiveRow(ordered), row)
    ensures ActiveRow(ordered).status == Done ==> forall row | row in ordered :: NotAfter(row, ActiveRow(ordered))
  {
    NotAfterTotal();
    assert ordered == [ordered[0]] + ordered[1..];
    if ordered[0].status != Done || |ordered| == 1 {
      forall row | row in ordered
        ensures NotAfter(ordered[0], row) && (|ordered| == 1 ==> NotAfter(row, ordered[0]))
      {
        var i :| 0 <= i < |ordered| && ordered[i] == row;
      }
    } else {
      ActiveFacts(ordered[1..]);
      assert NotAfter(ordered[0], ActiveRow(ordered[1..]));
    }
  }

  lemma SameRows(rows: seq<Row>, row: Row)
    ensures row in Sort(NotAfter, rows) <==> row in rows
  {
    SortSorts(NotAfter, rows);
    assert row in Sort(NotAfter, rows) <==> row in multiset(rows);
  }

  // The active row in terms of the rows as they arrived.
  lemma ActiveIsFirstUnfinished(rows: seq<Row>)
    requires rows != []
    ensures Sort(NotAfter, rows) != []
    ensures var active := ActiveRow(Sort(NotAfter, rows));
            && active in rows
            && (active.status == Done <==> forall row | row in rows :: row.status == Done)
            && (active.status != Done ==> forall row | row in rows && row.status != Done :: NotAfter(active, row))
            && (active.status == Done ==> forall row | row in rows :: NotAfter(row, active))
  {
    NotAfterTotal();
    SortSorts(NotAfter, rows);
    NonEmptySort(rows);
    ActiveFacts(Sort(NotAfter, rows));
    forall row
      ensures row in Sort(NotAfter, rows) <==> row in rows
    {
      SameRows(rows, row);
    }
  }

  lemma LayersSorted(rows: seq<Row>)
    ensures Layers(Sort(NotAfter, rows)) == Layers(rows)
  {
    var ordered := Sort(NotAfter, rows);
    forall l | l in Layers(ordered)
      ensures l in Layers(rows)
    {
      var i :| 0 <= i < |ordered| && LayerLast(ordered[i]) == l;
      SameRows(rows, ordered[i]);
      var j :| 0 <= j < |rows| && rows[j] == ordered[i];
    }
    forall l | l in Layers(rows)
      ensures l in Layers(ordered)
    {
      var i :| 0 <= i < |rows| && LayerLast(rows[i]) == l;
      SameRows(rows, rows[i]);
      var j :| 0 <= j < |ordered| && ordered[j] == rows[i];
    }
  }

  lemma {:induction false} CountDonePermutes(a: seq<Row>, b: seq<Row>)
    requires multiset(a) == multiset(b)
    ensures CountDone(a) == CountDone(b)
  {
    assert |multiset(a)| == |a| && |multiset(b)| == |b|;
    if a != [] {
      assert a[0] in multiset(b);
      var i :| 0 <= i < |b| && b[i] == a[0];
      var rest := b[..i] + b[i + 1..];
      assert b == b[..i] + [b[i]] + b[i + 1..];
      WithoutHead(a);
      CountDonePermutes(a[1..], rest);
      CountDoneSplit(b[..i], b[i], b[i + 1..]);
    }
  }

  function DonePlaces(rows: seq<Row>): set<int> {
    set i | 0 <= i < |rows| && rows[i].status == Done
  }

  lemma DonePlacesMore(rows: seq<Row>, row: Row)
    ensures |DonePlaces(rows + [row])| == |DonePlaces(rows)| + (if row.status == Done then 1 else 0)
  {
    var more := rows + [row];
    assert forall i | 0 <= i < |rows| :: more[i] == rows[i];
    assert DonePlaces(more) == DonePlaces(rows) + (if row.status == Done then {|rows|} else {});
  }

  lemma CountDoneMore(rows: seq<Row>, row: Row)
    ensures CountDone(rows + [row]) == CountDone(rows) + (if row.status == Done then 1 else 0)
  {
    CountDoneSplit(rows, row, []);
    assert rows + [row] + [] == rows + [row] && rows + [] == rows;
  }

  lemma {:induction false} CountDoneIsSize(rows: seq<Row>)
    ensures CountDone(rows) == |DonePlaces(rows)|
  {
    if rows != [] {
      var front, last := rows[..|rows| - 1], rows[|rows| - 1];
      CountDoneIsSize(front);
      CountDoneMore(front, last);
      DonePlacesMore(front, last);
      assert rows == front + [last];
    } else {
      assert DonePlaces(rows) == {};
    }
  }

  lemma {:induction false} CountDoneSplit(front: seq<Row>, row: Row, back: seq<Row>)
    ensures CountDone(front + [row] + back) == CountDone(front + back) + (if row.status == Done then 1 else 0)
  {
    if front == [] {
      assert [] + [row] + back == [row] + back && [] + back == back;
      assert ([row] + back)[1..] == back;
    } else {
      CountDoneSplit(front[1..], row, back);
      assert (front + [row] + back)[1..] == front[1..] + [row] + back;
      assert (front + back)[1..] == front[1..] + back;
    }
  }

  lemma SubsetSize(small: set<int>, large: set<int>)
    requires small <= large
    ensures |small| <= |large| && (|small| == |large| ==> small == large)
  {
    var rest := large - small;
    assert large == small + rest && small !! rest;
    assert |large| == |small| + |rest|;
  }

  lemma ProgressCounts(rows: seq<Row>)
    requires rows != []
    ensures ChainProgress(rows).Some?
    ensures var p := ChainProgress(rows).value;
            && p.done == CountDone(rows) == |DonePlaces(rows)|
            && p.total == |rows| && p.layerCount == |Layers(rows)|
  {
    NonEmptySort(rows);
    SortSorts(NotAfter, rows);
    LayersSorted(rows);
    CountDonePermutes(Sort(NotAfter, rows), rows);
    CountDoneIsSize(rows);
  }

  lemma ProgressActive(rows: seq<Row>) returns (active: Row)
    requires rows != []
    ensures ChainProgress(rows).Some? && active in rows
    ensures var p := ChainProgress(rows).value;
            && p.activeStepName == StepName(active) && p.activeStatus == active.status
            && p.currentLayer == DenseOrdinal(rows, LayerLast(active))
    ensures if active.status != Done
            then forall other | other in rows && other.status != Done :: NotAfter(active, other)
            else forall other | other in rows :: other.status == Done && NotAfter(other, active)
  {
    NonEmptySort(rows);
    ActiveIsFirstUnfinished(rows);
    LayersSorted(rows);
    active := ActiveRow(Sort(NotAfter, rows));
  }

  // What the reader sees, stated about the rows: counts of rows and layers, and
  // the rank of the lowest layer that still has an unfinished row.
  lemma ProgressMeaning(rows: seq<Row>)
    requires rows != []
    ensures ChainProgress(rows).Some?
    ensures var p := ChainProgress(rows).value;
            && p.done == |set i | 0 <= i < |rows| && rows[i].status == Done| && p.done == CountDone(rows)
            && p.total == |rows| && p.layerCount == |set i | 0 <= i < |rows| :: LayerLast(rows[i])|
            && p.layerCount == |Layers(rows)|
            && 1 <= p.currentLayer <= p.layerCount
            && ((forall row | row in rows :: row.status == Done) ==> p.currentLayer == p.layerCount)
            && (forall row | row in rows && row.status != Done :: p.currentLayer <= DenseOrdinal(rows, LayerLast(row)))
            && (exists row ::
               row in rows && p.activeStatus == row.status && p.currentLayer == DenseOrdinal(rows, LayerLast(row))
               && p.activeStepName == (if row.templateStepName.Some? then row.templateStepName.value else row.name)
               && (if row.status != Done
                   then forall other | other in rows && other.status != Done :: NotAfter(row, other)
                   else forall other | other in rows :: other.status == Done && NotAfter(other, row)))
  {
    ProgressCounts(rows);
    var active := ProgressActive(rows);
    RankRange(rows, active);
    forall row | row in rows && row.status != Done
      ensures DenseOrdinal(rows, LayerLast(active)) <= DenseOrdinal(rows, LayerLast(row))
    {
      RankGrows(rows, LayerLast(active), LayerLast(row));
    }
    if forall row | row in rows :: row.status == Done {
      LastRank(rows, active);
    }
  }

  lemma RankGrows(rows: seq<Row>, low: int, high: int)
    requires low <= high
    ensures DenseOrdinal(rows, low) <= DenseOrdinal(rows, high)
  {
    SubsetSize(set l | l in Layers(rows) && l <= low, set l | l in Layers(rows) && l <= high);
  }

  lemma RankRange(rows: seq<Row>, row: Row)
    requires row in rows
    ensures 1 <= DenseOrdinal(rows, LayerLast(row)) <= |Layers(rows)|
  {
    var i :| 0 <= i < |rows| && rows[i] == row;
    var below := set l | l in Layers(rows) && l <= LayerLast(row);
    assert LayerLast(rows[i]) in below;
    SubsetSize({LayerLast(row)}, below);
    SubsetSize(below, Layers(rows));
  }

  lemma LastRank(rows: seq<Row>, last: Row)
    requires forall row | row in rows :: NotAfter(row, last)
    ensures DenseOrdinal(rows, LayerLast(last)) == |Layers(rows)|
  {
    forall l | l in Layers(rows)
      ensures l <= LayerLast(last)
    {
      var i :| 0 <= i < |rows| && LayerLast(rows[i]) == l;
      assert rows[i] in rows;
    }
    assert (set l | l in Layers(rows) && l <= LayerLast(last)) == Layers(rows);
  }

  /* ------------------------- progress along a run ------------------------ */

  // Some rows turned DONE and nothing else changed.
  predicate OnlyFinishes(before: seq<Row>, after: seq<Row>) {
    && |before| == |after|
    && forall i | 0 <= i < |before| ::
      after[i] == before[i].(status := after[i].status) && (before[i].status == Done ==> after[i].status == Done)
  }

  lemma {:induction false} DoneGrows(before: seq<Row>, after: seq<Row>)
    requires OnlyFinishes(before, after)
    ensures CountDone(before) <= CountDone(after)
  {
    if before != [] {
      assert forall i | 0 <= i < |before| - 1 :: after[1..][i] == after[i + 1] && before[1..][i] == before[i + 1];
      DoneGrows(before[1..], after[1..]);
    }
  }

  lemma SameLayers(before: seq<Row>, after: seq<Row>)
    requires OnlyFinishes(before, after)
    ensures Layers(before) == Layers(after)
  {
    assert forall i | 0 <= i < |before| :: LayerLast(after[i]) == LayerLast(before[i]);
  }

  // The row whose rank is reported: unfinished, unless everything is done.
  lemma ReportedRow(rows: seq<Row>) returns (i: nat)
    requires rows != []
    ensures i < |rows| && ChainProgress(rows).Some?
    ensures ChainProgress(rows).value.currentLayer == DenseOrdinal(rows, LayerLast(rows[i]))
    ensures rows[i].status != Done || forall row | row in rows :: row.status == Done
  {
    ProgressMeaning(rows);
    var row :| row in rows && ChainProgress(rows).value.currentLayer == DenseOrdinal(rows, LayerLast(row))
               && (row.status != Done || forall other | other in rows :: other.status == Done);
    i :| 0 <= i < |rows| && rows[i] == row;
  }

  lemma SameRank(before: seq<Row>, after: seq<Row>, i: nat)
    requires OnlyFinishes(before, after) && i < |before|
    ensures DenseOrdinal(before, LayerLast(before[i])) == DenseOrdinal(after, LayerLast(after[i]))
  {
    SameLayers(before, after);
  }

  // An unfinished row's rank bounds the layer reported.
  lemma ReportedAtMost(rows: seq<Row>, i: nat)
    requires i < |rows| && rows[i].status != Done
    ensures ChainProgress(rows).Some?
    ensures ChainProgress(rows).value.currentLayer <= DenseOrdinal(rows, LayerLast(rows[i]))
  {
    ProgressMeaning(rows);
    assert rows[i] in rows;
  }

  lemma Counted(rows: seq<Row>)
    requires rows != []
    ensures ChainProgress(rows).Some?
    ensures ChainProgress(rows).value.done == CountDone(rows) && ChainProgress(rows).value.layerCount == |Layers(rows)|
    ensures ChainProgress(rows).value.currentLayer <= |Layers(rows)|
    ensures (forall row | row in rows :: row.status == Done) ==>
      ChainProgress(rows).value.currentLayer == |Layers(rows)|
  {
    ProgressMeaning(rows);
  }

  lemma LayerNeverDrops(before: seq<Row>, after: seq<Row>)
    requires before != [] && OnlyFinishes(before, after)
    ensures ChainProgress(before).Some? && ChainProgress(after).Some?
    ensures ChainProgress(before).value.currentLayer <= ChainProgress(after).value.currentLayer
  {
    Counted(before);
    Counted(after);
    SameLayers(before, after);
    var i := ReportedRow(after);
    SameRank(before, after, i);
    if after[i].status != Done { ReportedAtMost(before, i); }
  }

  // Along any run in which rows only turn DONE, neither number goes down.
  lemma ProgressNeverDrops(before: seq<Row>, after: seq<Row>)
    requires before != [] && OnlyFinishes(before, after)
    ensures ChainProgress(before).Some? && ChainProgress(after).Some?
    ensures ChainProgress(before).value.done <= ChainProgress(after).value.done
    ensures ChainProgress(before).value.currentLayer <= ChainProgress(after).value.currentLayer
    ensures ChainProgress(before).value.layerCount == ChainProgress(after).value.layerCount
  {
    Counted(before);
    Counted(after);
    DoneGrows(before, after);
    SameLayers(before, after);
    LayerNeverDrops(before, after);
  }

  /* ----------------------------- many chains ----------------------------- */

  function ChainKey(projectId: string, chainId: string): string {
    projectId + ":" + chainId
  }

  predicate InChain(row: Row, key: string) {
    row.chainId.Some? && row.chainId.value != "" && ChainKey(row.projectId, row.chainId.value) == key
  }

  // The rows of one chain, in order of arrival.
  function RowsOf(rows: seq<Row>, key: string): seq<Row> {
    if rows == [] then []
    else RowsOf(rows[..|rows| - 1], key) + (if InChain(rows[|rows| - 1], key) then [rows[|rows| - 1]] else [])
  }

  // Two chains never share a key while project ids contain no colon.
  lemma {:induction false} KeyIdentifiesChain(projectId: string, chainId: string, projectId': string, chainId': string)
    requires ':' !in projectId && ':' !in projectId' && ChainKey(projectId, chainId) == ChainKey(projectId', chainId')
    ensures projectId == projectId' && chainId == chainId'
  {
    var key, key' := ChainKey(projectId, chainId), ChainKey(projectId', chainId');
    assert key[0] == if projectId == "" then ':' else projectId[0];
    assert key'[0] == if projectId' == "" then ':' else projectId'[0];
    if projectId == "" {
      assert key[1..] == chainId && key'[1..] == chainId';
    } else {
      assert key[1..] == ChainKey(projectId[1..], chainId) && key'[1..] == ChainKey(projectId'[1..], chainId');
      KeyIdentifiesChain(projectId[1..], chainId, projectId'[1..], chainId');
      assert projectId == [projectId[0]] + projectId[1..] && projectId' == [projectId'[0]] + projectId'[1..];
    }
  }

  method ChainProgressByChain(rows: seq<Row>) returns (progress: map<string, Progress>)
    ensures forall key :: key in progress <==> RowsOf(rows, key) != []
    ensures forall key | key in progress :: Some(progress[key]) == ChainProgress(RowsOf(rows, key))
  {
    var groups: map<string, seq<Row>> := map[];
    for i := 0 to |rows|
      invariant forall key :: key in groups <==> RowsOf(rows[..i], key) != []
      invariant forall key | key in groups :: groups[key] == RowsOf(rows[..i], key)
    {
      var row := rows[i];
      assert rows[..i + 1][..i] == rows[..i];
      if row.chainId.Some? && row.chainId.value != "" {
        var key := ChainKey(row.projectId, row.chainId.value);
        groups := groups[key := (if key in groups then groups[key] else []) + [row]];
      }
    }
    assert rows[..|rows|] == rows;
    progress := map[];
    var keys := groups.Keys;
    while keys != {}
      invariant keys <= groups.Keys
      invariant progress.Keys == groups.Keys - keys
      invariant forall key | key in progress :: Some(progress[key]) == ChainProgress(groups[key])
      decreases |keys|
    {
      var key :| key in keys;
      var computed := ChainProgress(groups[key]);
      progress, keys := progress[key := computed.value], keys - {key};
    }
  }
}
