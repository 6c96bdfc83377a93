// The chain name and the short title the board shows for each card.
module BoardDisplay {
  import opened Prelude

  datatype Row = Row(id: string, projectId: string, name: string, chainId: Option<string>, stepName: Option<string>)

  datatype Display = Display(chainName: Option<string>, displayName: string)

  predicate EndsWith(text: string, suffix: string) {
    |text| >= |suffix| && text[|text| - |suffix|..] == suffix
  }

  predicate StartsWith(text: string, prefix: string) {
    |text| >= |prefix| && text[..|prefix|] == prefix
  }

  // The name without the step's own suffix, when it carries it.
  function TaskChainName(row: Row): Option<string> {
    if row.chainId.None? || row.stepName.None? then None
    else
      var suffix := ": " + row.stepName.value;
      if EndsWith(row.name, suffix) then Some(row.name[..|row.name| - |suffix|]) else None
  }

  function Key(row: Row): Option<string> {
    if row.chainId.None? then None else Some(row.projectId + "\0" + row.chainId.value)
  }

  // Rows have one key exactly when they belong to one chain of one project, as
  // long as project ids hold no NUL character.
  lemma KeyMeans(row: Row, other: Row)
    requires '\0' !in row.projectId && '\0' !in other.projectId
    ensures Key(row).None? <==> row.chainId.None?
    ensures Key(row).Some? ==> (Key(row) == Key(other) <==> SameChain(row, other))
  {
    if Key(row).Some? && Key(row) == Key(other) {
      SplitsOnce(row.projectId, row.chainId.value, other.projectId, other.chainId.value);
    }
  }

  predicate SameChain(row: Row, other: Row) {
    row.chainId.Some? && other.chainId == row.chainId && other.projectId == row.projectId
  }

  lemma SplitsOnce(a: string, b: string, c: string, d: string)
    requires '\0' !in a && '\0' !in c && a + "\0" + b == c + "\0" + d
    ensures a == c && b == d
  {
    var text := a + "\0" + b;
    assert text[|a|] == '\0' && text[|c|] == '\0';
    assert forall i | 0 <= i < |a| :: text[i] == a[i];
    assert forall i | 0 <= i < |c| :: text[i] == c[i];
    assert text[..|a|] == a && text[..|c|] == c;
    assert text[|a| + 1..] == b && text[|c| + 1..] == d;
  }

  // The rows of one key, in order of arrival.
  function GroupOf(rows: seq<Row>, key: string): seq<Row> {
    if rows == [] then []
    else GroupOf(rows[..|rows| - 1], key) + (if Key(rows[|rows| - 1]) == Some(key) then [rows[|rows| - 1]] else [])
  }

  // Every row's name starts with the candidate and ": " and goes on after it.
  predicate SharedBy(group: seq<Row>, candidate: string) {
    forall i | 0 <= i < |group| ::
      StartsWith(group[i].name, candidate + ": ") && |group[i].name| > |candidate| + 2
  }

  // The last ": " of `name` before position `end`, not at its very start, that
  // ends a prefix every row shares.
  function LastShared(group: seq<Row>, name: string, end: nat): Option<string>
    requires end <= |name|
  {
    if end < 3 then None
    else if name[end - 2..end] == ": " && SharedBy(group, name[..end - 2]) then Some(name[..end - 2])
    else LastShared(group, name, end - 1)
  }

  function GroupName(group: seq<Row>): Option<string> {
    if group == [] then None
    else
      var exact := TaskChainName(group[0]);
      if exact.Some? && forall i | 0 <= i < |group| :: TaskChainName(group[i]) == exact then exact
      else if |group| > 1 then LastShared(group, group[0].name, |group[0].name|)
      else None
  }

  function Named(group: seq<Row>, row: Row): Display {
    var name := GroupName(group);
    if name.Some? && |row.name| >= |name.value| + 2 then Display(name, row.name[|name.value| + 2..])
    else Display(None, row.name)
  }

  // What one row of a page shows.
  function Shown(rows: seq<Row>, row: Row): Display {
    var key := Key(row);
    if key.None? then Display(None, row.name) else Named(GroupOf(rows, key.value), row)
  }

  /* ----------------------------- group names ----------------------------- */

  lemma {:induction false} GroupMembers(rows: seq<Row>, key: string)
    ensures forall row :: row in GroupOf(rows, key) <==> row in rows && Key(row) == Some(key)
  {
    if rows != [] {
      GroupMembers(rows[..|rows| - 1], key);
      assert rows == rows[..|rows| - 1] + [rows[|rows| - 1]];
    }
  }

  lemma {:induction false} LastSharedMeans(group: seq<Row>, name: string, end: nat)
    requires end <= |name|
    ensures LastShared(group, name, end).Some? ==>
      var found := LastShared(group, name, end).value;
      found != "" && SharedBy(group, found) && StartsWith(name, found + ": ")
  {
    if end >= 3 {
      if name[end - 2..end] == ": " && SharedBy(group, name[..end - 2]) {
        assert name[..end] == name[..end - 2] + ": ";
      } else {
        LastSharedMeans(group, name, end - 1);
      }
    }
  }

  lemma {:induction false} LastSharedFinds(group: seq<Row>, name: string, end: nat, k: nat)
    requires 1 <= k && k + 2 <= end <= |name| && name[k..k + 2] == ": " && SharedBy(group, name[..k])
    ensures LastShared(group, name, end).Some? && k <= |LastShared(group, name, end).value|
  {
    if k + 2 < end { LastSharedFinds(group, name, end - 1, k); }
  }

  // The found prefix is the longest one, and one is found if there is any.
  lemma LongestShared(group: seq<Row>, other: string)
    requires group != []
    requires other != "" && SharedBy(group, other)
    ensures var found := LastShared(group, group[0].name, |group[0].name|); found.Some? && |other| <= |found.value|
  {
    var name := group[0].name;
    var k := |other|;
    assert StartsWith(name, other + ": ");
    assert name[..k + 2] == other + ": ";
    assert name[k..k + 2] == (other + ": ")[k..k + 2] == ": ";
    assert name[..k] == (other + ": ")[..k] == other;
    LastSharedFinds(group, name, |name|, k);
  }

  lemma PrefixesOfOneName(name: string, a: string, b: string)
    requires StartsWith(name, a) && StartsWith(name, b) && |a| == |b|
    ensures a == b
  {
  }

  predicate AllExactly(group: seq<Row>, name: string) {
    forall i | 0 <= i < |group| :: TaskChainName(group[i]) == Some(name)
  }

  // A group has a name because its rows all carry it before their own step's
  // name, or else because it is the longest prefix ending at ": " that two or
  // more rows share, each with something after it; otherwise it has none.
  lemma GroupNameMeans(group: seq<Row>)
    requires group != []
    ensures GroupName(group).Some? ==>
      var name := GroupName(group).value;
      || AllExactly(group, name)
      || (|group| > 1 && name != "" && SharedBy(group, name)
          && forall other | other != "" && SharedBy(group, other) :: |other| <= |name|)
    ensures forall name | AllExactly(group, name) :: GroupName(group) == Some(name)
    ensures |group| > 1 && GroupName(group).None? ==> forall other | other != "" :: !SharedBy(group, other)
  {
    LastSharedMeans(group, group[0].name, |group[0].name|);
    forall other | other != "" && SharedBy(group, other)
      ensures var found := LastShared(group, group[0].name, |group[0].name|); found.Some? && |other| <= |found.value|
    {
      LongestShared(group, other);
    }
  }

  // On a chain without template names, the name is the longest shared prefix.
  lemma SharedNameIsLongest(group: seq<Row>)
    requires |group| > 1 && forall name :: !AllExactly(group, name)
    ensures GroupName(group).Some? <==> exists other :: other != "" && SharedBy(group, other)
    ensures GroupName(group).Some? ==>
      && GroupName(group).value != "" && SharedBy(group, GroupName(group).value)
      && forall other | other != "" && SharedBy(group, other) :: |other| <= |GroupName(group).value|
  {
    GroupNameMeans(group);
  }

  lemma ExactSplits(row: Row, name: string)
    requires TaskChainName(row) == Some(name)
    ensures StartsWith(row.name, name + ": ")
  {
    var suffix := ": " + row.stepName.value;
    assert row.name == name + suffix;
    assert row.name[..|name| + 2] == name + ": ";
  }

  // Every row of a named group starts with the name and ": ".
  lemma NamePrefixes(group: seq<Row>, row: Row)
    requires row in group && GroupName(group).Some?
    ensures StartsWith(row.name, GroupName(group).value + ": ")
  {
    GroupNameMeans(group);
    var name := GroupName(group).value;
    var i :| 0 <= i < |group| && group[i] == row;
    if AllExactly(group, name) { ExactSplits(group[i], name); }
  }

  /* ------------------------------- the page ------------------------------ */

  // A named row's name is its chain name, ": " and its title; a row without a
  // chain name shows its whole name; and all rows of one chain agree.
  lemma ShownSplits(rows: seq<Row>, row: Row)
    requires row in rows
    ensures var shown := Shown(rows, row);
            if shown.chainName.Some? then shown.chainName.value + ": " + shown.displayName == row.name
            else shown.displayName == row.name
    ensures Key(row).Some? ==> Shown(rows, row).chainName == GroupName(GroupOf(rows, Key(row).value))
  {
    if Key(row).Some? {
      var group := GroupOf(rows, Key(row).value);
      GroupMembers(rows, Key(row).value);
      if GroupName(group).Some? {
        NamePrefixes(group, row);
        var name := GroupName(group).value;
        assert row.name == row.name[..|name| + 2] + row.name[|name| + 2..];
      }
    }
  }

  lemma ChainAgrees(rows: seq<Row>, row: Row, other: Row)
    requires row in rows && other in rows && Key(row).Some? && Key(row) == Key(other)
    ensures Shown(rows, row).chainName == Shown(rows, other).chainName
  {
    ShownSplits(rows, row);
    ShownSplits(rows, other);
  }

  lemma {:induction false} GroupCounts(rows: seq<Row>, key: string, row: Row)
    ensures multiset(GroupOf(rows, key))[row] == if Key(row) == Some(key) then multiset(rows)[row] else 0
  {
    if rows != [] {
      GroupCounts(rows[..|rows| - 1], key, row);
      assert rows == rows[..|rows| - 1] + [rows[|rows| - 1]];
    }
  }

  lemma SameGroups(rows: seq<Row>, others: seq<Row>, key: string)
    requires multiset(rows) == multiset(others)
    ensures multiset(GroupOf(rows, key)) == multiset(GroupOf(others, key))
  {
    forall row
      ensures multiset(GroupOf(rows, key))[row] == multiset(GroupOf(others, key))[row]
    {
      GroupCounts(rows, key, row);
      GroupCounts(others, key, row);
    }
  }

  lemma SharedPermutes(group: seq<Row>, other: seq<Row>, candidate: string)
    requires multiset(group) == multiset(other) && SharedBy(group, candidate)
    ensures SharedBy(other, candidate)
  {
    forall i | 0 <= i < |other|
      ensures StartsWith(other[i].name, candidate + ": ") && |other[i].name| > |candidate| + 2
    {
      assert other[i] in multiset(other);
      var j :| 0 <= j < |group| && group[j] == other[i];
    }
  }

  lemma ExactPermutes(group: seq<Row>, other: seq<Row>, name: string)
    requires multiset(group) == multiset(other) && AllExactly(group, name)
    ensures AllExactly(other, name)
  {
    forall i | 0 <= i < |other|
      ensures TaskChainName(other[i]) == Some(name)
    {
      assert other[i] in multiset(other);
      var j :| 0 <= j < |group| && group[j] == other[i];
    }
  }

  lemma GroupNamePermutes(group: seq<Row>, other: seq<Row>)
    requires multiset(group) == multiset(other)
    ensures GroupName(group) == GroupName(other)
  {
    assert |multiset(group)| == |group| && |multiset(other)| == |other|;
    if group != [] {
      GroupNameMeans(group);
      GroupNameMeans(other);
      if name :| AllExactly(group, name) {
        ExactPermutes(group, other, name);
      } else if name :| AllExactly(other, name) {
        ExactPermutes(other, group, name);
      } else {
        SharedNamePermutes(group, other);
      }
    }
  }

  lemma SharedNamePermutes(group: seq<Row>, other: seq<Row>)
    requires multiset(group) == multiset(other) && |group| == |other| > 0
    requires (forall name :: !AllExactly(group, name)) && (forall name :: !AllExactly(other, name))
    ensures GroupName(group) == GroupName(other)
  {
    GroupNameMeans(group);
    GroupNameMeans(other);
    if GroupName(group).Some? {
      var name := GroupName(group).value;
      SharedPermutes(group, other, name);
      var found := GroupName(other).value;
      SharedPermutes(other, group, found);
      assert StartsWith(group[0].name, name + ": ") && StartsWith(group[0].name, found + ": ");
      PrefixesOfOneName(group[0].name, name + ": ", found + ": ");
      assert (name + ": ")[..|name|] == name && (found + ": ")[..|found|] == found;
    } else if GroupName(other).Some? {
      SharedPermutes(other, group, GroupName(other).value);
    }
  }

  // Every row of the row's chain is called `name`, ": " and its own step.
  predicate TemplateNamed(rows: seq<Row>, row: Row, name: string) {
    forall other | other in rows && SameChain(row, other) ::
      other.stepName.Some? && other.name == name + (": " + other.stepName.value)
  }

  // Every row of the row's chain is called `name`, ": " and something more.
  predicate AllStartWith(rows: seq<Row>, row: Row, name: string) {
    forall other | other in rows && SameChain(row, other) ::
      name + ": " <= other.name && |other.name| > |name| + 2
  }

  predicate DistinctIds(rows: seq<Row>) {
    forall i, j | 0 <= i < j < |rows| :: rows[i].id != rows[j].id
  }

  predicate NotAlone(rows: seq<Row>, row: Row) {
    exists other | other in rows :: SameChain(row, other) && other != row
  }

  lemma ExactMeans(row: Row, name: string)
    ensures TaskChainName(row) == Some(name) <==>
            row.chainId.Some? && row.stepName.Some? && row.name == name + (": " + row.stepName.value)
  {
    if row.chainId.Some? && row.stepName.Some? {
      var suffix := ": " + row.stepName.value;
      if row.name == name + suffix { assert EndsWith(row.name, suffix) && row.name[..|row.name| - |suffix|] == name; }
    }
  }

  // A chain's group holds the rows of the chain.
  lemma ChainRows(rows: seq<Row>, row: Row)
    requires row in rows && row.chainId.Some? && forall other | other in rows :: '\0' !in other.projectId
    ensures forall other :: other in GroupOf(rows, Key(row).value) <==> other in rows && SameChain(row, other)
    ensures row in GroupOf(rows, Key(row).value)
  {
    GroupMembers(rows, Key(row).value);
    forall other | other in rows
      ensures Key(other) == Key(row) <==> SameChain(row, other)
    {
      KeyMeans(row, other);
    }
  }

  lemma ExactInGroup(group: seq<Row>, name: string)
    ensures AllExactly(group, name) <==> forall other | other in group ::
              other.chainId.Some? && other.stepName.Some? && other.name == name + (": " + other.stepName.value)
  {
    forall i | 0 <= i < |group|
      ensures TaskChainName(group[i]) == Some(name) <==>
              group[i].chainId.Some? && group[i].stepName.Some?
              && group[i].name == name + (": " + group[i].stepName.value)
    {
      ExactMeans(group[i], name);
    }
  }

  lemma SharedInGroup(group: seq<Row>, name: string)
    ensures SharedBy(group, name) <==>
            forall other | other in group :: name + ": " <= other.name && |other.name| > |name| + 2
  {
  }

  lemma GroupIsChain(rows: seq<Row>, row: Row, name: string)
    requires row in rows && row.chainId.Some? && forall other | other in rows :: '\0' !in other.projectId
    ensures AllExactly(GroupOf(rows, Key(row).value), name) <==> TemplateNamed(rows, row, name)
    ensures SharedBy(GroupOf(rows, Key(row).value), name) <==> AllStartWith(rows, row, name)
  {
    ChainRows(rows, row);
    ExactInGroup(GroupOf(rows, Key(row).value), name);
    SharedInGroup(GroupOf(rows, Key(row).value), name);
  }

  lemma CompanyMeans(rows: seq<Row>, row: Row)
    requires row in rows && row.chainId.Some? && forall other | other in rows :: '\0' !in other.projectId
    requires DistinctIds(rows)
    ensures |GroupOf(rows, Key(row).value)| > 1 <==> NotAlone(rows, row)
  {
    var group := GroupOf(rows, Key(row).value);
    ChainRows(rows, row);
    GroupCounts(rows, Key(row).value, row);
    OnceEach(rows, row);
    MoreThanOne(group, row);
    assert NotAlone(rows, row) <==> exists other | other in group :: other != row;
  }

  lemma MoreThanOne(group: seq<Row>, row: Row)
    requires row in group && multiset(group)[row] <= 1
    ensures |group| > 1 <==> exists other | other in group :: other != row
  {
    if |group| > 1 {
      assert group == [group[0], group[1]] + group[2..];
      assert group[0] in group && group[1] in group;
    }
  }

  lemma {:induction false} OnceEach(rows: seq<Row>, row: Row)
    requires DistinctIds(rows)
    ensures multiset(rows)[row] <= 1
  {
    if rows != [] {
      var rest := rows[..|rows| - 1];
      assert rows == rest + [rows[|rows| - 1]];
      OnceEach(rest, row);
      if rows[|rows| - 1] == row { assert row !in rest; }
    }
  }

  // A row whose chain was named by its template shows that name and its step.
  lemma TemplateShown(rows: seq<Row>, row: Row, name: string)
    requires row in rows && forall other | other in rows :: '\0' !in other.projectId
    requires row.chainId.Some? && TemplateNamed(rows, row, name)
    ensures Shown(rows, row) == Display(Some(name), row.stepName.value)
  {
    var group := GroupOf(rows, Key(row).value);
    ChainRows(rows, row);
    GroupIsChain(rows, row, name);
    GroupNameMeans(group);
    assert SameChain(row, row);
    ShownSplits(rows, row);
    assert row.name[|name| + 2..] == row.stepName.value;
  }

  ghost predicate LongestOfAll(rows: seq<Row>, row: Row, name: string) {
    && name != "" && AllStartWith(rows, row, name)
    && forall other | other != "" && AllStartWith(rows, row, other) :: |other| <= |name|
  }

  // What a row shows, in terms of the page: the name its template gave all rows
  // of its chain and its own step; or else the longest name that two or more of
  // them share and what follows it; or else its own name.
  lemma ShownMeans(rows: seq<Row>, row: Row)
    requires row in rows && DistinctIds(rows) && forall other | other in rows :: '\0' !in other.projectId
    ensures row.chainId.None? ==> Shown(rows, row) == Display(None, row.name)
    ensures row.chainId.Some? ==>
      forall name | TemplateNamed(rows, row, name) :: Shown(rows, row) == Display(Some(name), row.stepName.value)
    ensures row.chainId.Some? && (forall name :: !TemplateNamed(rows, row, name)) ==>
      var shown := Shown(rows, row);
      && (shown.chainName.Some? <==> NotAlone(rows, row) && exists name :: name != "" && AllStartWith(rows, row, name))
      && (shown.chainName.Some? ==> LongestOfAll(rows, row, shown.chainName.value))
    ensures var shown := Shown(rows, row);
            row.name == if shown.chainName.Some? then shown.chainName.value + ": " + shown.displayName
                        else shown.displayName
  {
    ShownSplits(rows, row);
    if row.chainId.Some? {
      if name :| TemplateNamed(rows, row, name) {
        forall name | TemplateNamed(rows, row, name)
          ensures Shown(rows, row) == Display(Some(name), row.stepName.value)
        {
          TemplateShown(rows, row, name);
        }
      } else {
        SharedShown(rows, row);
      }
    }
  }

  lemma SharedShown(rows: seq<Row>, row: Row)
    requires row in rows && DistinctIds(rows) && forall other | other in rows :: '\0' !in other.projectId
    requires row.chainId.Some? && forall name :: !TemplateNamed(rows, row, name)
    ensures var shown := Shown(rows, row);
            && (shown.chainName.Some? <==>
                NotAlone(rows, row) && exists name :: name != "" && AllStartWith(rows, row, name))
            && (shown.chainName.Some? ==> LongestOfAll(rows, row, shown.chainName.value))
  {
    var group := GroupOf(rows, Key(row).value);
    forall name
      ensures AllExactly(group, name) <==> TemplateNamed(rows, row, name)
      ensures SharedBy(group, name) <==> AllStartWith(rows, row, name)
    {
      GroupIsChain(rows, row, name);
    }
    ChainRows(rows, row);
    CompanyMeans(rows, row);
    GroupNameMeans(group);
    ShownSplits(rows, row);
  }

  // What each row shows does not depend on the order the page arrives in.
  lemma ShownOrderIndependent(rows: seq<Row>, others: seq<Row>, row: Row)
    requires multiset(rows) == multiset(others)
    ensures Shown(rows, row) == Shown(others, row)
  {
    if Key(row).Some? {
      SameGroups(rows, others, Key(row).value);
      GroupNamePermutes(GroupOf(rows, Key(row).value), GroupOf(others, Key(row).value));
    }
  }

  /* ------------------------------ the two loops -------------------------- */

  lemma DistinctById(rows: seq<Row>, row: Row, other: Row)
    requires DistinctIds(rows) && row in rows && other in rows && row != other
    ensures row.id != other.id
  {
  }

  // The first `i` rows of the group are named, and no other row is touched.
  predicate NamedSoFar(rows: seq<Row>, group: seq<Row>, i: nat, before: map<string, Display>,
      result: map<string, Display>)
    requires i <= |group| && forall row | row in rows :: row.id in before && row.id in result
  {
    forall row | row in rows :: result[row.id] == if row in group[..i] then Named(group, row) else before[row.id]
  }

  lemma NamesOneMore(rows: seq<Row>, group: seq<Row>, i: nat, before: map<string, Display>,
      result: map<string, Display>)
    requires DistinctIds(rows) && i < |group| && group[i] in rows
    requires forall row | row in rows :: row.id in before && row.id in result
    requires NamedSoFar(rows, group, i, before, result)
    ensures NamedSoFar(rows, group, i + 1, before, result[group[i].id := Named(group, group[i])])
  {
    assert group[..i + 1] == group[..i] + [group[i]];
    forall row | row in rows && row != group[i]
      ensures row.id != group[i].id
    {
      DistinctById(rows, row, group[i]);
    }
  }

  // Names one group's rows and leaves every other row alone.
  method ShowGroup(rows: seq<Row>, key: string, group: seq<Row>, before: map<string, Display>)
      returns (result: map<string, Display>)
    requires DistinctIds(rows) && group == GroupOf(rows, key)
    requires forall row | row in rows :: row.id in before
    requires forall row | row in rows && Key(row) == Some(key) :: before[row.id] == Display(None, row.name)
    ensures result.Keys == before.Keys
    ensures forall row | row in rows ::
      result[row.id] == if Key(row) == Some(key) then Shown(rows, row) else before[row.id]
  {
    GroupMembers(rows, key);
    result := before;
    var name := GroupName(group);
    if name.None? { return; }
    var prefix := name.value + ": ";
    for i := 0 to |group|
      invariant result.Keys == before.Keys
      invariant NamedSoFar(rows, group, i, before, result)
    {
      var row := group[i];
      NamePrefixes(group, row);
      NamesOneMore(rows, group, i, before, result);
      result := result[row.id := Display(name, row.name[|prefix|..])];
    }
    assert group[..|group|] == group;
  }

  predicate HasId(rows: seq<Row>, id: string) {
    exists i | 0 <= i < |rows| :: rows[i].id == id
  }

  method WholeNames(rows: seq<Row>) returns (result: map<string, Display>)
    requires DistinctIds(rows)
    ensures forall id :: id in result <==> HasId(rows, id)
    ensures forall row | row in rows :: row.id in result && result[row.id] == Display(None, row.name)
  {
    result := map[];
    for i := 0 to |rows|
      invariant forall id :: id in result <==> HasId(rows[..i], id)
      invariant forall k | 0 <= k < i :: rows[k].id in result && result[rows[k].id] == Display(None, rows[k].name)
    {
      forall id
        ensures HasId(rows[..i + 1], id) <==> HasId(rows[..i], id) || rows[i].id == id
      {
        HasIdMore(rows, i, id);
      }
      result := result[rows[i].id := Display(None, rows[i].name)];
    }
    assert rows[..|rows|] == rows;
  }

  // The rows of each chain together, in order of arrival.
  method GroupRows(rows: seq<Row>) returns (grouped: map<string, seq<Row>>)
    ensures forall key :: key in grouped <==> GroupOf(rows, key) != []
    ensures forall key | key in grouped :: grouped[key] == GroupOf(rows, key)
  {
    grouped := map[];
    for i := 0 to |rows|
      invariant forall key :: key in grouped <==> GroupOf(rows[..i], key) != []
      invariant forall key | key in grouped :: grouped[key] == GroupOf(rows[..i], key)
    {
      assert rows[..i + 1][..i] == rows[..i];
      var key := Key(rows[i]);
      if key.Some? {
        grouped := grouped[key.value := (if key.value in grouped then grouped[key.value] else []) + [rows[i]]];
      }
    }
    assert rows[..|rows|] == rows;
  }

  lemma HasIdMore(rows: seq<Row>, i: nat, id: string)
    requires i < |rows|
    ensures HasId(rows[..i + 1], id) <==> HasId(rows[..i], id) || rows[i].id == id
  {
    if HasId(rows[..i], id) {
      var k :| 0 <= k < i && rows[..i][k].id == id;
      assert rows[..i + 1][k].id == id;
    }
    if rows[i].id == id { assert rows[..i + 1][i].id == id; }
  }

  // Shown in full until its chain has been named.
  function ShownSoFar(rows: seq<Row>, row: Row, waiting: set<string>): Display {
    if Key(row).Some? && Key(row).value !in waiting then Shown(rows, row) else Display(None, row.name)
  }

  method ChainDisplayByTask(rows: seq<Row>) returns (result: map<string, Display>)
    requires DistinctIds(rows)
    ensures forall id :: id in result <==> HasId(rows, id)
    ensures forall row | row in rows :: row.id in result && result[row.id] == Shown(rows, row)
  {
    result := WholeNames(rows);
    var grouped := GroupRows(rows);
    forall row | row in rows && Key(row).Some?
      ensures Key(row).value in grouped
    {
      GroupMembers(rows, Key(row).value);
    }
    var keys := grouped.Keys;
    while keys != {}
      invariant keys <= grouped.Keys
      invariant forall id :: id in result <==> HasId(rows, id)
      invariant forall row | row in rows :: row.id in result && result[row.id] == ShownSoFar(rows, row, keys)
      decreases |keys|
    {
      var key :| key in keys;
      result := ShowGroup(rows, key, grouped[key], result);
      keys := keys - {key};
    }
  }
}
