// Classifying the checks reported on a pull request's head, and the fingerprint
// of the failing ones.
module HeadChecks {
  import opened Prelude
  import opened Ordering

  datatype Context =
    | CheckRunContext(name: string, status: string, conclusion: Option<string>, detailsUrl: Option<string>)
    | StatusCheckContext(context: string, state: Option<string>)
    | UnknownContext

  datatype CheckKind = CheckRun | StatusContext

  datatype Check = Check(kind: CheckKind, name: string, conclusion: string, detailsUrl: Option<string>)

  datatype Snapshot = Snapshot(headRefOid: Option<string>, headCommitOid: Option<string>, checksComplete: bool,
      contexts: seq<Context>)

  type Pair = (string, string)

  datatype Classification = Failed(checks: seq<Check>, fingerprint: seq<Pair>) | NoFailure | Unavailable

  const FAILED_CONCLUSIONS := {"FAILURE", "TIMED_OUT", "CANCELLED", "ACTION_REQUIRED", "STARTUP_FAILURE"}
  const PASSED_CONCLUSIONS := {"SUCCESS", "NEUTRAL", "SKIPPED"}
  const QUIET_STATES := {"SUCCESS", "PENDING", "EXPECTED"}

  datatype Reading = Quiet | Fails(check: Check) | Unreadable

  function TextOf(text: Option<string>): string {
    if text.Some? then text.value else ""
  }

  function ReadContext(context: Context): Reading {
    match context
    case CheckRunContext(name, status, conclusion, detailsUrl) =>
      if status != "COMPLETED" then Quiet
      else if TextOf(conclusion) in FAILED_CONCLUSIONS then Fails(Check(CheckRun, name, TextOf(conclusion), detailsUrl))
      else if TextOf(conclusion) in PASSED_CONCLUSIONS then Quiet
      else Unreadable
    case StatusCheckContext(name, state) =>
      if TextOf(state) == "FAILURE" || TextOf(state) == "ERROR"
      then Fails(Check(StatusContext, name, TextOf(state), None))
      else if TextOf(state) in QUIET_STATES then Quiet
      else Unreadable
    case UnknownContext => Unreadable
  }

  function Failing(contexts: seq<Context>): seq<Check> {
    if contexts == [] then []
    else
      var last := ReadContext(contexts[|contexts| - 1]);
      Failing(contexts[..|contexts| - 1]) + (if last.Fails? then [last.check] else [])
  }

  predicate AllReadable(contexts: seq<Context>) {
    forall i | 0 <= i < |contexts| :: !ReadContext(contexts[i]).Unreadable?
  }

  /* ------------------------------ the order ------------------------------ */

  // How the runtime's locale compares two texts: not after. Distinct texts may
  // compare equal.
  type Collation = (string, string) -> bool

  predicate CheckNotAfter(le: Collation, a: Check, b: Check) {
    !le(b.name, a.name) || (le(a.name, b.name) && le(a.conclusion, b.conclusion))
  }

  function ByName(le: Collation): (Check, Check) -> bool {
    (a: Check, b: Check) => CheckNotAfter(le, a, b)
  }

  function PairOf(check: Check): Pair {
    (check.name, check.conclusion)
  }

  function Pairs(checks: seq<Check>): seq<Pair> {
    if checks == [] then [] else [PairOf(checks[0])] + Pairs(checks[1..])
  }

  function Fingerprint(le: Collation, checks: seq<Check>): seq<Pair> {
    Pairs(Sort(ByName(le), checks))
  }

  predicate BoundToHead(snapshot: Snapshot, head: string) {
    snapshot.headRefOid == Some(head) && snapshot.headCommitOid == Some(head) && snapshot.checksComplete
  }

  function Classified(le: Collation, snapshot: Snapshot, head: string): Classification {
    if !BoundToHead(snapshot, head) || !AllReadable(snapshot.contexts) then Unavailable
    else if Failing(snapshot.contexts) == [] then NoFailure
    else
      var checks := Sort(ByName(le), Failing(snapshot.contexts));
      Failed(checks, Pairs(checks))
  }

  /* ------------------------- which contexts fail ------------------------- */

  // The failure one context reports, said of its texts alone: a completed check
  // run that went wrong, or a status in a failing state.
  predicate Reports(context: Context, check: Check) {
    match context
    case CheckRunContext(name, status, conclusion, detailsUrl) =>
      && status == "COMPLETED" && conclusion == Some(check.conclusion)
      && check.conclusion in {"FAILURE", "TIMED_OUT", "CANCELLED", "ACTION_REQUIRED", "STARTUP_FAILURE"}
      && check.kind == CheckRun && check.name == name && check.detailsUrl == detailsUrl
    case StatusCheckContext(name, state) =>
      && state == Some(check.conclusion) && check.conclusion in {"FAILURE", "ERROR"}
      && check.kind == StatusContext && check.name == name && check.detailsUrl == None
    case UnknownContext => false
  }

  // A context of an unknown kind, a completed run with an unknown conclusion, or
  // a status in an unknown state.
  predicate Baffling(context: Context) {
    match context
    case CheckRunContext(_, status, conclusion, _) =>
      && status == "COMPLETED"
      && conclusion !in {Some("FAILURE"), Some("TIMED_OUT"), Some("CANCELLED"), Some("ACTION_REQUIRED"),
                         Some("STARTUP_FAILURE"), Some("SUCCESS"), Some("NEUTRAL"), Some("SKIPPED")}
    case StatusCheckContext(_, state) =>
      state !in {Some("FAILURE"), Some("ERROR"), Some("SUCCESS"), Some("PENDING"), Some("EXPECTED")}
    case UnknownContext => true
  }

  lemma BlankIsNone()
    ensures "" !in FAILED_CONCLUSIONS && "" !in PASSED_CONCLUSIONS && "" !in QUIET_STATES
    ensures "" != "FAILURE" && "" != "ERROR"
  {
    assert forall text | text in FAILED_CONCLUSIONS + PASSED_CONCLUSIONS + QUIET_STATES :: |text| > 0;
  }

  lemma ReadMeans(context: Context, check: Check)
    ensures ReadContext(context) == Fails(check) <==> Reports(context, check)
    ensures ReadContext(context).Unreadable? <==> Baffling(context)
  {
    BlankIsNone();
    if context.CheckRunContext? {
      RunMeans(context, check);
    } else if context.StatusCheckContext? {
      StatusMeans(context, check);
    }
  }

  lemma RunMeans(context: Context, check: Check)
    requires context.CheckRunContext? && "" !in FAILED_CONCLUSIONS && "" !in PASSED_CONCLUSIONS
    ensures ReadContext(context) == Fails(check) <==> Reports(context, check)
    ensures ReadContext(context).Unreadable? <==> Baffling(context)
  {
    Apart();
  }

  lemma StatusMeans(context: Context, check: Check)
    requires context.StatusCheckContext? && "" !in QUIET_STATES && "" != "FAILURE" && "" != "ERROR"
    ensures ReadContext(context) == Fails(check) <==> Reports(context, check)
    ensures ReadContext(context).Unreadable? <==> Baffling(context)
  {
  }

  lemma Apart()
    ensures FAILED_CONCLUSIONS !! PASSED_CONCLUSIONS
  {
    assert |"FAILURE"| == 7 && |"TIMED_OUT"| == 9 && |"CANCELLED"| == 9 && |"ACTION_REQUIRED"| == 15;
    assert |"STARTUP_FAILURE"| == 15 && "SUCCESS"[0] == 'S' && "FAILURE"[0] == 'F' && |"NEUTRAL"| == 7;
    assert "NEUTRAL"[0] == 'N' && "SKIPPED"[1] == 'K' && "SUCCESS"[1] == 'U' && "SKIPPED"[0] == 'S';
  }

  // How many of the contexts report this failure.
  function TimesReported(contexts: seq<Context>, check: Check): nat {
    |PlacesReporting(contexts, check)|
  }

  function PlacesReporting(contexts: seq<Context>, check: Check): set<int> {
    set i | 0 <= i < |contexts| && Reports(contexts[i], check)
  }

  lemma FailingMore(contexts: seq<Context>, context: Context, check: Check)
    ensures multiset(Failing(contexts + [context]))[check]
            == multiset(Failing(contexts))[check] + (if Reports(context, check) then 1 else 0)
  {
    var more := contexts + [context];
    assert more[..|more| - 1] == contexts;
    ReadMeans(context, check);
    var last := ReadContext(context);
    var extra := if last.Fails? then [last.check] else [];
    assert multiset(extra)[check] == if Reports(context, check) then 1 else 0;
    assert multiset(Failing(contexts) + extra) == multiset(Failing(contexts)) + multiset(extra);
  }

  lemma {:induction false} FailingTimes(contexts: seq<Context>, check: Check)
    ensures multiset(Failing(contexts))[check] == TimesReported(contexts, check)
  {
    if contexts == [] {
      NoTimes(check);
    } else {
      var front, last := contexts[..|contexts| - 1], contexts[|contexts| - 1];
      FailingTimes(front, check);
      FailingMore(front, last, check);
      TimesMore(front, last, check);
      assert contexts == front + [last];
    }
  }

  lemma NoTimes(check: Check)
    ensures TimesReported([], check) == 0
  {
    assert PlacesReporting([], check) == {};
  }

  lemma ReportedCounts(contexts: seq<Context>, i: nat, check: Check)
    requires i < |contexts| && Reports(contexts[i], check)
    ensures TimesReported(contexts, check) > 0
  {
    assert i in PlacesReporting(contexts, check);
  }

  lemma TimesMore(contexts: seq<Context>, context: Context, check: Check)
    ensures TimesReported(contexts + [context], check)
            == TimesReported(contexts, check) + (if Reports(context, check) then 1 else 0)
  {
    var more := contexts + [context];
    assert forall i | 0 <= i < |contexts| :: more[i] == contexts[i];
    assert PlacesReporting(more, check)
        == PlacesReporting(contexts, check) + (if Reports(context, check) then {|contexts|} else {});
  }

  lemma ReadableIff(contexts: seq<Context>)
    ensures AllReadable(contexts) <==> forall i | 0 <= i < |contexts| :: !Baffling(contexts[i])
  {
    forall i | 0 <= i < |contexts|
      ensures ReadContext(contexts[i]).Unreadable? <==> Baffling(contexts[i])
    {
      ReadMeans(contexts[i], Check(CheckRun, "", "", None));
    }
  }

  // Unavailable exactly when the rollup is not the head's, or not complete, or
  // holds a context nobody can read. Otherwise every failure a context reports is
  // in the answer, each as often, and nothing else; in the locale's order of
  // names, then of conclusions.
  method ClassifyHeadCheckFailures(le: Collation, snapshot: Snapshot, head: string) returns (result: Classification)
    ensures result == Classified(le, snapshot, head)
    ensures result.Unavailable? <==>
      || snapshot.headRefOid != Some(head) || snapshot.headCommitOid != Some(head) || !snapshot.checksComplete
      || exists i | 0 <= i < |snapshot.contexts| :: Baffling(snapshot.contexts[i])
    ensures result.NoFailure? ==>
      forall i, check | 0 <= i < |snapshot.contexts| :: !Reports(snapshot.contexts[i], check)
    ensures result.Failed? ==> result.checks != [] && |result.fingerprint| == |result.checks|
    ensures result.Failed? ==> forall i | 0 <= i < |result.checks| ::
      result.fingerprint[i] == (result.checks[i].name, result.checks[i].conclusion)
    ensures result.Failed? ==>
      forall check :: multiset(result.checks)[check] == TimesReported(snapshot.contexts, check)
    ensures result.Failed? && Total(le) ==>
      forall i, j | 0 <= i < j < |result.checks| ::
        le(result.checks[i].name, result.checks[j].name)
        && (le(result.checks[j].name, result.checks[i].name) ==>
            le(result.checks[i].conclusion, result.checks[j].conclusion))
  {
    if snapshot.headRefOid != Some(head) || snapshot.headCommitOid != Some(head) { return Unavailable; }
    if !snapshot.checksComplete { return Unavailable; }
    ReadableIff(snapshot.contexts);
    var readable, checks := CollectFailing(snapshot.contexts);
    if !readable { return Unavailable; }
    if |checks| == 0 {
      NothingReported(snapshot.contexts);
      return NoFailure;
    }
    SortedByName(le, checks);
    forall check
      ensures multiset(checks)[check] == TimesReported(snapshot.contexts, check)
    {
      FailingTimes(snapshot.contexts, check);
    }
    checks := Sort(ByName(le), checks);
    PairsAt(checks);
    result := Failed(checks, Pairs(checks));
  }

  lemma NothingReported(contexts: seq<Context>)
    requires Failing(contexts) == []
    ensures forall i, check | 0 <= i < |contexts| :: !Reports(contexts[i], check)
  {
    forall i, check | 0 <= i < |contexts|
      ensures !Reports(contexts[i], check)
    {
      FailingTimes(contexts, check);
      if Reports(contexts[i], check) { ReportedCounts(contexts, i, check); }
    }
  }

  lemma SortedByName(le: Collation, checks: seq<Check>)
    requires checks != []
    ensures var sorted := Sort(ByName(le), checks);
            && sorted != [] && multiset(sorted) == multiset(checks)
            && (Total(le) ==> forall i, j | 0 <= i < j < |sorted| ::
                  le(sorted[i].name, sorted[j].name)
                  && (le(sorted[j].name, sorted[i].name) ==> le(sorted[i].conclusion, sorted[j].conclusion)))
  {
    var sorted := Sort(ByName(le), checks);
    SortSorts(ByName(le), checks);
    assert |multiset(checks)| == |checks| && |multiset(sorted)| == |sorted|;
    if Total(le) {
      NameOrderTotal(le);
      forall i, j | 0 <= i < j < |sorted|
        ensures le(sorted[i].name, sorted[j].name)
        ensures le(sorted[j].name, sorted[i].name) ==> le(sorted[i].conclusion, sorted[j].conclusion)
      {
        assert ByName(le)(sorted[i], sorted[j]);
        assert CheckNotAfter(le, sorted[i], sorted[j]);
      }
    }
  }

  lemma NameOrderTotal(le: Collation)
    requires Total(le)
    ensures Total(ByName(le))
  {
    var order := ByName(le);
    forall a, b
      ensures order(a, b) || order(b, a)
    {
      assert CheckNotAfter(le, a, b) || CheckNotAfter(le, b, a);
    }
    forall a, b, c | order(a, b) && order(b, c)
      ensures order(a, c)
    {
      assert CheckNotAfter(le, a, b) && CheckNotAfter(le, b, c);
      ThroughMiddle(le, a, b, c);
    }
  }

  lemma ThroughMiddle(le: Collation, a: Check, b: Check, c: Check)
    requires Total(le) && CheckNotAfter(le, a, b) && CheckNotAfter(le, b, c)
    ensures CheckNotAfter(le, a, c)
  {
    if le(c.name, a.name) {
      assert le(a.name, b.name) && le(b.name, c.name);
      assert le(c.name, b.name) && le(b.name, a.name);
    }
  }

  // The failing checks in order, up to the first context that cannot be read.
  method CollectFailing(contexts: seq<Context>) returns (readable: bool, checks: seq<Check>)
    ensures readable == AllReadable(contexts)
    ensures readable ==> checks == Failing(contexts)
  {
    checks := [];
    for i := 0 to |contexts|
      invariant AllReadable(contexts[..i])
      invariant checks == Failing(contexts[..i])
    {
      var reading := ReadContext(contexts[i]);
      assert contexts[..i + 1][..i] == contexts[..i];
      if reading.Unreadable? { return false, []; }
      if reading.Fails? { checks := checks + [reading.check]; }
    }
    assert contexts[..|contexts|] == contexts;
    readable := true;
  }

  /* --------------------------- order of arrival -------------------------- */

  // What kind of answer there is does not depend on the order of the contexts.
  lemma KindOrderIndependent(contexts: seq<Context>, others: seq<Context>)
    requires multiset(contexts) == multiset(others)
    ensures AllReadable(contexts) == AllReadable(others)
    ensures Failing(contexts) == [] <==> Failing(others) == []
    ensures multiset(Failing(contexts)) == multiset(Failing(others))
  {
    SameContexts(contexts, others);
    SameContexts(others, contexts);
    FailingPermutes(contexts, others);
    assert |multiset(Failing(contexts))| == |Failing(contexts)| && |multiset(Failing(others))| == |Failing(others)|;
  }

  lemma SameContexts(contexts: seq<Context>, others: seq<Context>)
    requires multiset(contexts) == multiset(others)
    ensures AllReadable(contexts) ==> AllReadable(others)
  {
    forall i | AllReadable(contexts) && 0 <= i < |others|
      ensures !ReadContext(others[i]).Unreadable?
    {
      assert others[i] in multiset(others);
      var j :| 0 <= j < |contexts| && contexts[j] == others[i];
    }
  }

  lemma {:induction false} FailingConcat(front: seq<Context>, back: seq<Context>)
    ensures Failing(front + back) == Failing(front) + Failing(back)
  {
    if back == [] {
      assert front + [] == front;
    } else {
      var n := |back| - 1;
      FailingConcat(front, back[..n]);
      assert (front + back)[..|front + back| - 1] == front + back[..n];
    }
  }

  lemma FailingSplit(front: seq<Context>, middle: seq<Context>, back: seq<Context>)
    ensures Failing(front + middle + back) == Failing(front) + Failing(middle) + Failing(back)
  {
    FailingConcat(front, middle);
    FailingConcat(front + middle, back);
  }

  // Taking contexts out takes out what they contributed.
  lemma FailingDrop(front: seq<Context>, middle: seq<Context>, back: seq<Context>)
    ensures multiset(Failing(front + middle + back)) == multiset(Failing(front + back)) + multiset(Failing(middle))
  {
    FailingSplit(front, middle, back);
    FailingConcat(front, back);
    MiddleOut(Failing(front), Failing(middle), Failing(back));
  }

  lemma FailingWithout(contexts: seq<Context>, i: nat)
    requires i < |contexts|
    ensures multiset(Failing(contexts)) == multiset(Failing(Without(contexts, i))) + multiset(Failing([contexts[i]]))
  {
    TakenApart(contexts, i);
    FailingDrop(contexts[..i], [contexts[i]], contexts[i + 1..]);
  }

  lemma {:induction false} FailingPermutes(contexts: seq<Context>, others: seq<Context>)
    requires multiset(contexts) == multiset(others)
    ensures multiset(Failing(contexts)) == multiset(Failing(others))
    decreases |contexts|
  {
    assert |multiset(contexts)| == |contexts| && |multiset(others)| == |others|;
    if contexts != [] {
      assert contexts[0] in multiset(others);
      var i :| 0 <= i < |others| && others[i] == contexts[0];
      WithoutOne(contexts, 0);
      WithoutOne(others, i);
      FailingPermutes(Without(contexts, 0), Without(others, i));
      FailingWithout(contexts, 0);
      FailingWithout(others, i);
    }
  }

  /* ---------------------------- the fingerprint -------------------------- */

  lemma {:induction false} PairsAt(checks: seq<Check>)
    ensures |Pairs(checks)| == |checks| && forall i | 0 <= i < |checks| :: Pairs(checks)[i] == PairOf(checks[i])
  {
    if checks != [] { PairsAt(checks[1..]); }
  }

  lemma PairsConcat(front: seq<Check>, back: seq<Check>)
    ensures Pairs(front + back) == Pairs(front) + Pairs(back)
  {
    PairsAt(front);
    PairsAt(back);
    PairsAt(front + back);
  }

  lemma PairsSplit(front: seq<Check>, middle: seq<Check>, back: seq<Check>)
    ensures Pairs(front + middle + back) == Pairs(front) + Pairs(middle) + Pairs(back)
  {
    PairsConcat(front, middle);
    PairsConcat(front + middle, back);
  }

  lemma PairsDrop(front: seq<Check>, middle: seq<Check>, back: seq<Check>)
    ensures multiset(Pairs(front + middle + back)) == multiset(Pairs(front + back)) + multiset(Pairs(middle))
  {
    PairsSplit(front, middle, back);
    PairsConcat(front, back);
    MiddleOut(Pairs(front), Pairs(middle), Pairs(back));
  }

  lemma PairsWithout(checks: seq<Check>, i: nat)
    requires i < |checks|
    ensures multiset(Pairs(checks)) == multiset(Pairs(Without(checks, i))) + multiset(Pairs([checks[i]]))
  {
    TakenApart(checks, i);
    PairsDrop(checks[..i], [checks[i]], checks[i + 1..]);
  }

  lemma {:induction false} PairsPermute(a: seq<Check>, b: seq<Check>)
    requires multiset(a) == multiset(b)
    ensures multiset(Pairs(a)) == multiset(Pairs(b))
    decreases |a|
  {
    assert |multiset(a)| == |a| && |multiset(b)| == |b|;
    if a != [] {
      assert a[0] in multiset(b);
      var i :| 0 <= i < |b| && b[i] == a[0];
      WithoutOne(a, 0);
      WithoutOne(b, i);
      PairsPermute(Without(a, 0), Without(b, i));
      PairsWithout(a, 0);
      PairsWithout(b, i);
    }
  }

  lemma FingerprintHolds(le: Collation, checks: seq<Check>)
    ensures multiset(Fingerprint(le, checks)) == multiset(Pairs(checks))
  {
    SortSorts(ByName(le), checks);
    PairsPermute(Sort(ByName(le), checks), checks);
  }

  // Equal fingerprints always mean the same failing (name, conclusion) pairs.
  lemma EqualFingerprintsEqualFailures(le: Collation, a: seq<Check>, b: seq<Check>)
    requires Fingerprint(le, a) == Fingerprint(le, b)
    ensures multiset(Pairs(a)) == multiset(Pairs(b))
  {
    FingerprintHolds(le, a);
    FingerprintHolds(le, b);
  }

  predicate PairNotAfter(le: Collation, a: Pair, b: Pair) {
    !le(b.0, a.0) || (le(a.0, b.0) && le(a.1, b.1))
  }

  function ByPair(le: Collation): (Pair, Pair) -> bool {
    (a: Pair, b: Pair) => PairNotAfter(le, a, b)
  }

  lemma PairOrderTotal(le: Collation)
    requires Total(le)
    ensures Total(ByPair(le))
  {
    var order := ByPair(le);
    forall a: Pair, b: Pair
      ensures order(a, b) || order(b, a)
    {
      assert le(a.0, b.0) || le(b.0, a.0);
      assert le(a.1, b.1) || le(b.1, a.1);
    }
    forall a: Pair, b: Pair, c: Pair | order(a, b) && order(b, c)
      ensures order(a, c)
    {
      PairTransitive(le, a, b, c);
    }
  }

  lemma PairTransitive(le: Collation, a: Pair, b: Pair, c: Pair)
    requires Total(le) && PairNotAfter(le, a, b) && PairNotAfter(le, b, c)
    ensures PairNotAfter(le, a, c)
  {
    assert le(a.0, b.0) || le(b.0, a.0);
    assert le(b.0, c.0) || le(c.0, b.0);
    assert le(a.0, c.0) || le(c.0, a.0);
  }

  lemma {:induction false} InsertPair(le: Collation, check: Check, checks: seq<Check>)
    ensures Pairs(Insert(ByName(le), check, checks)) == Insert(ByPair(le), PairOf(check), Pairs(checks))
  {
    if checks != [] {
      if CheckNotAfter(le, check, checks[0]) {
        assert ([check] + checks)[1..] == checks;
      } else {
        InsertPair(le, check, checks[1..]);
        var rest := Insert(ByName(le), check, checks[1..]);
        assert ([checks[0]] + rest)[1..] == rest;
      }
    }
  }

  // The fingerprint is the sorted list of pairs.
  lemma {:induction false} FingerprintSortsPairs(le: Collation, checks: seq<Check>)
    ensures Fingerprint(le, checks) == Sort(ByPair(le), Pairs(checks))
  {
    if checks != [] {
      FingerprintSortsPairs(le, checks[1..]);
      InsertPair(le, checks[0], Sort(ByName(le), checks[1..]));
    }
  }

  /* ------------- the same failures, in whatever order, or not ------------- */

  predicate Ties(le: Collation, a: Pair, b: Pair) {
    PairNotAfter(le, a, b) && PairNotAfter(le, b, a)
  }

  // The pairs that compare equal to `pivot`, in order.
  function TiesOf(le: Collation, pivot: Pair, pairs: seq<Pair>): seq<Pair> {
    if pairs == [] then [] else (if Ties(le, pivot, pairs[0]) then [pairs[0]] else []) + TiesOf(le, pivot, pairs[1..])
  }

  lemma {:induction false} InsertStable(le: Collation, pivot: Pair, pair: Pair, pairs: seq<Pair>)
    requires Total(le)
    ensures TiesOf(le, pivot, Insert(ByPair(le), pair, pairs))
            == (if Ties(le, pivot, pair) then [pair] else []) + TiesOf(le, pivot, pairs)
  {
    if pairs == [] || PairNotAfter(le, pair, pairs[0]) {
      assert ([pair] + pairs)[1..] == pairs;
    } else {
      InsertStable(le, pivot, pair, pairs[1..]);
      var rest := Insert(ByPair(le), pair, pairs[1..]);
      assert ([pairs[0]] + rest)[1..] == rest;
      if Ties(le, pivot, pair) && Ties(le, pivot, pairs[0]) {
        PairTransitive(le, pair, pivot, pairs[0]);
      }
    }
  }

  // Pairs that compare equal keep their order of arrival.
  lemma {:induction false} SortStable(le: Collation, pivot: Pair, pairs: seq<Pair>)
    requires Total(le)
    ensures TiesOf(le, pivot, Sort(ByPair(le), pairs)) == TiesOf(le, pivot, pairs)
  {
    if pairs != [] {
      SortStable(le, pivot, pairs[1..]);
      InsertStable(le, pivot, pairs[0], Sort(ByPair(le), pairs[1..]));
    }
  }

  ghost predicate ToldApart(le: Collation, pairs: seq<Pair>) {
    forall a, b | a in pairs && b in pairs && Ties(le, a, b) :: a == b
  }

  ghost predicate OrderFree(le: Collation, pairs: seq<Pair>) {
    forall others: seq<Pair> | multiset(others) == multiset(pairs) ::
        Sort(ByPair(le), others) == Sort(ByPair(le), pairs)
  }

  // The same failing pairs give the same fingerprint in every order of arrival
  // exactly when the locale tells all of them apart.
  lemma FingerprintOrderFreeIff(le: Collation, pairs: seq<Pair>)
    requires Total(le)
    ensures OrderFree(le, pairs) <==> ToldApart(le, pairs)
  {
    PairOrderTotal(le);
    if ToldApart(le, pairs) {
      assert NoTies(ByPair(le), pairs);
      forall others: seq<Pair> | multiset(others) == multiset(pairs)
        ensures Sort(ByPair(le), others) == Sort(ByPair(le), pairs)
      {
        SortOrderIndependent(ByPair(le), pairs, others);
      }
    } else {
      var a, b :| a in pairs && b in pairs && Ties(le, a, b) && a != b;
      TiesDepend(le, pairs, a, b);
    }
  }

  lemma TiesDepend(le: Collation, pairs: seq<Pair>, a: Pair, b: Pair)
    requires Total(le) && a in pairs && b in pairs && Ties(le, a, b) && a != b
    ensures !OrderFree(le, pairs)
  {
    var rest := MovedFront(pairs, a, b);
    SortStable(le, a, [a] + [b] + rest);
    SortStable(le, a, [b] + [a] + rest);
    assert le(a.0, a.0) && le(a.1, a.1);
    StartsWithTie(le, a, a, [b] + rest);
    StartsWithTie(le, a, b, [a] + rest);
    assert [a] + [b] + rest == [a] + ([b] + rest) && [b] + [a] + rest == [b] + ([a] + rest);
    var order := ByPair(le);
    assert Sort(order, [a] + [b] + rest) != Sort(order, [b] + [a] + rest);
  }

  lemma StartsWithTie(le: Collation, pivot: Pair, first: Pair, rest: seq<Pair>)
    requires Ties(le, pivot, first)
    ensures TiesOf(le, pivot, [first] + rest) != [] && TiesOf(le, pivot, [first] + rest)[0] == first
  {
  }

  lemma MovedFront(pairs: seq<Pair>, a: Pair, b: Pair) returns (rest: seq<Pair>)
    requires a in pairs && b in pairs && a != b
    ensures multiset([a] + [b] + rest) == multiset(pairs) && multiset([b] + [a] + rest) == multiset(pairs)
  {
    var i :| 0 <= i < |pairs| && pairs[i] == a;
    var others := Without(pairs, i);
    WithoutOne(pairs, i);
    assert b in multiset(others);
    var j :| 0 <= j < |others| && others[j] == b;
    rest := Without(others, j);
    WithoutOne(others, j);
    PutBack(multiset(pairs), a, b, rest);
  }

  lemma PutBack(all: multiset<Pair>, a: Pair, b: Pair, rest: seq<Pair>)
    requires a in all && b in all - multiset{a} && multiset(rest) == all - multiset{a} - multiset{b}
    ensures multiset([a] + [b] + rest) == all && multiset([b] + [a] + rest) == all
  {
    assert multiset([a] + [b] + rest) == multiset{a} + multiset{b} + multiset(rest);
    assert multiset([b] + [a] + rest) == multiset{a} + multiset{b} + multiset(rest);
  }

  // Two snapshots with the same failing pairs, none of which the locale
  // confuses, have equal fingerprints; and only such snapshots do.
  lemma FingerprintsEqualIff(le: Collation, a: seq<Check>, b: seq<Check>)
    requires Total(le)
    requires ToldApart(le, Pairs(a))
    ensures Fingerprint(le, a) == Fingerprint(le, b) <==> multiset(Pairs(a)) == multiset(Pairs(b))
  {
    FingerprintSortsPairs(le, a);
    FingerprintSortsPairs(le, b);
    FingerprintOrderFreeIff(le, Pairs(a));
    if Fingerprint(le, a) == Fingerprint(le, b) { EqualFingerprintsEqualFailures(le, a, b); }
  }

  // Rearranging a snapshot's contexts never changes the kind of answer; nor the
  // fingerprint, when the locale tells the failing pairs apart.
  lemma AnswerOrderIndependent(le: Collation, snapshot: Snapshot, contexts: seq<Context>, head: string)
    requires Total(le) && multiset(snapshot.contexts) == multiset(contexts)
    ensures var a, b := Classified(le, snapshot, head), Classified(le, snapshot.(contexts := contexts), head);
      && (a.Unavailable? <==> b.Unavailable?) && (a.NoFailure? <==> b.NoFailure?)
      && (a.Failed? && ToldApart(le, Pairs(Failing(snapshot.contexts))) ==> a.fingerprint == b.fingerprint)
  {
    KindOrderIndependent(snapshot.contexts, contexts);
    if Classified(le, snapshot, head).Failed? && ToldApart(le, Pairs(Failing(snapshot.contexts))) {
      PairsPermute(Failing(snapshot.contexts), Failing(contexts));
      FailedAnswersAgreeIff(le, snapshot, snapshot.(contexts := contexts), head, head);
    }
  }

  // Two failed answers have one fingerprint exactly when the same pairs failed,
  // each as often.
  lemma FailedAnswersAgreeIff(le: Collation, snapshot: Snapshot, other: Snapshot, head: string, otherHead: string)
    requires Total(le) && ToldApart(le, Pairs(Failing(snapshot.contexts)))
    requires Classified(le, snapshot, head).Failed? && Classified(le, other, otherHead).Failed?
    ensures Classified(le, snapshot, head).fingerprint == Classified(le, other, otherHead).fingerprint
            <==> multiset(Pairs(Failing(snapshot.contexts))) == multiset(Pairs(Failing(other.contexts)))
  {
    FingerprintsEqualIff(le, Failing(snapshot.contexts), Failing(other.contexts));
    assert Classified(le, snapshot, head).fingerprint == Fingerprint(le, Failing(snapshot.contexts));
    assert Classified(le, other, otherHead).fingerprint == Fingerprint(le, Failing(other.contexts));
  }
}
