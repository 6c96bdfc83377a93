// Output kinds of template steps, as text, and the role each one plays.
module StepKinds {
  import opened Prelude

  datatype StepRole =
    | Spec | Revalidation | Plan | PlanReview | RevisedPlan
    | MustFix | Implementation | ReviewFindings | BlindFindings | FixedImplementation
    | Documentation | Regression | Readiness | Integrator

  const MUST_FIX := "must-fix"
  const FIXED_IMPLEMENTATION := "fixed-implementation"
  const RETIRED_KIND := "sol-findings"

  function RoleOfBareKind(kind: string): Option<StepRole> {
    if kind == "spec" then Some(Spec)
    else if kind == "revalidation" then Some(Revalidation)
    else if kind == "plan" then Some(Plan)
    else if kind == "plan-review" then Some(PlanReview)
    else if kind == "revised-plan" then Some(RevisedPlan)
    else if kind == MUST_FIX then Some(MustFix)
    else if kind == "implementation" then Some(Implementation)
    else if kind == "review-findings" then Some(ReviewFindings)
    else if kind == "blind-findings" then Some(BlindFindings)
    else if kind == FIXED_IMPLEMENTATION then Some(FixedImplementation)
    else if kind == "documentation" then Some(Documentation)
    else if kind == "regression-verification" then Some(Regression)
    else if kind == "merge-authorization" then Some(Readiness)
    else if kind == "merge-result" then Some(Integrator)
    else None
  }

  predicate IsVersion(text: string) {
    |text| >= 2 && text[0] == 'v' && '1' <= text[1] <= '9' && forall i | 2 <= i < |text| :: '0' <= text[i] <= '9'
  }

  // Where the part after the last '-' starts, if there is a '-'.
  function AfterLastDash(text: string): (start: Option<nat>)
    ensures start.Some? ==> 1 <= start.value <= |text| && text[start.value - 1] == '-' && '-' !in text[start.value..]
    ensures start.None? ==> '-' !in text
  {
    if text == [] then None
    else if text[|text| - 1] == '-' then Some(|text|)
    else
      var rest := AfterLastDash(text[..|text| - 1]);
      assert rest.Some? ==> text[rest.value..] == text[..|text| - 1][rest.value..] + [text[|text| - 1]];
      rest
  }

  // The kind without its "-vN" suffix, N a positive number without leading zeros.
  function Normalized(kind: string): string {
    var start := AfterLastDash(kind);
    if start.Some? && IsVersion(kind[start.value..]) then kind[..start.value - 1] else kind
  }

  function RoleOf(kind: string): Option<StepRole> {
    RoleOfBareKind(Normalized(kind))
  }

  // The protocol version of a kind; a retained template may read bare
  // revalidation as "v1" instead.
  function GenerationOf(kind: string): string {
    var start := AfterLastDash(kind);
    if kind == "revalidation" then "v2"
    else if start.Some? && IsVersion(kind[start.value..]) then kind[start.value..]
    else "v1"
  }

  // Whether the registry holds a contract for the kind's role and generation.
  predicate HasContract(kind: string) {
    match RoleOf(kind)
    case None => false
    case Some(Readiness) => false
    case Some(Integrator) => false
    case Some(Regression) => GenerationOf(kind) == "v1" || GenerationOf(kind) == "v2" || GenerationOf(kind) == "v3"
    case Some(Revalidation) => GenerationOf(kind) == "v1" || GenerationOf(kind) == "v2"
    case Some(_) => GenerationOf(kind) == "v1"
  }

  predicate CanonicalAgentKind(kind: string) {
    var role := RoleOf(kind);
    role.Some? && role.value != Readiness && role.value != Integrator
  }

  predicate ImmutableOncePersisted(kind: string) {
    RoleOf(kind) == Some(ReviewFindings) || RoleOf(kind) == Some(BlindFindings) || kind == RETIRED_KIND
  }

  lemma {:induction false} LastDashAt(prefix: string, tail: string)
    requires '-' !in tail
    ensures AfterLastDash(prefix + "-" + tail) == Some(|prefix| + 1)
  {
    var text := prefix + "-" + tail;
    if tail == [] {
      assert text[|text| - 1] == '-';
    } else {
      assert text[|text| - 1] == tail[|tail| - 1];
      assert text[..|text| - 1] == prefix + "-" + tail[..|tail| - 1];
      LastDashAt(prefix, tail[..|tail| - 1]);
    }
  }

  lemma VersionedRole(kind: string, version: string)
    requires IsVersion(version)
    ensures Normalized(kind + "-" + version) == kind
    ensures RoleOf(kind + "-" + version) == RoleOfBareKind(kind)
    ensures kind + "-" + version != kind
  {
    var text := kind + "-" + version;
    assert '-' !in version;
    LastDashAt(kind, version);
    assert text[|kind| + 1..] == version && text[..|kind|] == kind;
  }

  predicate EndsInLetter(kind: string) {
    kind != [] && 'a' <= kind[|kind| - 1] <= 'z'
  }

  lemma BareKindEndsInLetter(kind: string)
    requires RoleOfBareKind(kind).Some?
    ensures EndsInLetter(kind)
  {
    assert EndsInLetter("spec") && EndsInLetter("revalidation") && EndsInLetter("plan") && EndsInLetter("plan-review");
    assert EndsInLetter("revised-plan") && EndsInLetter(MUST_FIX) && EndsInLetter("implementation");
    assert EndsInLetter("review-findings") && EndsInLetter("blind-findings") && EndsInLetter(FIXED_IMPLEMENTATION);
    assert EndsInLetter("documentation") && EndsInLetter("regression-verification");
    assert EndsInLetter("merge-authorization") && EndsInLetter("merge-result");
  }

  lemma VersionedEndsInDigit(kind: string)
    requires Normalized(kind) != kind
    ensures kind != [] && '0' <= kind[|kind| - 1] <= '9'
  {
    var start := AfterLastDash(kind).value;
    assert kind[start..][|kind| - start - 1] == kind[|kind| - 1];
  }

  // One version suffix keeps the role of a kind, and a second one loses it.
  lemma VersionKeepsRole(kind: string, version: string)
    requires IsVersion(version)
    ensures Normalized(kind) == kind ==> RoleOf(kind + "-" + version) == RoleOf(kind)
    ensures Normalized(kind) != kind ==> RoleOf(kind + "-" + version) == None
  {
    VersionedRole(kind, version);
    if Normalized(kind) != kind {
      VersionedEndsInDigit(kind);
      if RoleOfBareKind(kind).Some? { BareKindEndsInLetter(kind); }
    }
  }

  lemma UnversionedIsNormal(prefix: string, tail: string)
    requires '-' !in tail && !IsVersion(tail)
    ensures Normalized(prefix + "-" + tail) == prefix + "-" + tail
  {
    LastDashAt(prefix, tail);
    assert (prefix + "-" + tail)[|prefix| + 1..] == tail;
  }

  // Only a bare kind and its "-v1" form have the first generation.
  lemma FirstGeneration(kind: string)
    requires GenerationOf(kind) == "v1"
    ensures kind == Normalized(kind) || kind == Normalized(kind) + "-v1"
  {
    var start := AfterLastDash(kind);
    if start.Some? && IsVersion(kind[start.value..]) {
      assert kind == kind[..start.value - 1] + [kind[start.value - 1]] + kind[start.value..];
      assert Normalized(kind) + "-v1" == kind[..start.value - 1] + "-" + "v1";
    }
  }

  lemma FirstVersion(kind: string)
    ensures GenerationOf(kind + "-v1") == "v1" && RoleOf(kind + "-v1") == RoleOfBareKind(kind) && kind + "-v1" != kind
  {
    assert kind + "-v1" == kind + "-" + "v1";
    VersionedRole(kind, "v1");
    LastDashAt(kind, "v1");
    var text := kind + "-v1";
    assert text[|kind| + 1..] == "v1" && text[|kind|] == '-';
    assert text[|text| - 1] == '1';
  }

  lemma MustFixRole()
    ensures RoleOf(MUST_FIX) == Some(MustFix)
  {
    UnversionedIsNormal("must", "fix");
    assert MUST_FIX == "must" + "-" + "fix";
  }

  lemma FixedImplementationBareRole()
    ensures RoleOfBareKind(FIXED_IMPLEMENTATION) == Some(FixedImplementation)
  {
    assert |FIXED_IMPLEMENTATION| == 20;
  }

  lemma FixedImplementationRole()
    ensures RoleOf(FIXED_IMPLEMENTATION) == Some(FixedImplementation)
  {
    var text := "fixed" + "-" + "implementation";
    assert text == FIXED_IMPLEMENTATION;
    UnversionedIsNormal("fixed", "implementation");
    FixedImplementationBareRole();
  }

  lemma RetiredBareRole()
    ensures RoleOfBareKind(RETIRED_KIND) == None
  {
    assert |RETIRED_KIND| == 12 && RETIRED_KIND[0] == 's';
  }

  lemma RetiredHasNoRole()
    ensures RoleOf(RETIRED_KIND) == None
  {
    var text := "sol" + "-" + "findings";
    assert text == RETIRED_KIND;
    UnversionedIsNormal("sol", "findings");
    RetiredBareRole();
  }

  lemma BareKindOfRole(kind: string)
    ensures RoleOfBareKind(kind) == Some(MustFix) ==> kind == MUST_FIX
    ensures RoleOfBareKind(kind) == Some(FixedImplementation) ==> kind == FIXED_IMPLEMENTATION
  {
  }

  // Kinds in a role with a single contract: the bare one and its first version.
  lemma OneContract(kind: string, bare: string)
    requires Normalized(kind) == bare && (RoleOf(kind) == Some(MustFix) || RoleOf(kind) == Some(FixedImplementation))
    ensures HasContract(kind) ==> kind == bare || kind == bare + "-v1"
    ensures kind == bare + "-v1" ==> HasContract(kind) && kind != bare
  {
    if GenerationOf(kind) == "v1" { FirstGeneration(kind); }
    FirstVersion(bare);
  }

  // A kind that does not end in a digit has no version.
  lemma UnversionedKind(kind: string)
    requires EndsInLetter(kind)
    ensures Normalized(kind) == kind
  {
    if Normalized(kind) != kind { VersionedEndsInDigit(kind); }
  }

  // Which kind plays which role.
  lemma RoleTable()
    ensures RoleOf("spec") == Some(Spec) && RoleOf("plan") == Some(Plan)
    ensures RoleOf("revalidation") == Some(Revalidation) && RoleOf("implementation") == Some(Implementation)
    ensures RoleOf("documentation") == Some(Documentation)
    ensures RoleOf("plan-review") == Some(PlanReview) && RoleOf("revised-plan") == Some(RevisedPlan)
    ensures RoleOf("must-fix") == Some(MustFix) && RoleOf("fixed-implementation") == Some(FixedImplementation)
    ensures RoleOf("review-findings") == Some(ReviewFindings) && RoleOf("blind-findings") == Some(BlindFindings)
    ensures RoleOf("regression-verification") == Some(Regression)
    ensures RoleOf("merge-authorization") == Some(Readiness) && RoleOf("merge-result") == Some(Integrator)
    ensures RoleOf("sol-findings") == None
  {
    BareRoles();
    BareRolesOfReviews();
    RetiredHasNoRole();
    KindsEndInLetters();
    UnversionedKind("spec");
    UnversionedKind("plan");
    UnversionedKind("revalidation");
    UnversionedKind("implementation");
    UnversionedKind("documentation");
    UnversionedKind("plan-review");
    UnversionedKind("revised-plan");
    UnversionedKind("must-fix");
    UnversionedKind("fixed-implementation");
    UnversionedKind("review-findings");
    UnversionedKind("blind-findings");
    UnversionedKind("regression-verification");
    UnversionedKind("merge-authorization");
    UnversionedKind("merge-result");
  }

  lemma KindsEndInLetters()
    ensures EndsInLetter("spec") && EndsInLetter("plan") && EndsInLetter("revalidation")
    ensures EndsInLetter("implementation") && EndsInLetter("documentation") && EndsInLetter("plan-review")
    ensures EndsInLetter("revised-plan") && EndsInLetter("must-fix") && EndsInLetter("fixed-implementation")
    ensures EndsInLetter("review-findings") && EndsInLetter("blind-findings")
    ensures EndsInLetter("regression-verification") && EndsInLetter("merge-authorization")
    ensures EndsInLetter("merge-result")
  {
  }

  lemma BareRoles()
    ensures RoleOfBareKind("spec") == Some(Spec) && RoleOfBareKind("plan") == Some(Plan)
    ensures RoleOfBareKind("revalidation") == Some(Revalidation)
    ensures RoleOfBareKind("implementation") == Some(Implementation)
    ensures RoleOfBareKind("documentation") == Some(Documentation)
    ensures RoleOfBareKind("plan-review") == Some(PlanReview) && RoleOfBareKind("revised-plan") == Some(RevisedPlan)
    ensures RoleOfBareKind("must-fix") == Some(MustFix)
  {
  }

  lemma BareRolesOfReviews()
    ensures RoleOfBareKind("fixed-implementation") == Some(FixedImplementation)
    ensures RoleOfBareKind("review-findings") == Some(ReviewFindings)
    ensures RoleOfBareKind("blind-findings") == Some(BlindFindings)
    ensures RoleOfBareKind("regression-verification") == Some(Regression)
    ensures RoleOfBareKind("merge-authorization") == Some(Readiness)
    ensures RoleOfBareKind("merge-result") == Some(Integrator)
  {
  }

  // The kinds an agent's step may have, before any version.
  predicate BareAgentKind(kind: string) {
    || kind == "spec" || kind == "revalidation" || kind == "plan" || kind == "plan-review" || kind == "revised-plan"
    || kind == "must-fix" || kind == "implementation" || kind == "review-findings" || kind == "blind-findings"
    || kind == "fixed-implementation" || kind == "documentation" || kind == "regression-verification"
  }

  lemma BareAgentMeans(kind: string)
    ensures BareAgentKind(kind) <==> RoleOfBareKind(kind) !in {None, Some(Readiness), Some(Integrator)}
    ensures BareAgentKind(kind) ==>
      && (RoleOfBareKind(kind) == Some(Revalidation) <==> kind == "revalidation")
      && (RoleOfBareKind(kind) == Some(Regression) <==> kind == "regression-verification")
  {
  }

  lemma GenerationMeans(kind: string, version: string)
    requires IsVersion(version)
    ensures GenerationOf(kind + "-" + version) == version
  {
    var text := kind + "-" + version;
    LastDashAt(kind, version);
    assert text[|kind| + 1..] == version && text[|text| - 1] == version[|version| - 1];
  }

  lemma BareGeneration(kind: string)
    requires BareAgentKind(kind)
    ensures Normalized(kind) == kind && GenerationOf(kind) == if kind == "revalidation" then "v2" else "v1"
  {
    BareAgentMeans(kind);
    BareKindEndsInLetter(kind);
    UnversionedKind(kind);
  }

  // The versions a kind has a contract under, beside the bare kind itself.
  predicate Registered(kind: string, version: string) {
    || version == "v1"
    || (version == "v2" && (kind == "revalidation" || kind == "regression-verification"))
    || (version == "v3" && kind == "regression-verification")
  }

  lemma VersionedContract(kind: string, version: string)
    requires IsVersion(version)
    ensures HasContract(kind + "-" + version) <==> BareAgentKind(kind) && Registered(kind, version)
  {
    VersionedRole(kind, version);
    GenerationMeans(kind, version);
    BareAgentMeans(kind);
  }

  predicate IsVersionOf(kind: string, bare: string, version: string) {
    IsVersion(version) && kind == bare + "-" + version
  }

  lemma SplitsOff(kind: string)
    requires Normalized(kind) != kind
    ensures exists version :: IsVersionOf(kind, Normalized(kind), version)
  {
    var start := AfterLastDash(kind).value;
    var version := kind[start..];
    assert kind == kind[..start - 1] + "-" + version;
    assert IsVersionOf(kind, Normalized(kind), version);
  }

  // The registry: every agent kind has a contract bare and as "-v1";
  // revalidation and regression also as "-v2", regression as "-v3"; nothing else.
  lemma ContractsMean(kind: string)
    ensures HasContract(kind) <==>
      || BareAgentKind(kind)
      || exists bare, version :: IsVersionOf(kind, bare, version) && BareAgentKind(bare) && Registered(bare, version)
  {
    forall bare, version | IsVersionOf(kind, bare, version)
      ensures HasContract(kind) <==> BareAgentKind(bare) && Registered(bare, version)
    {
      VersionedContract(bare, version);
    }
    if Normalized(kind) == kind {
      UnversionedContract(kind);
    } else {
      SplitsOff(kind);
      if BareAgentKind(kind) { BareGeneration(kind); }
    }
  }

  lemma UnversionedContract(kind: string)
    requires Normalized(kind) == kind
    ensures HasContract(kind) <==> BareAgentKind(kind)
  {
    BareAgentMeans(kind);
    if BareAgentKind(kind) { BareGeneration(kind); }
  }

  // A version is "v" and a positive number without leading zeros.
  lemma VersionsSpelled(text: string, c: char)
    ensures !IsVersion("") && !IsVersion([c])
    ensures IsVersion("v" + [c]) <==> '1' <= c && c <= '9'
    ensures |text| >= 2 ==> (IsVersion(text + [c]) <==> IsVersion(text) && '0' <= c && c <= '9')
    ensures IsVersion(text) ==> text[0] == 'v'
  {
    if |text| >= 2 {
      assert forall i | 0 <= i < |text| :: (text + [c])[i] == text[i];
      assert (text + [c])[|text|] == c;
    }
  }
}
