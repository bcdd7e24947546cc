/** What a decision says: gated deny-overrides, unions of duties, and stability under more information. */
module EvaluatorTheorems {
  import opened Wrappers
  import opened Ordering
  import opened Utf8
  import opened Domain
  import opened Applicability
  import opened Construction
  import opened Policies
  import opened Evaluator
  import opened Conditions
  import opened EvaluatorTotal

  // ----- Three-valued matching, without the evaluator

  ghost predicate AllHold(request: AuthorizationRequest, rule: Rule) {
    forall c :: c in rule.conditions ==> Is(request, c, Satisfied)
  }

  ghost predicate SomeFails(request: AuthorizationRequest, rule: Rule) {
    exists c :: c in rule.conditions && Is(request, c, Unsatisfied)
  }

  /** No condition is false, and some condition cannot be decided. */
  ghost predicate Unknown(request: AuthorizationRequest, rule: Rule) {
    && !SomeFails(request, rule)
    && exists c :: c in rule.conditions && (Is(request, c, MissingInput) || Is(request, c, ConditionError))
  }

  lemma {:induction false} ResultPresent(request: AuthorizationRequest, cs: seq<Condition>, status: ConditionStatus)
    requires (forall c :: c in cs ==> ValidCondition(c)) && ConditionResults(request, cs).Some?
    ensures HasResult(ConditionResults(request, cs).value, status) <==> exists c :: c in cs && Is(request, c, status)
  {
    hide EvaluateCondition, ConditionResults, Is, ValidCondition;
    var rs := ConditionResults(request, cs).value;
    if HasResult(rs, status) {
      var i :| 0 <= i < |rs| && rs[i].1 == status;
      assert cs[i] in cs;
      ConditionExact(request, cs[i], status);
    }
    if c :| c in cs && Is(request, c, status) {
      var i :| 0 <= i < |cs| && cs[i] == c;
      ConditionExact(request, c, status);
    }
  }

  /** A conjunction of unknowns: false beats unknown, unknown beats true. */
  lemma {:induction false} RuleStatusMeaning(request: AuthorizationRequest, policyId: string, rule: Rule)
    requires !Blank(policyId) && ValidRule(rule)
    ensures EvaluateRule(request, policyId, rule).Some?
    ensures var status := EvaluateRule(request, policyId, rule).value.status;
            && (status == Matched <==> AllHold(request, rule))
            && (status == NotMatched <==> SomeFails(request, rule))
            && (status == Indeterminate <==> Unknown(request, rule))
  {
    hide EvaluateCondition, EvaluateRule, HasResult, AllSatisfied, AllHold, Is, ConditionResults, ValidCondition;
    RuleTotal(request, policyId, rule);
    var cs := rule.conditions;
    ResultPresent(request, cs, Unsatisfied);
    ResultPresent(request, cs, MissingInput);
    ResultPresent(request, cs, ConditionError);
    ResultsAllHold(request, rule);
  }

  /** All results are SATISFIED exactly when all conditions hold, and then no result is anything else. */
  lemma {:induction false} ResultsAllHold(request: AuthorizationRequest, rule: Rule)
    requires rule.conditions != [] && (forall c :: c in rule.conditions ==> ValidCondition(c))
    requires ConditionResults(request, rule.conditions).Some?
    ensures var rs := ConditionResults(request, rule.conditions).value;
            && (AllSatisfied(rs) <==> AllHold(request, rule))
            && (AllSatisfied(rs) ==> forall status :: status != Satisfied ==> !HasResult(rs, status))
  {
    hide EvaluateCondition, ConditionResults, Is, ValidCondition;
    var cs := rule.conditions;
    var rs := ConditionResults(request, cs).value;
    if AllSatisfied(rs) {
      forall c | c in cs ensures Is(request, c, Satisfied) {
        var i :| 0 <= i < |cs| && cs[i] == c;
        ConditionExact(request, c, Satisfied);
      }
    }
    if AllHold(request, rule) {
      forall i | 0 <= i < |rs| ensures rs[i].1 == Satisfied {
        assert cs[i] in cs;
        ConditionExact(request, cs[i], Satisfied);
      }
    }
  }

  // ----- The declarative outcome

  ghost predicate InBundle(bundle: PolicyBundle, rule: Rule) {
    exists p :: p in bundle.policies && rule in p.rules
  }

  /** The request's subject is bound to the holder of an authority whose scope contains the request. */
  ghost predicate Gate(request: AuthorizationRequest, authority: Option<VerifiedAuthority>,
                       binding: Option<SubjectPrincipalBinding>)
  {
    && authority.Some? && binding.Some?
    && request.subject == binding.value.subject
    && binding.value.principal == authority.value.principal
    && Contains(authority.value.scope, request)
  }

  ghost predicate Contributes(request: AuthorizationRequest, bundle: PolicyBundle, rule: Rule, effects: set<Effect>) {
    InBundle(bundle, rule) && AllHold(request, rule) && rule.effect in effects
  }

  ghost predicate SomeContributes(request: AuthorizationRequest, bundle: PolicyBundle, effects: set<Effect>) {
    exists r :: Contributes(request, bundle, r, effects)
  }

  ghost function SpecOutcome(request: AuthorizationRequest, bundle: PolicyBundle,
                             authority: Option<VerifiedAuthority>, binding: Option<SubjectPrincipalBinding>): Outcome
  {
    if !Gate(request, authority, binding) then Deny
    else if exists r :: InBundle(bundle, r) && Unknown(request, r) then Deny
    else if SomeContributes(request, bundle, {DenyEffect}) then Deny
    else if SomeContributes(request, bundle, {ApprovalEffect}) then ApprovalRequired
    else if SomeContributes(request, bundle, {PermitEffect}) then Permit
    else Deny
  }

  /** The matched rules of an effect, in bundle order. */
  function Selected(request: AuthorizationRequest, bundle: PolicyBundle, effects: set<Effect>): seq<Rule>
    requires EvaluateRules(request, FlatRules(bundle.policies)).Some?
  {
    var rules := FlatRules(bundle.policies);
    WithEffect(MatchedRules(rules, EvaluateRules(request, rules).value), effects)
  }

  ghost predicate InFlat(bundle: PolicyBundle, rule: Rule) {
    exists i :: 0 <= i < |FlatRules(bundle.policies)| && FlatRules(bundle.policies)[i].1 == rule
  }

  lemma {:induction false} FlatIsBundle(bundle: PolicyBundle, rule: Rule)
    ensures InBundle(bundle, rule) <==> InFlat(bundle, rule)
  {
    var rules := FlatRules(bundle.policies);
    FlatMembers(bundle.policies);
    if InBundle(bundle, rule) {
      var p :| p in bundle.policies && rule in p.rules;
      assert InPolicies(bundle.policies, (p.identifier, rule));
      assert (p.identifier, rule) in rules;
      var k :| 0 <= k < |rules| && rules[k] == (p.identifier, rule);
      assert rules[k].1 == rule;
    }
    if InFlat(bundle, rule) {
      var i :| 0 <= i < |rules| && rules[i].1 == rule;
      assert rules[i] in rules;
      assert InPolicies(bundle.policies, rules[i]);
      var p :| p in bundle.policies && p.identifier == rules[i].0 && rules[i].1 in p.rules;
      assert rule in p.rules;
    }
  }

  lemma {:induction false} FlatStatus(request: AuthorizationRequest, bundle: PolicyBundle, i: nat)
    requires ValidBundle(bundle) && i < |FlatRules(bundle.policies)|
    ensures EvaluateRules(request, FlatRules(bundle.policies)).Some?
    ensures var rule := FlatRules(bundle.policies)[i].1;
            var status := EvaluateRules(request, FlatRules(bundle.policies)).value[i].status;
            && ValidRule(rule)
            && (status == Matched <==> AllHold(request, rule))
            && (status == Indeterminate <==> Unknown(request, rule))
  {
    hide EvaluateRule, AllHold, Unknown, ValidBundle;
    EvaluationsSettled(request, bundle);
    FlatValid(bundle);
    var rules := FlatRules(bundle.policies);
    assert rules[i] in rules;
    RuleStatusMeaning(request, rules[i].0, rules[i].1);
    var e := EvaluateRules(request, rules).value[i];
    assert EvaluateRule(request, rules[i].0, rules[i].1) == Some(e);
    assert e.status == EvaluateRule(request, rules[i].0, rules[i].1).value.status;
  }

  /** Selected rules are exactly the contributing ones. */
  lemma {:induction false} SelectedContribute(request: AuthorizationRequest, bundle: PolicyBundle, effects: set<Effect>)
    requires ValidBundle(bundle)
    ensures EvaluateRules(request, FlatRules(bundle.policies)).Some?
    ensures forall r :: r in Selected(request, bundle, effects) <==> Contributes(request, bundle, r, effects)
  {
    hide AllHold, Unknown, ValidRule, FlatRules, ValidBundle;
    EvaluationsSettled(request, bundle);
    var rules := FlatRules(bundle.policies);
    var es := EvaluateRules(request, rules).value;
    MatchedMembers(rules, es);
    WithEffectMembers(MatchedRules(rules, es), effects);
    forall r ensures r in Selected(request, bundle, effects) <==> Contributes(request, bundle, r, effects) {
      FlatIsBundle(bundle, r);
      forall i: nat | i < |rules| && rules[i].1 == r ensures es[i].status == Matched <==> AllHold(request, r) {
        FlatStatus(request, bundle, i);
      }
    }
  }

  lemma {:induction false} SelectionExists(request: AuthorizationRequest, bundle: PolicyBundle, effects: set<Effect>)
    requires ValidBundle(bundle)
    ensures EvaluateRules(request, FlatRules(bundle.policies)).Some?
    ensures Selected(request, bundle, effects) != [] <==> SomeContributes(request, bundle, effects)
  {
    hide AllHold, FlatRules, ValidBundle, WithEffect, MatchedRules, InBundle;
    SelectedContribute(request, bundle, effects);
    var s := Selected(request, bundle, effects);
    if s != [] {
      assert s[0] in s;
    }
  }

  lemma {:induction false} IndeterminateExists(request: AuthorizationRequest, bundle: PolicyBundle)
    requires ValidBundle(bundle)
    ensures EvaluateRules(request, FlatRules(bundle.policies)).Some?
    ensures HasStatusIn(EvaluateRules(request, FlatRules(bundle.policies)).value, Indeterminate)
            <==> exists r :: InBundle(bundle, r) && Unknown(request, r)
  {
    hide AllHold, Unknown, ValidRule, FlatRules, ValidBundle;
    EvaluationsSettled(request, bundle);
    var rules := FlatRules(bundle.policies);
    var es := EvaluateRules(request, rules).value;
    if HasStatusIn(es, Indeterminate) {
      var i: nat :| i < |es| && es[i].status == Indeterminate;
      FlatStatus(request, bundle, i);
      FlatIsBundle(bundle, rules[i].1);
    }
    if r :| InBundle(bundle, r) && Unknown(request, r) {
      FlatIsBundle(bundle, r);
      var i: nat :| i < |rules| && rules[i].1 == r;
      FlatStatus(request, bundle, i);
    }
  }

  lemma {:induction false} GateExact(id: Identity, request: AuthorizationRequest, authority: Option<VerifiedAuthority>,
                                     binding: Option<SubjectPrincipalBinding>)
    ensures Gate(request, authority, binding)
            <==> && StatusOf(ApplicabilityOf(id, request, authority)) == Some(Applicable)
                 && BindingOf(HolderBinding(id, request, authority, binding)) == Some(Bound)
  {
    if authority.Some? {
      ApplicableIffContains(request, authority.value.scope);
    }
  }

  /** The outcome is gated deny-overrides, whatever the order of policies, rules and conditions. */
  lemma {:induction false} OutcomeIsGatedDenyOverrides(
    id: Identity, request: AuthorizationRequest, bundle: PolicyBundle,
    authority: Option<VerifiedAuthority>, binding: Option<SubjectPrincipalBinding>)
    requires ValidBundle(bundle)
    ensures Evaluate(id, request, bundle, authority, binding).outcome == SpecOutcome(request, bundle, authority, binding)
  {
    hide AllHold, Unknown, ValidRule, FlatRules, ValidBundle, Gate, CodeText, EvaluateRules, TryEvaluate;
    hide CheckApplicability, CheckBinding, MatchedRules, WithEffect, ApplicabilityOf, HolderBinding, SomeContributes;
    hide ExtendUnique, ObligationsOf, ApprovalsOf;
    EvaluateTotal(id, request, bundle, authority, binding);
    GateExact(id, request, authority, binding);
    IndeterminateExists(request, bundle);
    SelectionExists(request, bundle, {DenyEffect});
    SelectionExists(request, bundle, {ApprovalEffect});
    SelectionExists(request, bundle, {PermitEffect});
  }

  /** The first obstacle, or the contribution that decided. */
  ghost function SpecReason(request: AuthorizationRequest, bundle: PolicyBundle,
                            authority: Option<VerifiedAuthority>, binding: Option<SubjectPrincipalBinding>): ReasonCode
  {
    if authority.None? then AuthorityRequired
    else if binding.None? then BindingRequired
    else if request.subject != binding.value.subject then HolderMismatch(SubjectMismatch)
    else if binding.value.principal != authority.value.principal then HolderMismatch(PrincipalMismatch)
    else if !Contains(authority.value.scope, request) then NotApplicable(ScopeStatus(request, authority.value.scope))
    else if exists r :: InBundle(bundle, r) && Unknown(request, r) then IndeterminateRule
    else if SomeContributes(request, bundle, {DenyEffect}) then DenyRuleMatched
    else if SomeContributes(request, bundle, {ApprovalEffect}) then ApprovalNeeded
    else if SomeContributes(request, bundle, {PermitEffect}) then PermitRuleMatched
    else NoMatchingRule
  }

  /** The one reason of a decision names the first obstacle, or the contribution that decided. */
  lemma {:induction false} ReasonNamesFirstObstacle(
    id: Identity, request: AuthorizationRequest, bundle: PolicyBundle,
    authority: Option<VerifiedAuthority>, binding: Option<SubjectPrincipalBinding>)
    requires ValidBundle(bundle)
    ensures Evaluate(id, request, bundle, authority, binding).reasons
            == [Reason(CodeText(SpecReason(request, bundle, authority, binding)), "")]
  {
    hide AllHold, Unknown, ValidRule, FlatRules, ValidBundle, CodeText, EvaluateRules, TryEvaluate, Contains;
    hide MatchedRules, WithEffect, SomeContributes, BoundEvaluations, ScopeStatus;
    hide ExtendUnique, ObligationsOf, ApprovalsOf;
    EvaluateTotal(id, request, bundle, authority, binding);
    if authority.Some? {
      ApplicableIffContains(request, authority.value.scope);
    }
    IndeterminateExists(request, bundle);
    SelectionExists(request, bundle, {DenyEffect});
    SelectionExists(request, bundle, {ApprovalEffect});
    SelectionExists(request, bundle, {PermitEffect});
  }

  // ----- Obligations and approvals

  /** In `xs`, `x` occurs before the first `y`. */
  ghost predicate Before<T>(xs: seq<T>, x: T, y: T) {
    exists i :: 0 <= i < |xs| && xs[i] == x && forall j :: 0 <= j <= i ==> xs[j] != y
  }

  /** The items of `xs`, each once, in the order of their first occurrences. */
  ghost predicate IsUniqueUnion<T(!new)>(r: seq<T>, xs: seq<T>) {
    && NoRepeats(r)
    && (forall x :: x in r <==> x in xs)
    && forall a, b :: 0 <= a < b < |r| ==> Before(xs, r[a], r[b])
  }

  lemma {:induction false} BeforeInsert<T>(target: seq<T>, v: T, rest: seq<T>, x: T, y: T)
    requires v in target && Before(target + rest, x, y)
    ensures Before(target + ([v] + rest), x, y)
  {
    var xs, ys := target + rest, target + ([v] + rest);
    var i :| 0 <= i < |xs| && xs[i] == x && forall j :: 0 <= j <= i ==> xs[j] != y;
    var k := if i < |target| then i else i + 1;
    assert ys[k] == x;
    forall j | 0 <= j <= k ensures ys[j] != y {
      if j < |target| {
        assert ys[j] == target[j] == xs[j];
      } else if j == |target| {
        var m :| 0 <= m < |target| && target[m] == v;
        assert xs[m] == v && ys[j] == v;
      } else {
        assert ys[j] == rest[j - |target| - 1] == xs[j - 1];
      }
    }
  }

  lemma {:induction false} ExtendUniqueOrder<T(!new)>(target: seq<T>, values: seq<T>)
    requires NoRepeats(target)
    ensures var r := ExtendUnique(target, values);
            forall a, b :: 0 <= a < b < |r| ==> Before(target + values, r[a], r[b])
    decreases values
  {
    var r := ExtendUnique(target, values);
    if values == [] {
      forall a, b | 0 <= a < b < |r| ensures Before(target + values, r[a], r[b]) {
        assert (target + values)[a] == r[a] && forall j :: 0 <= j <= a ==> (target + values)[j] != r[b];
      }
    } else {
      var v, rest := values[0], values[1..];
      assert values == [v] + rest;
      if v in target {
        ExtendUniqueOrder(target, rest);
        assert r == ExtendUnique(target, rest);
        forall a, b | 0 <= a < b < |r| ensures Before(target + values, r[a], r[b]) {
          assert Before(target + rest, r[a], r[b]);
          BeforeInsert(target, v, rest, r[a], r[b]);
        }
      } else {
        ExtendUniqueOrder(target + [v], rest);
        assert target + [v] + rest == target + values;
        assert r == ExtendUnique(target + [v], rest);
        forall a, b | 0 <= a < b < |r| ensures Before(target + values, r[a], r[b]) {
          assert Before(target + [v] + rest, r[a], r[b]);
        }
      }
    }
  }

  lemma {:induction false} ExtendUniqueIsUnion<T(!new)>(xs: seq<T>)
    ensures IsUniqueUnion(ExtendUnique([], xs), xs)
  {
    ExtendUniqueUnion([], xs);
    ExtendUniqueOrder([], xs);
    assert [] + xs == xs;
  }

  function DutyEffects(outcome: Outcome): set<Effect> {
    match outcome
    case Permit => {PermitEffect}
    case ApprovalRequired => {PermitEffect, ApprovalEffect}
    case Deny => {}
  }

  lemma {:induction false} VerdictDuties(
    applicability: Option<ApplicabilityStatus>, binding: Option<BindingStatus>,
    evaluations: seq<RuleEvaluation>, matched: seq<Rule>)
    ensures var v := Judge(applicability, binding, evaluations, matched);
            && (v.outcome == Deny ==> v.obligations == [])
            && (v.outcome != Deny ==>
                  IsUniqueUnion(v.obligations, ObligationsOf(WithEffect(matched, DutyEffects(v.outcome)))))
            && (v.outcome != ApprovalRequired ==> v.approvals == [])
            && (v.outcome == ApprovalRequired ==>
                  v.approvals == ExtendUnique([], ApprovalsOf(WithEffect(matched, {ApprovalEffect}))))
  {
    hide WithEffect, ExtendUnique, ObligationsOf, ApprovalsOf, IsUniqueUnion;
    ExtendUniqueIsUnion(ObligationsOf(WithEffect(matched, {PermitEffect})));
    ExtendUniqueIsUnion(ObligationsOf(WithEffect(matched, {PermitEffect, ApprovalEffect})));
  }

  /**
    A denial carries no duties. A permit carries the obligations of every contributing permit rule,
    an approval those of every contributing permit or approval rule: each once, in bundle order.
    An approval's requirements are those of every contributing approval rule: each once, sorted.
    */
  lemma {:induction false} DutiesAreUnions(
    id: Identity, request: AuthorizationRequest, bundle: PolicyBundle,
    authority: Option<VerifiedAuthority>, binding: Option<SubjectPrincipalBinding>)
    requires ValidBundle(bundle)
    ensures EvaluateRules(request, FlatRules(bundle.policies)).Some?
    ensures var d := Evaluate(id, request, bundle, authority, binding);
            && (d.outcome == Deny ==> d.obligations == [])
            && (d.outcome != Deny ==>
                  IsUniqueUnion(d.obligations, ObligationsOf(Selected(request, bundle, DutyEffects(d.outcome)))))
            && (d.outcome != ApprovalRequired ==> d.approvals == [])
            && (d.outcome == ApprovalRequired ==>
                  && Ascending(RequirementLess, d.approvals)
                  && forall a :: a in d.approvals
                       <==> exists r :: Contributes(request, bundle, r, {ApprovalEffect}) && a in r.approvals)
  {
    hide AllHold, FlatRules, ValidBundle, CodeText, EvaluateRules, TryEvaluate, Contributes, Judge;
    hide MatchedRules, WithEffect, ApplicabilityOf, HolderBinding, ExtendUnique, ObligationsOf;
    hide ApprovalsOf, IsUniqueUnion, RequirementLess;
    EvaluateTotal(id, request, bundle, authority, binding);
    var d := Evaluate(id, request, bundle, authority, binding);
    VerdictDuties(StatusOf(d.evidence.applicability), BindingOf(d.evidence.binding), d.evidence.rules,
                  MatchedRules(FlatRules(bundle.policies), d.evidence.rules));
    if d.outcome == ApprovalRequired {
      ApprovalsAreUnion(request, bundle);
    }
  }

  lemma {:induction false} ApprovalsAreUnion(request: AuthorizationRequest, bundle: PolicyBundle)
    requires ValidBundle(bundle)
    ensures EvaluateRules(request, FlatRules(bundle.policies)).Some?
    ensures var sorted := Sort(RequirementLess,
                               ExtendUnique([], ApprovalsOf(Selected(request, bundle, {ApprovalEffect}))));
            && Ascending(RequirementLess, sorted)
            && forall a :: a in sorted
                 <==> exists r :: Contributes(request, bundle, r, {ApprovalEffect}) && a in r.approvals
  {
    hide AllHold, ValidRule, FlatRules, ValidBundle, EvaluateRules, MatchedRules, WithEffect, InBundle, RequirementLess;
    SelectedContribute(request, bundle, {ApprovalEffect});
    var selected := Selected(request, bundle, {ApprovalEffect});
    ApprovalsOfMembers(selected);
    ExtendUniqueUnion([], ApprovalsOf(selected));
    RequirementsAscending(ExtendUnique([], ApprovalsOf(selected)));
  }

  // ----- What a decision does not depend on

  /** Two authorities over one scope and holder, validated at different times, decide alike. */
  lemma {:induction false} DecisionIgnoresValidationTime(
    id: Identity, request: AuthorizationRequest, bundle: PolicyBundle,
    a: VerifiedAuthority, b: VerifiedAuthority, binding: SubjectPrincipalBinding)
    requires ValidBundle(bundle) && a.scope == b.scope && a.principal == b.principal
    ensures var d, e := Evaluate(id, request, bundle, Some(a), Some(binding)), Evaluate(id, request, bundle, Some(b), Some(binding));
            && d.outcome == e.outcome && d.reasons == e.reasons && d.obligations == e.obligations
            && d.approvals == e.approvals && d.evidence.rules == e.evidence.rules
  {
    hide ValidBundle, FlatRules, CodeText, EvaluateRules, TryEvaluate, MatchedRules, Judge, RequirementLess;
    EvaluateTotal(id, request, bundle, Some(a), Some(binding));
    EvaluateTotal(id, request, bundle, Some(b), Some(binding));
  }

  // ----- More information

  ghost predicate WithoutExists(bundle: PolicyBundle) {
    forall r, c :: InBundle(bundle, r) && c in r.conditions ==> !c.operator.Exists?
  }

  /** The same request with context keys added. */
  ghost predicate AddsContext(request: AuthorizationRequest, more: AuthorizationRequest) {
    && more == request.(context := more.context)
    && forall name :: Lookup(request.context.attributes, name).Some? ==>
         Lookup(more.context.attributes, name) == Lookup(request.context.attributes, name)
  }

  lemma {:induction false} ConditionKept(request: AuthorizationRequest, more: AuthorizationRequest, c: Condition)
    requires AddsContext(request, more) && !c.operator.Exists? && EvaluateCondition(request, c) != Some(MissingInput)
    ensures EvaluateCondition(more, c) == EvaluateCondition(request, c)
  {
  }

  lemma {:induction false} ContainsKept(request: AuthorizationRequest, more: AuthorizationRequest, scope: AuthorityScope)
    requires AddsContext(request, more) && Contains(scope, request)
    ensures Contains(scope, more)
  {
    forall i | 0 <= i < |scope.bounds| ensures WithinBound(more, scope.bounds[i]) {
      assert WithinBound(request, scope.bounds[i]);
    }
  }

  lemma {:induction false} OneStatus(request: AuthorizationRequest, c: Condition)
    requires ValidCondition(c)
    ensures Is(request, c, Unsatisfied) ==> !Is(request, c, Satisfied)
  {
    hide EvaluateCondition, Is;
    ConditionExact(request, c, Unsatisfied);
    ConditionExact(request, c, Satisfied);
  }

  /** A decided rule stays decided the same way. */
  lemma {:induction false} RuleKept(request: AuthorizationRequest, more: AuthorizationRequest, rule: Rule)
    requires AddsContext(request, more) && ValidRule(rule) && !Unknown(request, rule)
    requires forall c :: c in rule.conditions ==> !c.operator.Exists?
    ensures !Unknown(more, rule) && (AllHold(more, rule) <==> AllHold(request, rule))
  {
    hide EvaluateCondition, Is, ValidCondition, AddsContext;
    forall c, status | c in rule.conditions && !Is(request, c, MissingInput)
      ensures Is(more, c, status) <==> Is(request, c, status)
    {
      ConditionExact(request, c, MissingInput);
      ConditionKept(request, more, c);
      ConditionExact(request, c, status);
      ConditionExact(more, c, status);
    }
    if SomeFails(request, rule) {
      var c :| c in rule.conditions && Is(request, c, Unsatisfied);
      ConditionExact(request, c, Unsatisfied);
      ConditionExact(request, c, MissingInput);
      assert Is(more, c, Unsatisfied);
      OneStatus(more, c);
    }
  }

  lemma {:induction false} BundleKept(request: AuthorizationRequest, more: AuthorizationRequest, bundle: PolicyBundle, i: nat)
    requires AddsContext(request, more) && ValidBundle(bundle) && WithoutExists(bundle)
    requires i < |FlatRules(bundle.policies)|
    requires EvaluateRules(request, FlatRules(bundle.policies)).Some?
    requires !HasStatusIn(EvaluateRules(request, FlatRules(bundle.policies)).value, Indeterminate)
    ensures EvaluateRules(more, FlatRules(bundle.policies)).Some?
    ensures EvaluateRules(more, FlatRules(bundle.policies)).value[i].status
            == EvaluateRules(request, FlatRules(bundle.policies)).value[i].status
  {
    hide AllHold, Unknown, ValidRule, ValidBundle, EvaluateRule, FlatRules;
    var rules := FlatRules(bundle.policies);
    FlatStatus(request, bundle, i);
    FlatStatus(more, bundle, i);
    FlatIsBundle(bundle, rules[i].1);
    assert EvaluateRules(request, rules).value[i].status != Indeterminate;
    RuleKept(request, more, rules[i].1);
  }

  lemma {:induction false} SameStatusesSameMatches(rules: seq<(string, Rule)>, es: seq<RuleEvaluation>, fs: seq<RuleEvaluation>)
    requires |rules| == |es| == |fs| && forall i :: 0 <= i < |es| ==> es[i].status == fs[i].status
    ensures MatchedRules(rules, es) == MatchedRules(rules, fs)
  {
    if rules != [] {
      SameStatusesSameMatches(rules[1..], es[1..], fs[1..]);
    }
  }

  /** The evidence's policy-scoped identifiers of matching rules. */
  function MatchedIds(es: seq<RuleEvaluation>): seq<(string, string)> {
    if es == [] then []
    else (if es[0].status == Matched then [(es[0].policyId, es[0].ruleId)] else []) + MatchedIds(es[1..])
  }

  lemma {:induction false} SameMatchedIds(es: seq<RuleEvaluation>, fs: seq<RuleEvaluation>)
    requires |es| == |fs|
    requires forall i :: 0 <= i < |es| ==>
               es[i].status == fs[i].status && es[i].policyId == fs[i].policyId && es[i].ruleId == fs[i].ruleId
    ensures MatchedIds(es) == MatchedIds(fs)
  {
    if es != [] {
      SameMatchedIds(es[1..], fs[1..]);
    }
  }

  lemma {:induction false} SameRuleIds(request: AuthorizationRequest, more: AuthorizationRequest, bundle: PolicyBundle)
    requires ValidBundle(bundle)
    ensures var rules := FlatRules(bundle.policies);
            && EvaluateRules(request, rules).Some? && EvaluateRules(more, rules).Some?
            && var es, fs := EvaluateRules(request, rules).value, EvaluateRules(more, rules).value;
               forall i :: 0 <= i < |es| ==> es[i].policyId == fs[i].policyId && es[i].ruleId == fs[i].ruleId
  {
    hide ValidBundle, ValidRule, FlatRules;
    EvaluationsSettled(request, bundle);
    EvaluationsSettled(more, bundle);
    var rules := FlatRules(bundle.policies);
    FlatValid(bundle);
    forall i: nat | i < |rules|
      ensures EvaluateRules(request, rules).value[i].policyId == EvaluateRules(more, rules).value[i].policyId
      ensures EvaluateRules(request, rules).value[i].ruleId == EvaluateRules(more, rules).value[i].ruleId
    {
      assert rules[i] in rules;
      RuleTotal(request, rules[i].0, rules[i].1);
      RuleTotal(more, rules[i].0, rules[i].1);
    }
  }

  lemma {:induction false} MatchesKept(request: AuthorizationRequest, more: AuthorizationRequest, bundle: PolicyBundle)
    requires AddsContext(request, more) && ValidBundle(bundle) && WithoutExists(bundle)
    requires EvaluateRules(request, FlatRules(bundle.policies)).Some?
    requires !HasStatusIn(EvaluateRules(request, FlatRules(bundle.policies)).value, Indeterminate)
    ensures var rules := FlatRules(bundle.policies);
            && EvaluateRules(more, rules).Some?
            && MatchedRules(rules, EvaluateRules(more, rules).value) == MatchedRules(rules, EvaluateRules(request, rules).value)
            && MatchedIds(EvaluateRules(more, rules).value) == MatchedIds(EvaluateRules(request, rules).value)
            && !HasStatusIn(EvaluateRules(more, rules).value, Indeterminate)
  {
    hide AllHold, Unknown, ValidRule, ValidBundle, EvaluateRule, FlatRules, WithoutExists, AddsContext;
    var rules := FlatRules(bundle.policies);
    EvaluationsSettled(more, bundle);
    forall i: nat | i < |rules|
      ensures EvaluateRules(more, rules).value[i].status == EvaluateRules(request, rules).value[i].status
    {
      BundleKept(request, more, bundle, i);
    }
    SameStatusesSameMatches(rules, EvaluateRules(more, rules).value, EvaluateRules(request, rules).value);
    SameRuleIds(more, request, bundle);
    SameMatchedIds(EvaluateRules(more, rules).value, EvaluateRules(request, rules).value);
  }

  lemma {:induction false} GateKept(
    id: Identity, request: AuthorizationRequest, more: AuthorizationRequest,
    authority: Option<VerifiedAuthority>, binding: Option<SubjectPrincipalBinding>)
    requires AddsContext(request, more) && Gate(request, authority, binding)
    ensures StatusOf(ApplicabilityOf(id, request, authority)) == Some(Applicable)
            == StatusOf(ApplicabilityOf(id, more, authority))
    ensures BindingOf(HolderBinding(id, request, authority, binding)) == Some(Bound)
            == BindingOf(HolderBinding(id, more, authority, binding))
  {
    GateExact(id, request, authority, binding);
    GateExact(id, more, authority, binding);
    ContainsKept(request, more, authority.value.scope);
  }

  /** Outside the gate or with an indeterminate rule there is no grant, and nothing else is read. */
  lemma {:induction false} VerdictReads(
    applicability: Option<ApplicabilityStatus>, binding: Option<BindingStatus>,
    es: seq<RuleEvaluation>, fs: seq<RuleEvaluation>, matched: seq<Rule>)
    requires Judge(applicability, binding, es, matched).outcome != Deny
    ensures applicability == Some(Applicable) && binding == Some(Bound) && !HasStatusIn(es, Indeterminate)
    ensures !HasStatusIn(fs, Indeterminate) ==>
              Judge(applicability, binding, fs, matched) == Judge(applicability, binding, es, matched)
  {
    hide WithEffect, ExtendUnique, ObligationsOf, ApprovalsOf;
  }

  /**
    More context cannot retract a grant: over a bundle without EXISTS, a permitted or
    approval-requiring request keeps its outcome, matched rules and duties when context keys are
    added.
    */
  lemma {:induction false} ContextMonotone(
    id: Identity, request: AuthorizationRequest, more: AuthorizationRequest, bundle: PolicyBundle,
    authority: Option<VerifiedAuthority>, binding: Option<SubjectPrincipalBinding>)
    requires ValidBundle(bundle) && WithoutExists(bundle) && AddsContext(request, more)
    requires Evaluate(id, request, bundle, authority, binding).outcome != Deny
    ensures var d, e := Evaluate(id, request, bundle, authority, binding), Evaluate(id, more, bundle, authority, binding);
            && d.outcome == e.outcome && d.obligations == e.obligations && d.approvals == e.approvals
            && d.reasons == e.reasons
            && MatchedIds(d.evidence.rules) == MatchedIds(e.evidence.rules)
  {
    hide ValidBundle, FlatRules, CodeText, EvaluateRules, TryEvaluate, MatchedRules, Judge, MatchedIds, Gate;
    hide RequirementLess, WithoutExists, AddsContext, ApplicabilityOf, HolderBinding, HasStatusIn, SpecOutcome;
    EvaluateTotal(id, request, bundle, authority, binding);
    EvaluateTotal(id, more, bundle, authority, binding);
    var d, e := Evaluate(id, request, bundle, authority, binding), Evaluate(id, more, bundle, authority, binding);
    var matched := MatchedRules(FlatRules(bundle.policies), d.evidence.rules);
    VerdictReads(StatusOf(d.evidence.applicability), BindingOf(d.evidence.binding), d.evidence.rules, e.evidence.rules, matched);
    GateExact(id, request, authority, binding);
    GateKept(id, request, more, authority, binding);
    MatchesKept(request, more, bundle);
  }
}
