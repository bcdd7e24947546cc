/** On constructor-valid bundles evaluation raises nothing, and its evidence keeps bundle and rule order. */
module EvaluatorTotal {
  import opened Wrappers
  import opened Ordering
  import opened Utf8
  import opened Domain
  import opened Applicability
  import opened Construction
  import opened Policies
  import opened Evaluator

  lemma {:induction false} ConditionTotal(request: AuthorizationRequest, c: Condition)
    requires ValidCondition(c)
    ensures EvaluateCondition(request, c).Some? && EvaluateCondition(request, c).value != NotEvaluated
  {
  }

  lemma {:induction false} ConditionResultsTotal(request: AuthorizationRequest, cs: seq<Condition>)
    requires forall c :: c in cs ==> ValidCondition(c)
    ensures ConditionResults(request, cs).Some?
  {
    if cs != [] {
      ConditionTotal(request, cs[0]);
      ConditionResultsTotal(request, cs[1..]);
    }
  }

  lemma {:induction false} ResultsKeyed(request: AuthorizationRequest, cs: seq<Condition>)
    requires (forall c :: c in cs ==> ValidCondition(c)) && Ascending(ByKey(ConditionKey), cs)
    requires ConditionResults(request, cs).Some?
    ensures KeysAscending(ConditionResults(request, cs).value) && NoBlankKey(ConditionResults(request, cs).value)
  {
    var rs := ConditionResults(request, cs).value;
    forall i, j | 0 <= i < j < |rs| ensures BytesLess(rs[i].0, rs[j].0) {
      var lt := ByKey(ConditionKey);
      assert lt(cs[i], cs[j]) == BytesLess(ConditionKey(cs[i]), ConditionKey(cs[j]));
    }
    forall i | 0 <= i < |rs| ensures !Blank(rs[i].0) {
      assert cs[i] in cs;
    }
  }

  /** A rule's evidence lists its conditions in the rule's own order. */
  lemma {:induction false} RuleTotal(request: AuthorizationRequest, policyId: string, rule: Rule)
    requires !Blank(policyId) && ValidRule(rule)
    ensures EvaluateRule(request, policyId, rule).Some?
    ensures var e := EvaluateRule(request, policyId, rule).value;
            && e.policyId == policyId && e.ruleId == rule.identifier && e.effect == rule.effect
            && ConditionResults(request, rule.conditions) == Some(e.results)
            && RuleStatusOf(e.results) == Some(e.status)
  {
    hide EvaluateCondition, ConditionResults;
    ConditionResultsTotal(request, rule.conditions);
    ResultsKeyed(request, rule.conditions);
    var rs := ConditionResults(request, rule.conditions).value;
    FieldsFixed<ConditionStatus>(rs);
    forall i | 0 <= i < |rs| ensures rs[i].1 != NotEvaluated {
      assert rule.conditions[i] in rule.conditions;
      ConditionTotal(request, rule.conditions[i]);
    }
    assert !HasResult(rs, NotEvaluated);
    if !HasResult(rs, Unsatisfied) && !HasResult(rs, MissingInput) && !HasResult(rs, ConditionError) {
      forall i | 0 <= i < |rs| ensures rs[i].1 == Satisfied {
      }
      assert AllSatisfied(rs);
    }
  }

  // ----- Rules of the whole bundle

  predicate PairLess(a: (string, Rule), b: (string, Rule)) {
    if a.0 != b.0 then BytesLess(a.0, b.0) else BytesLess(a.1.identifier, b.1.identifier)
  }

  ghost predicate InPolicies(policies: seq<Policy>, pair: (string, Rule)) {
    exists p :: p in policies && p.identifier == pair.0 && pair.1 in p.rules
  }

  lemma {:induction false} FlatMembers(policies: seq<Policy>)
    ensures forall pair :: pair in FlatRules(policies) <==> InPolicies(policies, pair)
  {
    if policies != [] {
      FlatMembers(policies[1..]);
      var first := policies[0];
      forall pair ensures pair in FlatRules(policies) <==> InPolicies(policies, pair) {
        if pair in RulesOf(first) {
          var k :| 0 <= k < |first.rules| && RulesOf(first)[k] == pair;
          assert first in policies && first.rules[k] in first.rules;
        }
        if InPolicies(policies[1..], pair) {
          var p :| p in policies[1..] && p.identifier == pair.0 && pair.1 in p.rules;
          assert p in policies;
        }
        if InPolicies(policies, pair) {
          var p :| p in policies && p.identifier == pair.0 && pair.1 in p.rules;
          if p == first {
            var k :| 0 <= k < |first.rules| && first.rules[k] == pair.1;
            assert RulesOf(first)[k] == pair;
          } else {
            assert p in policies[1..];
          }
        }
      }
    }
  }

  lemma {:induction false} FlatValid(bundle: PolicyBundle)
    requires ValidBundle(bundle)
    ensures forall pair :: pair in FlatRules(bundle.policies) ==> !Blank(pair.0) && ValidRule(pair.1)
  {
    FlatMembers(bundle.policies);
    forall pair | pair in FlatRules(bundle.policies) ensures !Blank(pair.0) && ValidRule(pair.1) {
      var p :| p in bundle.policies && p.identifier == pair.0 && pair.1 in p.rules;
      assert ValidPolicy(p);
    }
  }

  lemma {:induction false} RulesOfAscending(p: Policy)
    requires Ascending(ByKey(RuleKey), p.rules)
    ensures Ascending(PairLess, RulesOf(p))
  {
    var rs := RulesOf(p);
    var lt := ByKey(RuleKey);
    forall i, j | 0 <= i < j < |rs| ensures PairLess(rs[i], rs[j]) {
      assert lt(p.rules[i], p.rules[j]) == BytesLess(RuleKey(p.rules[i]), RuleKey(p.rules[j]));
    }
  }

  lemma {:induction false} FlatAscending(policies: seq<Policy>)
    requires (forall p :: p in policies ==> ValidPolicy(p)) && Ascending(ByKey(PolicyKey), policies)
    ensures Ascending(PairLess, FlatRules(policies))
  {
    if policies != [] {
      var head, tail := RulesOf(policies[0]), FlatRules(policies[1..]);
      FlatAscending(policies[1..]);
      assert policies[0] in policies;
      RulesOfAscending(policies[0]);
      FlatMembers(policies[1..]);
      forall i, j | 0 <= i < |head| && 0 <= j < |tail| ensures PairLess(head[i], tail[j]) {
        assert tail[j] in tail;
        var p :| p in policies[1..] && p.identifier == tail[j].0 && tail[j].1 in p.rules;
        FirstPolicyLess(policies, p);
      }
    }
  }

  lemma {:induction false} FirstPolicyLess(policies: seq<Policy>, p: Policy)
    requires policies != [] && Ascending(ByKey(PolicyKey), policies) && p in policies[1..]
    ensures BytesLess(policies[0].identifier, p.identifier) && policies[0].identifier != p.identifier
  {
    var k :| 0 <= k < |policies[1..]| && policies[1..][k] == p;
    var lt := ByKey(PolicyKey);
    assert lt(policies[0], policies[k + 1]) == BytesLess(PolicyKey(policies[0]), PolicyKey(p));
    LexIrreflexive(EncodeString(p.identifier));
  }

  lemma {:induction false} EvaluateRulesTotal(request: AuthorizationRequest, rules: seq<(string, Rule)>)
    requires forall pair :: pair in rules ==> !Blank(pair.0) && ValidRule(pair.1)
    ensures EvaluateRules(request, rules).Some?
  {
    if rules != [] {
      RuleTotal(request, rules[0].0, rules[0].1);
      EvaluateRulesTotal(request, rules[1..]);
    }
  }

  lemma {:induction false} EvaluationsAscending(request: AuthorizationRequest, rules: seq<(string, Rule)>)
    requires forall pair :: pair in rules ==> !Blank(pair.0) && ValidRule(pair.1)
    requires Ascending(PairLess, rules) && EvaluateRules(request, rules).Some?
    ensures Ascending(EvaluationLess, EvaluateRules(request, rules).value)
    ensures forall i :: 0 <= i < |rules| ==>
              var e := EvaluateRules(request, rules).value[i];
              e.policyId == rules[i].0 && e.ruleId == rules[i].1.identifier && e.effect == rules[i].1.effect
  {
    var es := EvaluateRules(request, rules).value;
    forall i | 0 <= i < |rules|
      ensures es[i].policyId == rules[i].0 && es[i].ruleId == rules[i].1.identifier && es[i].effect == rules[i].1.effect
    {
      assert rules[i] in rules;
      RuleTotal(request, rules[i].0, rules[i].1);
    }
    forall i, j | 0 <= i < j < |es| ensures EvaluationLess(es[i], es[j]) {
      assert PairLess(rules[i], rules[j]);
    }
  }

  lemma {:induction false} EvaluationLessStrict()
    ensures StrictOrder(EvaluationLess)
  {
    BytesLessStrict();
  }

  /** Evidence in bundle order passes the constructor's checks and is kept as it is. */
  lemma {:induction false} EvaluationsKept(es: seq<RuleEvaluation>)
    requires Ascending(EvaluationLess, es)
    ensures DistinctRules(es) && Sort(EvaluationLess, es) == es
  {
    EvaluationLessStrict();
    forall i, j | 0 <= i < j < |es|
      ensures es[i].policyId != es[j].policyId || es[i].ruleId != es[j].ruleId
      ensures !EvaluationLess(es[j], es[i])
    {
      assert EvaluationLess(es[i], es[j]);
      LexIrreflexive(EncodeString(es[i].ruleId));
      StrictAsymmetric(EvaluationLess, es[i], es[j]);
    }
    SortFixed(EvaluationLess, es);
  }

  // ----- Duplicate-free unions

  lemma {:induction false} ExtendUniqueUnion<T(!new)>(target: seq<T>, values: seq<T>)
    requires NoRepeats(target)
    ensures NoRepeats(ExtendUnique(target, values)) && target <= ExtendUnique(target, values)
    ensures forall x :: x in ExtendUnique(target, values) <==> x in target || x in values
    decreases values
  {
    if values != [] {
      var next := if values[0] in target then target else target + [values[0]];
      ExtendUniqueUnion(next, values[1..]);
      assert forall x :: x in values <==> x == values[0] || x in values[1..];
    }
  }

  lemma {:induction false} WithEffectMembers(rules: seq<Rule>, effects: set<Effect>)
    ensures forall r :: r in WithEffect(rules, effects) <==> r in rules && r.effect in effects
  {
    if rules != [] {
      WithEffectMembers(rules[1..], effects);
    }
  }

  lemma {:induction false} MatchedMembers(rules: seq<(string, Rule)>, evaluations: seq<RuleEvaluation>)
    requires |rules| == |evaluations|
    ensures forall r :: r in MatchedRules(rules, evaluations)
                        <==> exists i :: 0 <= i < |rules| && rules[i].1 == r && evaluations[i].status == Matched
  {
    if rules != [] {
      MatchedMembers(rules[1..], evaluations[1..]);
      forall r ensures r in MatchedRules(rules, evaluations)
                       <==> exists i :: 0 <= i < |rules| && rules[i].1 == r && evaluations[i].status == Matched
      {
        if r in MatchedRules(rules[1..], evaluations[1..]) {
          var i :| 0 <= i < |rules[1..]| && rules[1..][i].1 == r && evaluations[1..][i].status == Matched;
          assert rules[i + 1].1 == r && evaluations[i + 1].status == Matched;
        }
        if i :| 0 <= i < |rules| && rules[i].1 == r && evaluations[i].status == Matched {
          if i > 0 {
            assert rules[1..][i - 1].1 == r && evaluations[1..][i - 1].status == Matched;
          }
        }
      }
    }
  }

  lemma {:induction false} ApprovalsOfMembers(rules: seq<Rule>)
    ensures forall a :: a in ApprovalsOf(rules) <==> exists r :: r in rules && a in r.approvals
  {
    if rules != [] {
      ApprovalsOfMembers(rules[1..]);
      assert forall r :: r in rules <==> r == rules[0] || r in rules[1..];
    }
  }

  lemma {:induction false} ObligationsOfMembers(rules: seq<Rule>)
    ensures forall o :: o in ObligationsOf(rules) <==> exists r :: r in rules && o in r.obligations
  {
    if rules != [] {
      ObligationsOfMembers(rules[1..]);
      assert forall r :: r in rules <==> r == rules[0] || r in rules[1..];
    }
  }

  // ----- Totality

  /** Selected matched rules exist only when some evaluation matched. */
  lemma {:induction false} SelectionMatched(rules: seq<(string, Rule)>, evaluations: seq<RuleEvaluation>, effects: set<Effect>)
    requires |rules| == |evaluations|
    requires WithEffect(MatchedRules(rules, evaluations), effects) != []
    ensures HasStatusIn(evaluations, Matched)
  {
    var matched := MatchedRules(rules, evaluations);
    var selected := WithEffect(matched, effects);
    MatchedMembers(rules, evaluations);
    WithEffectMembers(matched, effects);
    assert selected[0] in selected && selected[0] in matched;
    var i :| 0 <= i < |rules| && rules[i].1 == selected[0] && evaluations[i].status == Matched;
  }

  lemma {:induction false} ApprovalsNonEmpty(rules: seq<(string, Rule)>, evaluations: seq<RuleEvaluation>)
    requires |rules| == |evaluations| && forall pair :: pair in rules ==> ValidRule(pair.1)
    requires WithEffect(MatchedRules(rules, evaluations), {ApprovalEffect}) != []
    ensures ExtendUnique([], ApprovalsOf(WithEffect(MatchedRules(rules, evaluations), {ApprovalEffect}))) != []
  {
    var matched := MatchedRules(rules, evaluations);
    var approving := WithEffect(matched, {ApprovalEffect});
    MatchedMembers(rules, evaluations);
    WithEffectMembers(matched, {ApprovalEffect});
    var r := approving[0];
    assert r in approving && r in matched;
    var i :| 0 <= i < |rules| && rules[i].1 == r && evaluations[i].status == Matched;
    assert rules[i] in rules;
    ApprovalsOfMembers(approving);
    var a := r.approvals[0];
    assert a in r.approvals;
    ExtendUniqueUnion([], ApprovalsOf(approving));
    assert a in ExtendUnique([], ApprovalsOf(approving));
  }

  lemma {:induction false} VerdictAccepted(
    applicability: Option<ApplicabilityStatus>, binding: Option<BindingStatus>,
    evaluations: seq<RuleEvaluation>, rules: seq<(string, Rule)>)
    requires |rules| == |evaluations|
    requires forall pair :: pair in rules ==> ValidRule(pair.1)
    ensures var v := Judge(applicability, binding, evaluations, MatchedRules(rules, evaluations));
            && NoRepeats(v.approvals)
            && (v.outcome == ApprovalRequired <==> v.approvals != [])
            && (v.outcome != Deny ==> HasStatusIn(evaluations, Matched) && binding == Some(Bound)
                                      && applicability == Some(Applicable))
  {
    hide ValidRule, MatchedRules, ExtendUnique, ApprovalsOf, ObligationsOf, WithEffect, HasStatusIn;
    var matched := MatchedRules(rules, evaluations);
    var approving := WithEffect(matched, {ApprovalEffect});
    ExtendUniqueUnion([], ApprovalsOf(approving));
    if approving != [] {
      SelectionMatched(rules, evaluations, {ApprovalEffect});
      ApprovalsNonEmpty(rules, evaluations);
    }
    if WithEffect(matched, {PermitEffect}) != [] {
      SelectionMatched(rules, evaluations, {PermitEffect});
    }
  }

  lemma {:induction false} EvaluationsSettled(request: AuthorizationRequest, bundle: PolicyBundle)
    requires ValidBundle(bundle)
    ensures var rules := FlatRules(bundle.policies);
            && (forall pair :: pair in rules ==> ValidRule(pair.1))
            && EvaluateRules(request, rules).Some?
            && DistinctRules(EvaluateRules(request, rules).value)
            && Sort(EvaluationLess, EvaluateRules(request, rules).value) == EvaluateRules(request, rules).value
  {
    var rules := FlatRules(bundle.policies);
    FlatValid(bundle);
    FlatAscending(bundle.policies);
    EvaluateRulesTotal(request, rules);
    EvaluationsAscending(request, rules);
    EvaluationsKept(EvaluateRules(request, rules).value);
  }

  lemma {:induction false} SameAuthority(
    id: Identity, request: AuthorizationRequest, authority: Option<VerifiedAuthority>,
    binding: Option<SubjectPrincipalBinding>)
    ensures var a, h := ApplicabilityOf(id, request, authority), HolderBinding(id, request, authority, binding);
            && (a.Some? ==> a.value.requestDigest == id(OfRequest(request)))
            && (h.Some? ==> h.value.requestDigest == id(OfRequest(request)) && a.Some?
                            && h.value.authorityDigest == a.value.authorityDigest
                            && h.value.grantId == a.value.grantId)
  {
  }

  lemma {:induction false} EvidenceTotal(
    id: Identity, request: AuthorizationRequest, bundle: PolicyBundle, authority: Option<VerifiedAuthority>,
    binding: Option<SubjectPrincipalBinding>, evaluations: seq<RuleEvaluation>)
    requires DistinctRules(evaluations) && Sort(EvaluationLess, evaluations) == evaluations
    ensures var a, h := ApplicabilityOf(id, request, authority), HolderBinding(id, request, authority, binding);
            MakeEvidence(id(OfBundle(bundle)), id(OfRequest(request)), evaluations, a, h)
            == Some(DecisionEvidence(id(OfBundle(bundle)), id(OfRequest(request)), evaluations, a, h))
  {
    SameAuthority(id, request, authority, binding);
  }

  lemma {:induction false} DecisionTotal(
    outcome: Outcome, reason: Reason, evidence: DecisionEvidence, obligations: seq<Obligation>,
    approvals: seq<ApprovalRequirement>)
    requires NoRepeats(approvals) && (outcome == ApprovalRequired <==> approvals != [])
    requires outcome != Deny ==> HasStatusIn(evidence.rules, Matched) && BindingOf(evidence.binding) == Some(Bound)
                                 && StatusOf(evidence.applicability) == Some(Applicable)
    ensures MakeDecision(outcome, [reason], evidence, obligations, approvals)
            == Some(Decision(outcome, [reason], evidence, obligations, Sort(RequirementLess, approvals)))
  {
    hide RequirementLess;
    assert |Sort(RequirementLess, approvals)| == |approvals|;
  }

  lemma {:induction false} AuthorityEvidenceTotal(
    id: Identity, request: AuthorizationRequest, authority: Option<VerifiedAuthority>,
    binding: Option<SubjectPrincipalBinding>)
    ensures TryApplicabilityOf(id, request, authority) == Some(ApplicabilityOf(id, request, authority))
    ensures TryHolderBinding(id, request, authority, binding) == Some(HolderBinding(id, request, authority, binding))
  {
    hide CheckApplicability, CheckBinding, TryApplicability, TryBinding;
    if authority.Some? {
      ApplicabilityTotal(id, request, authority.value);
    }
  }

  /** Evaluation never raises, and the decision is the verdict with its approvals in canonical order. */
  lemma {:induction false} EvaluateTotal(
    id: Identity, request: AuthorizationRequest, bundle: PolicyBundle,
    authority: Option<VerifiedAuthority>, binding: Option<SubjectPrincipalBinding>)
    requires ValidBundle(bundle)
    ensures TryEvaluate(id, request, bundle, authority, binding).Some?
    ensures var rules := FlatRules(bundle.policies);
            var d := TryEvaluate(id, request, bundle, authority, binding).value;
            && EvaluateRules(request, rules) == Some(d.evidence.rules)
            && d.evidence.bundleDigest == id(OfBundle(bundle)) && d.evidence.requestDigest == id(OfRequest(request))
            && d.evidence.applicability == ApplicabilityOf(id, request, authority)
            && d.evidence.binding == HolderBinding(id, request, authority, binding)
            && var v := Judge(StatusOf(d.evidence.applicability), BindingOf(d.evidence.binding), d.evidence.rules,
                              MatchedRules(rules, d.evidence.rules));
               d.outcome == v.outcome && d.obligations == v.obligations && d.reasons == [Reason(CodeText(v.code), "")]
               && d.approvals == Sort(RequirementLess, v.approvals)
  {
    hide ValidBundle, ValidRule, FlatRules, Judge, CodeText, CheckApplicability, CheckBinding, MatchedRules;
    hide EvaluateRules, RequirementLess, MakeEvidence, MakeDecision, TryApplicabilityOf, TryHolderBinding;
    var rules := FlatRules(bundle.policies);
    EvaluationsSettled(request, bundle);
    var evaluations := EvaluateRules(request, rules).value;
    var applicability := ApplicabilityOf(id, request, authority);
    var holder := HolderBinding(id, request, authority, binding);
    AuthorityEvidenceTotal(id, request, authority, binding);
    EvidenceTotal(id, request, bundle, authority, binding, evaluations);
    VerdictAccepted(StatusOf(applicability), BindingOf(holder), evaluations, rules);
    var v := Judge(StatusOf(applicability), BindingOf(holder), evaluations, MatchedRules(rules, evaluations));
    var evidence := DecisionEvidence(id(OfBundle(bundle)), id(OfRequest(request)), evaluations, applicability, holder);
    DecisionTotal(v.outcome, Reason(CodeText(v.code), ""), evidence, v.obligations, v.approvals);
  }

  /** `evaluate` on the bundles that exist. */
  function Evaluate(id: Identity, request: AuthorizationRequest, bundle: PolicyBundle,
                    authority: Option<VerifiedAuthority>, binding: Option<SubjectPrincipalBinding>): Decision
    requires ValidBundle(bundle)
  {
    EvaluateTotal(id, request, bundle, authority, binding);
    TryEvaluate(id, request, bundle, authority, binding).value
  }
}
