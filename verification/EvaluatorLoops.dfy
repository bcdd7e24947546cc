/** `evaluate` as the program runs it: its loops over policies, rules and duties (evaluator.py:172-312). */
module EvaluatorLoops {
  import opened Wrappers
  import opened Domain
  import opened Evaluator

  // ----- The rules

  /** What the loops have collected after the rules in `done`. */
  ghost predicate Collected(request: AuthorizationRequest, done: seq<(string, Rule)>,
                            evaluations: seq<RuleEvaluation>, matched: seq<Rule>)
  {
    && EvaluateRules(request, done) == Some(evaluations)
    && matched == MatchedRules(done, evaluations)
  }

  lemma {:induction false} CollectedNext(
    request: AuthorizationRequest, done: seq<(string, Rule)>, evaluations: seq<RuleEvaluation>, matched: seq<Rule>,
    pair: (string, Rule), e: RuleEvaluation)
    requires Collected(request, done, evaluations, matched) && EvaluateRule(request, pair.0, pair.1) == Some(e)
    ensures Collected(request, done + [pair], evaluations + [e], matched + if e.status == Matched then [pair.1] else [])
  {
    hide EvaluateRule;
    EvaluateRulesSnoc(request, done, pair);
    MatchedSnoc(done, evaluations, pair, e);
  }

  lemma {:induction false} CollectedStops(
    request: AuthorizationRequest, done: seq<(string, Rule)>, pair: (string, Rule), rest: seq<(string, Rule)>)
    requires EvaluateRules(request, done).Some? && EvaluateRule(request, pair.0, pair.1).None?
    ensures EvaluateRules(request, done + ([pair] + rest)).None?
  {
    hide EvaluateRule;
    EvaluateRulesSnoc(request, done, pair);
    EvaluateRulesPrefix(request, done + [pair], rest);
    assert done + [pair] + rest == done + ([pair] + rest);
  }

  /** The inner loop: one policy's rules, appended to what is already collected. */
  method EvaluatePolicy(request: AuthorizationRequest, policy: Policy, evaluations: seq<RuleEvaluation>,
                        matched: seq<Rule>, ghost done: seq<(string, Rule)>, ghost rest: seq<(string, Rule)>)
    returns (r: Option<(seq<RuleEvaluation>, seq<Rule>)>)
    requires Collected(request, done, evaluations, matched)
    ensures r.None? ==> EvaluateRules(request, done + (RulesOf(policy) + rest)).None?
    ensures r.Some? ==> Collected(request, done + RulesOf(policy), r.value.0, r.value.1)
  {
    hide EvaluateRule, EvaluateRules, MatchedRules;
    var es, ms := evaluations, matched;
    ghost var all := RulesOf(policy);
    assert done + all[..0] == done;
    for k := 0 to |policy.rules|
      invariant Collected(request, done + all[..k], es, ms)
    {
      var rule := policy.rules[k];
      var evaluation := EvaluateRule(request, policy.identifier, rule);
      if evaluation.None? {
        CollectedStops(request, done + all[..k], all[k], all[k + 1..] + rest);
        assert done + all[..k] + ([all[k]] + (all[k + 1..] + rest)) == done + (all + rest);
        return None;
      }
      CollectedNext(request, done + all[..k], es, ms, all[k], evaluation.value);
      assert done + all[..k] + [all[k]] == done + all[..k + 1];
      es := es + [evaluation.value];
      if evaluation.value.status == Matched {
        ms := ms + [rule];
      } else {
        assert ms + [] == ms;
      }
    }
    assert all[..|all|] == all;
    return Some((es, ms));
  }

  /** The outer loop over policies, collecting every evaluation and every matched rule. */
  method EvaluatePolicies(request: AuthorizationRequest, policies: seq<Policy>)
    returns (r: Option<(seq<RuleEvaluation>, seq<Rule>)>)
    ensures r.None? <==> EvaluateRules(request, FlatRules(policies)).None?
    ensures r.Some? ==> EvaluateRules(request, FlatRules(policies)) == Some(r.value.0)
    ensures r.Some? ==> |r.value.0| == |FlatRules(policies)| && r.value.1 == MatchedRules(FlatRules(policies), r.value.0)
  {
    hide EvaluateRule, EvaluateRules, MatchedRules, RulesOf;
    var evaluations: seq<RuleEvaluation> := [];
    var matched: seq<Rule> := [];
    ghost var done: seq<(string, Rule)> := [];
    NothingCollected(request);
    for p := 0 to |policies|
      invariant FlatRules(policies) == done + FlatRules(policies[p..])
      invariant Collected(request, done, evaluations, matched)
    {
      ghost var rest := FlatRules(policies[p + 1..]);
      assert policies[p..][1..] == policies[p + 1..];
      var next := EvaluatePolicy(request, policies[p], evaluations, matched, done, rest);
      if next.None? {
        return None;
      }
      evaluations, matched := next.value.0, next.value.1;
      assert done + (RulesOf(policies[p]) + rest) == done + RulesOf(policies[p]) + rest;
      done := done + RulesOf(policies[p]);
    }
    assert policies[|policies|..] == [] && done + [] == done;
    return Some((evaluations, matched));
  }

  lemma {:induction false} NothingCollected(request: AuthorizationRequest)
    ensures Collected(request, [], [], [])
  {
  }

  lemma {:induction false} EvaluateRulesSnoc(request: AuthorizationRequest, rules: seq<(string, Rule)>, pair: (string, Rule))
    requires EvaluateRules(request, rules).Some?
    ensures var last := EvaluateRule(request, pair.0, pair.1);
            EvaluateRules(request, rules + [pair])
            == if last.None? then None else Some(EvaluateRules(request, rules).value + [last.value])
  {
    hide EvaluateRule;
    var last := EvaluateRule(request, pair.0, pair.1);
    if rules == [] {
      assert rules + [pair] == [pair] && [pair][1..] == [];
      assert EvaluateRules(request, []) == Some([]);
      if last.Some? {
        assert [last.value] + [] == [] + [last.value];
      }
    } else {
      EvaluateRulesSnoc(request, rules[1..], pair);
      assert (rules + [pair])[0] == rules[0] && (rules + [pair])[1..] == rules[1..] + [pair];
      if last.Some? {
        var first, rest := EvaluateRule(request, rules[0].0, rules[0].1).value, EvaluateRules(request, rules[1..]).value;
        assert [first] + (rest + [last.value]) == [first] + rest + [last.value];
      }
    }
  }

  lemma {:induction false} EvaluateRulesPrefix(request: AuthorizationRequest, rules: seq<(string, Rule)>, more: seq<(string, Rule)>)
    requires EvaluateRules(request, rules).None?
    ensures EvaluateRules(request, rules + more).None?
  {
    hide EvaluateRule;
    if EvaluateRule(request, rules[0].0, rules[0].1).Some? {
      EvaluateRulesPrefix(request, rules[1..], more);
      assert (rules + more)[1..] == rules[1..] + more;
    }
  }

  lemma {:induction false} MatchedSnoc(rules: seq<(string, Rule)>, es: seq<RuleEvaluation>, pair: (string, Rule), e: RuleEvaluation)
    requires |rules| == |es|
    ensures MatchedRules(rules + [pair], es + [e])
            == MatchedRules(rules, es) + if e.status == Matched then [pair.1] else []
  {
    if rules != [] {
      MatchedSnoc(rules[1..], es[1..], pair, e);
      assert (rules + [pair])[1..] == rules[1..] + [pair] && (es + [e])[1..] == es[1..] + [e];
    } else {
      assert [] + [pair] == [pair] && es + [e] == [e];
    }
  }

  // ----- The duties

  lemma {:induction false} ExtendUniqueConcat<T>(target: seq<T>, a: seq<T>, b: seq<T>)
    ensures ExtendUnique(target, a + b) == ExtendUnique(ExtendUnique(target, a), b)
    decreases |a|
  {
    if a == [] {
      assert a + b == b;
    } else {
      var next := if a[0] in target then target else target + [a[0]];
      ExtendUniqueConcat(next, a[1..], b);
      assert (a + b)[1..] == a[1..] + b;
    }
  }

  lemma {:induction false} WithEffectTwice(rules: seq<Rule>, effects: set<Effect>)
    ensures WithEffect(WithEffect(rules, effects), effects) == WithEffect(rules, effects)
  {
    if rules != [] {
      WithEffectTwice(rules[1..], effects);
      if rules[0].effect in effects {
        assert WithEffect(rules, effects)[1..] == WithEffect(rules[1..], effects);
      } else {
        assert WithEffect(rules, effects) == WithEffect(rules[1..], effects);
      }
    }
  }

  /** One loop over rules, extending the obligations by those of the rules with a contributing effect. */
  method CollectObligations(rules: seq<Rule>, effects: set<Effect>) returns (obligations: seq<Obligation>)
    ensures obligations == ExtendUnique([], ObligationsOf(WithEffect(rules, effects)))
  {
    hide ExtendUnique;
    obligations := [];
    for i := 0 to |rules|
      invariant ExtendUnique([], ObligationsOf(WithEffect(rules, effects)))
                == ExtendUnique(obligations, ObligationsOf(WithEffect(rules[i..], effects)))
    {
      var rule := rules[i];
      assert rules[i..][1..] == rules[i + 1..];
      if rule.effect in effects {
        ghost var rest := WithEffect(rules[i + 1..], effects);
        assert WithEffect(rules[i..], effects)[1..] == rest;
        ExtendUniqueConcat(obligations, rule.obligations, ObligationsOf(rest));
        obligations := ExtendUniqueLoop(obligations, rule.obligations);
      } else {
        assert WithEffect(rules[i..], effects) == WithEffect(rules[i + 1..], effects);
      }
    }
    assert WithEffect(rules[|rules|..], effects) == [];
    assert ExtendUnique(obligations, []) == obligations by {
      NothingAdded(obligations);
    }
  }

  lemma {:induction false} NothingAdded<T>(target: seq<T>)
    ensures ExtendUnique(target, []) == target
  {
  }

  /** The nested loops over the approval rules and their requirements. */
  method CollectApprovals(rules: seq<Rule>) returns (approvals: seq<ApprovalRequirement>)
    ensures approvals == ExtendUnique([], ApprovalsOf(rules))
  {
    approvals := [];
    for i := 0 to |rules|
      invariant ExtendUnique([], ApprovalsOf(rules)) == ExtendUnique(approvals, ApprovalsOf(rules[i..]))
    {
      var requirements := rules[i].approvals;
      ghost var rest := ApprovalsOf(rules[i + 1..]);
      assert rules[i..][1..] == rules[i + 1..];
      assert requirements[0..] == requirements;
      for k := 0 to |requirements|
        invariant ExtendUnique([], ApprovalsOf(rules)) == ExtendUnique(approvals, requirements[k..] + rest)
      {
        var requirement := requirements[k];
        assert (requirements[k..] + rest)[1..] == requirements[k + 1..] + rest;
        if requirement !in approvals {
          approvals := approvals + [requirement];
        }
      }
      assert requirements[|requirements|..] + rest == rest;
    }
  }

  // ----- The whole

  /** What the final `Decision(...)` of a branch amounts to. */
  function Concluded(code: string, outcome: Outcome, evidence: DecisionEvidence, obligations: seq<Obligation>,
                     approvals: seq<ApprovalRequirement>): Option<Decision>
  {
    MakeDecision(outcome, [Reason(code, "")], evidence, obligations, approvals)
  }

  /** `evaluate`, one loop and one early return after another. */
  method EvaluateRequest(id: Identity, request: AuthorizationRequest, bundle: PolicyBundle,
                         authority: Option<VerifiedAuthority>, binding: Option<SubjectPrincipalBinding>)
    returns (r: Option<Decision>)
    ensures r == TryEvaluate(id, request, bundle, authority, binding)
  {
    hide TryApplicabilityOf, TryHolderBinding, EvaluateRules, FlatRules, MatchedRules, MakeEvidence, MakeDecision;
    hide WithEffect, ExtendUnique, ObligationsOf, ApprovalsOf, HasStatusIn;
    var checked := TryApplicabilityOf(id, request, authority);
    if checked.None? {
      return None;
    }
    var bound := TryHolderBinding(id, request, authority, binding);
    if bound.None? {
      return None;
    }
    var collected := EvaluatePolicies(request, bundle.policies);
    if collected.None? {
      return None;
    }
    var (evaluations, matched) := collected.value;
    var made := MakeEvidence(id(OfBundle(bundle)), id(OfRequest(request)), evaluations, checked.value, bound.value);
    if made.None? {
      return None;
    }
    var evidence := made.value;
    var applicability, holder := checked.value, bound.value;
    var approvalRules := WithEffect(matched, {ApprovalEffect});
    var permitRules := WithEffect(matched, {PermitEffect});
    if applicability.None? {
      return Concluded("VALIDATED_AUTHORITY_REQUIRED", Deny, evidence, [], []);
    }
    if holder.None? {
      return Concluded("SUBJECT_PRINCIPAL_BINDING_REQUIRED", Deny, evidence, [], []);
    }
    if holder.value.status != Bound {
      return Concluded("HOLDER_" + BindingStatusText(holder.value.status), Deny, evidence, [], []);
    }
    if applicability.value.status != Applicable {
      return Concluded("AUTHORITY_" + ApplicabilityStatusText(applicability.value.status), Deny, evidence, [], []);
    }
    if HasStatusIn(evaluations, Indeterminate) {
      return Concluded("INDETERMINATE_RULE", Deny, evidence, [], []);
    }
    if WithEffect(matched, {DenyEffect}) != [] {
      return Concluded("DENY_RULE_MATCHED", Deny, evidence, [], []);
    }
    if approvalRules != [] {
      var obligations := CollectObligations(matched, {PermitEffect, ApprovalEffect});
      var approvals := CollectApprovals(approvalRules);
      return Concluded("APPROVAL_REQUIRED", ApprovalRequired, evidence, obligations, approvals);
    }
    if permitRules != [] {
      var obligations := CollectObligations(permitRules, {PermitEffect});
      WithEffectTwice(matched, {PermitEffect});
      return Concluded("PERMIT_RULE_MATCHED", Permit, evidence, obligations, []);
    }
    return Concluded("NO_MATCHING_RULE", Deny, evidence, [], []);
  }
}
