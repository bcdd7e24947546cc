/**
  One request against one policy bundle, gated by validated authority (evaluator.py). `None`
  stands for an `EvaluationError` or a constructor's `ValueError`.
  */
module Evaluator {
  import opened Wrappers
  import opened Ordering
  import opened Utf8
  import opened Domain
  import opened Applicability
  import opened Construction

  // ----- Conditions

  /** Whether the field is present, its value, and a status that settles the condition at once. */
  datatype Resolution = Resolution(present: bool, value: Scalar, settled: Option<ConditionStatus>)

  function Found(o: Option<Scalar>): Resolution {
    Resolution(o.Some?, o.GetOr(NoValue), None)
  }

  function ResolveField(request: AuthorizationRequest, reference: FieldReference): Resolution {
    match reference.namespace
    case SubjectFields =>
      if reference.name != "identifier" then Resolution(false, NoValue, Some(ConditionError))
      else Resolution(true, Words(request.subject.identifier), None)
    case ActionFields =>
      if reference.name != "name" then Resolution(false, NoValue, Some(ConditionError))
      else Resolution(true, Words(request.action.name), None)
    case ResourceFields =>
      if reference.name != "identifier" then Resolution(false, NoValue, Some(ConditionError))
      else Resolution(true, Words(request.resource.identifier), None)
    case ContextFields => Found(Lookup(request.context.attributes, reference.name))
    case AuthorityFields =>
      if request.authorityContext.None? then Resolution(false, NoValue, Some(MissingInput))
      else if reference.name == "identifier" then
        Resolution(true, Words(request.authorityContext.value.identifier), None)
      else Found(Lookup(request.authorityContext.value.attributes, reference.name))
  }

  predicate SameType(a: Scalar, b: Scalar) {
    a.Words? == b.Words? && a.Number? == b.Number? && a.Flag? == b.Flag?
  }

  function Holds(b: bool): ConditionStatus {
    if b then Satisfied else Unsatisfied
  }

  function EvaluateCondition(request: AuthorizationRequest, c: Condition): Option<ConditionStatus> {
    var field := ResolveField(request, c.field);
    if field.settled.Some? then field.settled
    else if c.operator.Exists? then Some(Holds(field.present))
    else if !field.present then Some(MissingInput)
    else if c.operator.Equals? || c.operator.NotEquals? then
      if !SameType(field.value, c.value) then Some(ConditionError)
      else Some(Holds((field.value == c.value) == c.operator.Equals?))
    else if !field.value.Number? then Some(ConditionError)
    else if !c.value.Number? then None
    else
      var actual, expected := field.value.n, c.value.n;
      match c.operator
      case LessThan => Some(Holds(actual < expected))
      case LessThanOrEqual => Some(Holds(actual <= expected))
      case GreaterThan => Some(Holds(actual > expected))
      case GreaterThanOrEqual => Some(Holds(actual >= expected))
      case _ => None
  }

  // ----- Rules

  predicate HasResult(results: seq<(string, ConditionStatus)>, status: ConditionStatus) {
    exists i :: 0 <= i < |results| && results[i].1 == status
  }

  predicate AllSatisfied(results: seq<(string, ConditionStatus)>) {
    forall i :: 0 <= i < |results| ==> results[i].1 == Satisfied
  }

  function RuleStatusOf(results: seq<(string, ConditionStatus)>): Option<RuleStatus> {
    if HasResult(results, Unsatisfied) then Some(NotMatched)
    else if HasResult(results, MissingInput) || HasResult(results, ConditionError) then Some(Indeterminate)
    else if AllSatisfied(results) then Some(Matched)
    else None
  }

  /** The constructor re-derives the status from the results it is given. */
  function MakeRuleEvaluation(policyId: string, ruleId: string, effect: Effect, status: RuleStatus,
                              results: seq<(string, ConditionStatus)>): Option<RuleEvaluation>
  {
    if Blank(policyId) || Blank(ruleId) then None
    else
      var sorted :- CanonicalFields(results);
      if sorted == [] || HasResult(sorted, NotEvaluated) then None
      else
        var expected :=
          if HasResult(sorted, Unsatisfied) then NotMatched
          else if HasResult(sorted, MissingInput) || HasResult(sorted, ConditionError) then Indeterminate
          else Matched;
        if status != expected then None
        else Some(RuleEvaluation(policyId, ruleId, effect, status, sorted))
  }

  function ConditionResults(request: AuthorizationRequest, cs: seq<Condition>): (r: Option<seq<(string, ConditionStatus)>>)
    ensures r.Some? ==> |r.value| == |cs|
    ensures r.Some? ==> forall i :: 0 <= i < |cs| ==>
              r.value[i].0 == cs[i].identifier && EvaluateCondition(request, cs[i]) == Some(r.value[i].1)
  {
    if cs == [] then Some([])
    else
      var status :- EvaluateCondition(request, cs[0]);
      var rest :- ConditionResults(request, cs[1..]);
      Some([(cs[0].identifier, status)] + rest)
  }

  function EvaluateRule(request: AuthorizationRequest, policyId: string, rule: Rule): Option<RuleEvaluation> {
    var results :- ConditionResults(request, rule.conditions);
    var status :- RuleStatusOf(results);
    MakeRuleEvaluation(policyId, rule.identifier, rule.effect, status, results)
  }

  /** The rules of a bundle with their policy identifiers, in bundle order. */
  function FlatRules(policies: seq<Policy>): seq<(string, Rule)> {
    if policies == [] then []
    else RulesOf(policies[0]) + FlatRules(policies[1..])
  }

  function RulesOf(p: Policy): (r: seq<(string, Rule)>)
    ensures |r| == |p.rules|
  {
    seq(|p.rules|, i requires 0 <= i < |p.rules| => (p.identifier, p.rules[i]))
  }

  function EvaluateRules(request: AuthorizationRequest, rules: seq<(string, Rule)>): (r: Option<seq<RuleEvaluation>>)
    ensures r.Some? ==> |r.value| == |rules|
    ensures r.Some? ==> forall i :: 0 <= i < |rules| ==>
              EvaluateRule(request, rules[i].0, rules[i].1) == Some(r.value[i])
  {
    if rules == [] then Some([])
    else
      var first :- EvaluateRule(request, rules[0].0, rules[0].1);
      var rest :- EvaluateRules(request, rules[1..]);
      Some([first] + rest)
  }

  /** The rules whose evaluation matched, in bundle order. */
  function MatchedRules(rules: seq<(string, Rule)>, evaluations: seq<RuleEvaluation>): seq<Rule>
    requires |rules| == |evaluations|
  {
    if rules == [] then []
    else (if evaluations[0].status == Matched then [rules[0].1] else []) + MatchedRules(rules[1..], evaluations[1..])
  }

  function WithEffect(rules: seq<Rule>, effects: set<Effect>): seq<Rule> {
    if rules == [] then []
    else (if rules[0].effect in effects then [rules[0]] else []) + WithEffect(rules[1..], effects)
  }

  // ----- Obligations and approvals

  /** Append each value the target does not hold yet. */
  function ExtendUnique<T(==)>(target: seq<T>, values: seq<T>): seq<T>
    decreases values
  {
    if values == [] then target
    else ExtendUnique(if values[0] in target then target else target + [values[0]], values[1..])
  }

  function ObligationsOf(rules: seq<Rule>): seq<Obligation> {
    if rules == [] then [] else rules[0].obligations + ObligationsOf(rules[1..])
  }

  function ApprovalsOf(rules: seq<Rule>): seq<ApprovalRequirement> {
    if rules == [] then [] else rules[0].approvals + ApprovalsOf(rules[1..])
  }

  method ExtendUniqueLoop(target: seq<Obligation>, values: seq<Obligation>) returns (r: seq<Obligation>)
    ensures r == ExtendUnique(target, values)
  {
    r := target;
    for i := 0 to |values|
      invariant ExtendUnique(target, values) == ExtendUnique(r, values[i..])
    {
      if values[i] !in r {
        r := r + [values[i]];
      }
      assert values[i..][1..] == values[i + 1..];
    }
  }

  // ----- The decision

  predicate EvaluationLess(a: RuleEvaluation, b: RuleEvaluation) {
    if a.policyId != b.policyId then BytesLess(a.policyId, b.policyId) else BytesLess(a.ruleId, b.ruleId)
  }

  predicate DistinctRules(es: seq<RuleEvaluation>) {
    forall i, j :: 0 <= i < j < |es| ==> es[i].policyId != es[j].policyId || es[i].ruleId != es[j].ruleId
  }

  function MakeEvidence(bundleDigest: Digest, requestDigest: Digest, rules: seq<RuleEvaluation>,
                        applicability: Option<ApplicabilityResult>, binding: Option<BindingResult>)
    : Option<DecisionEvidence>
  {
    if applicability.Some? && applicability.value.requestDigest != requestDigest then None
    else if binding.Some? && binding.value.requestDigest != requestDigest then None
    else if applicability.Some? && binding.Some?
            && (binding.value.authorityDigest != applicability.value.authorityDigest
                || binding.value.grantId != applicability.value.grantId) then None
    else if !DistinctRules(rules) then None
    else Some(DecisionEvidence(bundleDigest, requestDigest, Sort(EvaluationLess, rules), applicability, binding))
  }

  predicate HasStatusIn(es: seq<RuleEvaluation>, status: RuleStatus) {
    exists i :: 0 <= i < |es| && es[i].status == status
  }

  function MakeDecision(outcome: Outcome, reasons: seq<Reason>, evidence: DecisionEvidence,
                        obligations: seq<Obligation>, requirements: seq<ApprovalRequirement>): Option<Decision>
  {
    if reasons == [] then None
    else
      var approvals :- CanonicalRequirements(requirements);
      if (outcome == ApprovalRequired) != (approvals != []) then None
      else if outcome != Deny && !HasStatusIn(evidence.rules, Matched) then None
      else if outcome != Deny && (evidence.binding.None? || evidence.binding.value.status != Bound) then None
      else if outcome != Deny
              && (evidence.applicability.None? || evidence.applicability.value.status != Applicable) then None
      else Some(Decision(outcome, reasons, evidence, obligations, approvals))
  }

  datatype ReasonCode =
    | AuthorityRequired
    | BindingRequired
    | HolderMismatch(binding: BindingStatus)
    | NotApplicable(applicability: ApplicabilityStatus)
    | IndeterminateRule
    | DenyRuleMatched
    | ApprovalNeeded
    | PermitRuleMatched
    | NoMatchingRule

  function CodeText(c: ReasonCode): string {
    match c
    case AuthorityRequired => "VALIDATED_AUTHORITY_REQUIRED"
    case BindingRequired => "SUBJECT_PRINCIPAL_BINDING_REQUIRED"
    case HolderMismatch(b) => "HOLDER_" + BindingStatusText(b)
    case NotApplicable(a) => "AUTHORITY_" + ApplicabilityStatusText(a)
    case IndeterminateRule => "INDETERMINATE_RULE"
    case DenyRuleMatched => "DENY_RULE_MATCHED"
    case ApprovalNeeded => "APPROVAL_REQUIRED"
    case PermitRuleMatched => "PERMIT_RULE_MATCHED"
    case NoMatchingRule => "NO_MATCHING_RULE"
  }

  datatype Verdict = Verdict(
    outcome: Outcome, code: ReasonCode, obligations: seq<Obligation>, approvals: seq<ApprovalRequirement>)

  function Denied(code: ReasonCode): Verdict { Verdict(Deny, code, [], []) }

  /** The gates, then deny-overrides over the matched rules. */
  function Judge(applicability: Option<ApplicabilityStatus>, binding: Option<BindingStatus>,
                 evaluations: seq<RuleEvaluation>, matched: seq<Rule>): Verdict
  {
    var approvalRules := WithEffect(matched, {ApprovalEffect});
    var permitRules := WithEffect(matched, {PermitEffect});
    if applicability.None? then Denied(AuthorityRequired)
    else if binding.None? then Denied(BindingRequired)
    else if binding.value != Bound then Denied(HolderMismatch(binding.value))
    else if applicability.value != Applicable then Denied(NotApplicable(applicability.value))
    else if HasStatusIn(evaluations, Indeterminate) then Denied(IndeterminateRule)
    else if WithEffect(matched, {DenyEffect}) != [] then Denied(DenyRuleMatched)
    else if approvalRules != [] then
      Verdict(ApprovalRequired, ApprovalNeeded,
              ExtendUnique([], ObligationsOf(WithEffect(matched, {PermitEffect, ApprovalEffect}))),
              ExtendUnique([], ApprovalsOf(approvalRules)))
    else if permitRules != [] then
      Verdict(Permit, PermitRuleMatched, ExtendUnique([], ObligationsOf(permitRules)), [])
    else Denied(NoMatchingRule)
  }

  function ApplicabilityOf(id: Identity, request: AuthorizationRequest, authority: Option<VerifiedAuthority>)
    : Option<ApplicabilityResult>
  {
    if authority.None? then None else Some(CheckApplicability(id, request, authority.value))
  }

  function HolderBinding(id: Identity, request: AuthorizationRequest, authority: Option<VerifiedAuthority>,
                         binding: Option<SubjectPrincipalBinding>): Option<BindingResult>
  {
    if authority.None? || binding.None? then None
    else Some(CheckBinding(id, request, binding.value, authority.value))
  }

  /** The same two with their constructors: `None` stands for a constructor's error. */
  function TryApplicabilityOf(id: Identity, request: AuthorizationRequest, authority: Option<VerifiedAuthority>)
    : Option<Option<ApplicabilityResult>>
  {
    if authority.None? then Some(None)
    else
      var result :- TryApplicability(id, request, authority.value);
      Some(Some(result))
  }

  function TryHolderBinding(id: Identity, request: AuthorizationRequest, authority: Option<VerifiedAuthority>,
                            binding: Option<SubjectPrincipalBinding>): Option<Option<BindingResult>>
  {
    if authority.None? || binding.None? then Some(None)
    else
      var result :- TryBinding(id, request, binding.value, authority.value);
      Some(Some(result))
  }

  function StatusOf(a: Option<ApplicabilityResult>): Option<ApplicabilityStatus> {
    if a.None? then None else Some(a.value.status)
  }

  function BindingOf(b: Option<BindingResult>): Option<BindingStatus> {
    if b.None? then None else Some(b.value.status)
  }

  /** `evaluate`, with every constructor check. */
  function TryEvaluate(id: Identity, request: AuthorizationRequest, bundle: PolicyBundle,
                       authority: Option<VerifiedAuthority>, binding: Option<SubjectPrincipalBinding>)
    : Option<Decision>
  {
    var rules := FlatRules(bundle.policies);
    var applicability :- TryApplicabilityOf(id, request, authority);
    var holder :- TryHolderBinding(id, request, authority, binding);
    var evaluations :- EvaluateRules(request, rules);
    var evidence :- MakeEvidence(id(OfBundle(bundle)), id(OfRequest(request)), evaluations, applicability, holder);
    var verdict := Judge(StatusOf(applicability), BindingOf(holder), evaluations, MatchedRules(rules, evaluations));
    MakeDecision(verdict.outcome, [Reason(CodeText(verdict.code), "")], evidence, verdict.obligations, verdict.approvals)
  }
}
