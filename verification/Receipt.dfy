/** The receipt that binds a decision to everything it was taken on (receipt.py, domain.py:2490-2613). */
module Receipt {
  import opened Wrappers
  import opened Ordering
  import opened Domain
  import opened Construction
  import opened Policies
  import opened Evaluator
  import opened EvaluatorTotal

  function FromEvaluation(
    requestDigest: Digest, bundleDigest: Digest, authorityDigest: Option<Digest>, chainDigest: Option<Digest>,
    stateDigest: Option<Digest>, bindingDigest: Option<Digest>, applicabilityDigest: Option<Digest>,
    decisionDigest: Digest, outcome: Outcome, requirements: seq<ApprovalRequirement>): Option<DecisionReceipt>
  {
    var approvals :- CanonicalRequirements(requirements);
    if (outcome == ApprovalRequired) != (approvals != []) then None
    else if bindingDigest.Some? && authorityDigest.None? then None
    else if applicabilityDigest.Some? && (authorityDigest.None? || chainDigest.None? || stateDigest.None?) then None
    else if outcome != Deny
            && (authorityDigest.None? || chainDigest.None? || stateDigest.None? || bindingDigest.None?
                || applicabilityDigest.None?) then None
    else Some(DecisionReceipt(requestDigest, bundleDigest, authorityDigest, chainDigest, stateDigest, bindingDigest,
                              applicabilityDigest, decisionDigest, outcome, approvals))
  }

  /** `create_decision_receipt`. */
  function TryReceipt(id: Identity, d: Decision): Option<DecisionReceipt> {
    var a, b := d.evidence.applicability, d.evidence.binding;
    FromEvaluation(
      d.evidence.requestDigest, d.evidence.bundleDigest,
      if a.Some? then Some(a.value.authorityDigest) else if b.Some? then Some(b.value.authorityDigest) else None,
      if a.Some? then Some(a.value.chainDigest) else None,
      if a.Some? then Some(a.value.stateDigest) else None,
      if b.Some? then Some(id(OfBinding(b.value))) else None,
      if a.Some? then Some(id(OfApplicability(a.value))) else None,
      id(OfDecision(d)), d.outcome, d.approvals)
  }

  /** What the constructor of `Decision` establishes. */
  ghost predicate ValidDecision(d: Decision) {
    && Ascending(RequirementLess, d.approvals)
    && (d.outcome == ApprovalRequired <==> d.approvals != [])
    && (d.outcome != Deny ==>
          && HasStatusIn(d.evidence.rules, Matched)
          && BindingOf(d.evidence.binding) == Some(Bound)
          && StatusOf(d.evidence.applicability) == Some(Applicable))
  }

  /** What the constructor of `DecisionReceipt` establishes. */
  ghost predicate ValidReceipt(r: DecisionReceipt) {
    && Ascending(RequirementLess, r.approvals)
    && (r.outcome == ApprovalRequired <==> r.approvals != [])
  }

  lemma {:induction false} MadeDecisionValid(
    outcome: Outcome, reasons: seq<Reason>, evidence: DecisionEvidence, obligations: seq<Obligation>,
    requirements: seq<ApprovalRequirement>)
    requires MakeDecision(outcome, reasons, evidence, obligations, requirements).Some?
    ensures ValidDecision(MakeDecision(outcome, reasons, evidence, obligations, requirements).value)
  {
    hide RequirementLess;
    RequirementsAscending(requirements);
  }

  /** Every decision has a receipt, and the receipt says what the decision says. */
  lemma {:induction false} ReceiptTotal(id: Identity, d: Decision)
    requires ValidDecision(d)
    ensures TryReceipt(id, d).Some?
    ensures var r := TryReceipt(id, d).value;
            && ValidReceipt(r) && r.outcome == d.outcome && r.approvals == d.approvals
            && r.requestDigest == d.evidence.requestDigest && r.bundleDigest == d.evidence.bundleDigest
            && r.decisionDigest == id(OfDecision(d))
            && var a, b := d.evidence.applicability, d.evidence.binding;
               && (a.Some? ==> && r.authorityDigest == Some(a.value.authorityDigest)
                               && r.chainDigest == Some(a.value.chainDigest) && r.stateDigest == Some(a.value.stateDigest)
                               && r.applicabilityDigest == Some(id(OfApplicability(a.value))))
               && (a.None? ==> r.chainDigest.None? && r.stateDigest.None? && r.applicabilityDigest.None?)
               && (b.Some? ==> r.bindingDigest == Some(id(OfBinding(b.value))))
               && (a.None? && b.Some? ==> r.authorityDigest == Some(b.value.authorityDigest))
               && (b.None? ==> r.bindingDigest.None? && (a.None? ==> r.authorityDigest.None?))
  {
    hide RequirementLess;
    RequirementsFixed(d.approvals);
  }

  lemma {:induction false} EvaluateValid(
    id: Identity, request: AuthorizationRequest, bundle: PolicyBundle,
    authority: Option<VerifiedAuthority>, binding: Option<SubjectPrincipalBinding>)
    requires ValidBundle(bundle)
    ensures ValidDecision(Evaluate(id, request, bundle, authority, binding))
  {
    hide ValidBundle, FlatRules, EvaluateRules, MakeEvidence, MakeDecision, Judge, CodeText, MatchedRules;
    hide ApplicabilityOf, HolderBinding, TryApplicabilityOf, TryHolderBinding, RequirementLess, ValidDecision;
    EvaluateTotal(id, request, bundle, authority, binding);
    AuthorityEvidenceTotal(id, request, authority, binding);
    var rules := FlatRules(bundle.policies);
    var applicability := ApplicabilityOf(id, request, authority);
    var holder := HolderBinding(id, request, authority, binding);
    var evaluations := EvaluateRules(request, rules).value;
    var evidence := MakeEvidence(id(OfBundle(bundle)), id(OfRequest(request)), evaluations, applicability, holder);
    var v := Judge(StatusOf(applicability), BindingOf(holder), evaluations, MatchedRules(rules, evaluations));
    MadeDecisionValid(v.outcome, [Reason(CodeText(v.code), "")], evidence.value, v.obligations, v.approvals);
  }

  /** The receipt of a decision that exists. */
  ghost function ReceiptOf(id: Identity, d: Decision): DecisionReceipt
    requires ValidDecision(d)
  {
    ReceiptTotal(id, d);
    TryReceipt(id, d).value
  }

  /** Absent a collision between the two, one receipt belongs to one decision with all its evidence. */
  lemma {:induction false} ReceiptIdentifiesDecision(id: Identity, d: Decision, e: Decision)
    requires ValidDecision(d) && ValidDecision(e) && NoCollision(id, OfDecision(d), OfDecision(e))
    requires ReceiptOf(id, d) == ReceiptOf(id, e)
    ensures d == e
  {
    hide RequirementLess;
    ReceiptTotal(id, d);
    ReceiptTotal(id, e);
  }
}
