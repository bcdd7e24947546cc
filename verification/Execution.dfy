/** Fresh revalidation of approved intent, and the permit it issues (execution.py, domain.py:2744-2845, 2968-3082). */
module Execution {
  import opened Wrappers
  import opened Domain
  import opened Applicability
  import opened Construction
  import opened Policies
  import opened Evaluator
  import opened EvaluatorTotal
  import opened Delegation
  import opened Approval

  /** What the caller supplies as current. */
  datatype Supplied = Supplied(
    request: AuthorizationRequest, bundle: PolicyBundle, chain: DelegationChain, state: AuthorizationState,
    binding: SubjectPrincipalBinding)

  ghost predicate ValidSupplied(s: Supplied) {
    ValidBundle(s.bundle) && s.chain.grants != []
  }

  datatype ExecutionStatus =
    | ExecutionAuthorized | ApprovalNotApproved | ReceiptMismatch | RequestMismatch | ChainMismatch
    | AuthorityInvalid | HolderBindingFailed | AuthorityNotApplicable | PolicyDenied | ReauthorizationRequired
    | RequirementsChanged | BundleMismatch

  datatype ExecutionAuthorization = ExecutionAuthorization(
    status: ExecutionStatus, receiptDigest: Digest, approvedStateDigest: Digest, requestDigest: Digest,
    bundleDigest: Digest, chainDigest: Digest, stateDigest: Digest, validation: ValidationResult,
    binding: Option<BindingResult>, applicability: Option<ApplicabilityResult>, decision: Decision,
    permit: Option<ExecutionPermit>)

  // ----- Constructors

  /** `ExecutionPermit._from_revalidation`. */
  function MakePermit(p: ExecutionPermit): Option<ExecutionPermit> {
    if p.binding.status != Bound then None
    else if p.applicability.status != Applicable then None
    else if p.decision.outcome != ApprovalRequired then None
    else if p.decision.evidence.requestDigest != p.requestDigest then None
    else if p.decision.evidence.bundleDigest != p.bundleDigest then None
    else if p.decision.evidence.binding != Some(p.binding) then None
    else if p.decision.evidence.applicability != Some(p.applicability) then None
    else if p.applicability.requestDigest != p.requestDigest then None
    else if p.applicability.authorityDigest != p.authorityDigest then None
    else if p.applicability.chainDigest != p.chainDigest then None
    else if p.applicability.stateDigest != p.stateDigest then None
    else Some(p)
  }

  predicate PermitMatches(r: ExecutionAuthorization, p: ExecutionPermit) {
    && p.receiptDigest == r.receiptDigest && p.approvedStateDigest == r.approvedStateDigest
    && p.requestDigest == r.requestDigest && p.bundleDigest == r.bundleDigest && p.chainDigest == r.chainDigest
    && p.stateDigest == r.stateDigest && p.decision == r.decision
  }

  /** `ExecutionAuthorizationResult._from_revalidation`. */
  function MakeAuthorization(r: ExecutionAuthorization): Option<ExecutionAuthorization> {
    if r.validation.chainDigest != r.chainDigest || r.validation.stateDigest != r.stateDigest then None
    else if r.decision.evidence.requestDigest != r.requestDigest then None
    else if r.decision.evidence.bundleDigest != r.bundleDigest then None
    else if r.decision.evidence.binding != r.binding || r.decision.evidence.applicability != r.applicability then None
    else if (r.status == ExecutionAuthorized) != r.permit.Some? then None
    else if r.permit.Some? && !PermitMatches(r, r.permit.value) then None
    else Some(r)
  }

  // ----- Revalidation

  function FreshValidation(id: Identity, s: Supplied): ValidationResult
    requires ValidSupplied(s)
  {
    ValidateAuthority(id, s.chain, s.state)
  }

  function FreshDecision(id: Identity, s: Supplied): Decision
    requires ValidSupplied(s)
  {
    Evaluate(id, s.request, s.bundle, FreshValidation(id, s).verified, Some(s.binding))
  }

  /** The first comparison that fails, in the order they are made. */
  function Cascade(id: Identity, receipt: DecisionReceipt, approved: PendingApproval, s: Supplied,
                   validation: ValidationStatus, d: Decision): ExecutionStatus
  {
    if approved.status != ApprovalApproved then ApprovalNotApproved
    else if approved.receipt != receipt || approved.receiptDigest != id(OfReceipt(receipt)) then ReceiptMismatch
    else if id(OfRequest(s.request)) != receipt.requestDigest then RequestMismatch
    else if Some(id(OfChain(s.chain))) != receipt.chainDigest then ChainMismatch
    else if validation != Valid then AuthorityInvalid
    else if BindingOf(d.evidence.binding) != Some(Bound) then HolderBindingFailed
    else if StatusOf(d.evidence.applicability) != Some(Applicable) then AuthorityNotApplicable
    else if d.outcome == Deny then PolicyDenied
    else if d.outcome == Permit then ReauthorizationRequired
    else if d.approvals != receipt.approvals || d.approvals != RequirementsOf(approved.states) then RequirementsChanged
    else if id(OfBundle(s.bundle)) != receipt.bundleDigest then BundleMismatch
    else ExecutionAuthorized
  }

  function PermitFor(id: Identity, receipt: DecisionReceipt, approved: PendingApproval, s: Supplied,
                     authority: VerifiedAuthority, d: Decision, binding: BindingResult,
                     applicability: ApplicabilityResult): ExecutionPermit
  {
    ExecutionPermit(id(OfReceipt(receipt)), id(OfApproval(approved)), id(OfRequest(s.request)), id(OfBundle(s.bundle)),
                    id(OfChain(s.chain)), id(OfState(s.state)), id(OfAuthority(authority)), binding, applicability, d)
  }

  /** `None` stands for a `RuntimeError` over missing evidence as well as for a constructor's error. */
  function TryPermit(id: Identity, receipt: DecisionReceipt, approved: PendingApproval, s: Supplied,
                     authority: Option<VerifiedAuthority>, d: Decision): Option<ExecutionPermit>
  {
    var holder :- authority;
    var binding :- d.evidence.binding;
    var applicability :- d.evidence.applicability;
    MakePermit(PermitFor(id, receipt, approved, s, holder, d, binding, applicability))
  }

  /** `revalidate_for_execution`. */
  function TryRevalidate(id: Identity, receipt: DecisionReceipt, approved: PendingApproval, s: Supplied)
    : Option<ExecutionAuthorization>
    requires ValidSupplied(s)
  {
    var validation := FreshValidation(id, s);
    var d := FreshDecision(id, s);
    var status := Cascade(id, receipt, approved, s, validation.status, d);
    var permit := if status == ExecutionAuthorized then TryPermit(id, receipt, approved, s, validation.verified, d) else None;
    if status == ExecutionAuthorized && permit.None? then None
    else
      MakeAuthorization(ExecutionAuthorization(
        status, id(OfReceipt(receipt)), id(OfApproval(approved)), id(OfRequest(s.request)), id(OfBundle(s.bundle)),
        id(OfChain(s.chain)), id(OfState(s.state)), validation, d.evidence.binding, d.evidence.applicability, d, permit))
  }

  lemma {:induction false} FreshEvidence(id: Identity, s: Supplied)
    requires ValidSupplied(s)
    ensures var v, d := FreshValidation(id, s), FreshDecision(id, s);
            && v.chainDigest == id(OfChain(s.chain)) && v.stateDigest == id(OfState(s.state))
            && (v.status == Valid <==> v.verified == Some(Verified(id, s.chain, s.state)))
            && (v.status != Valid <==> v.verified == None)
            && d.evidence.requestDigest == id(OfRequest(s.request)) && d.evidence.bundleDigest == id(OfBundle(s.bundle))
            && d.evidence.applicability == ApplicabilityOf(id, s.request, v.verified)
            && d.evidence.binding == HolderBinding(id, s.request, v.verified, Some(s.binding))
  {
    hide ValidBundle, FirstFailure, Verified, ApplicabilityOf, HolderBinding, TryEvaluate, EvaluateRules, FlatRules;
    hide MatchedRules, Judge, CodeText, RequirementLess;
    FailureIsNotValid(s.chain.grants, s.state);
    EvaluateTotal(id, s.request, s.bundle, FreshValidation(id, s).verified, Some(s.binding));
  }

  lemma {:induction false} FailureIsNotValid(gs: Grants, state: AuthorizationState)
    ensures FirstFailure(gs, state).Some? ==> FirstFailure(gs, state).value.0 != Valid
  {
    hide FirstDuplicate, ReferenceCycleOf, FirstBroken, FirstRepeatedPrincipal, FirstBroadened, FirstRevoked;
    hide FirstNotYetValid, FirstExpired;
  }

  lemma {:induction false} FreshPermit(id: Identity, receipt: DecisionReceipt, approved: PendingApproval, s: Supplied)
    requires ValidSupplied(s)
    requires FreshValidation(id, s).status == Valid
    requires BindingOf(FreshDecision(id, s).evidence.binding) == Some(Bound)
    requires StatusOf(FreshDecision(id, s).evidence.applicability) == Some(Applicable)
    requires FreshDecision(id, s).outcome == ApprovalRequired
    ensures var v, d := FreshValidation(id, s), FreshDecision(id, s);
            && v.verified.Some? && d.evidence.binding.Some? && d.evidence.applicability.Some?
            && TryPermit(id, receipt, approved, s, v.verified, d)
               == Some(PermitFor(id, receipt, approved, s, v.verified.value, d, d.evidence.binding.value,
                                 d.evidence.applicability.value))
  {
    hide ValidBundle, FreshValidation, FreshDecision, ScopeStatus, BoundEvaluations, BindingStatusOf;
    FreshEvidence(id, s);
  }

  /** Revalidation never raises, and issues a permit, bound to all of its inputs, exactly when authorized. */
  lemma {:induction false} RevalidateTotal(id: Identity, receipt: DecisionReceipt, approved: PendingApproval, s: Supplied)
    requires ValidSupplied(s)
    ensures TryRevalidate(id, receipt, approved, s).Some?
    ensures var r, v, d := TryRevalidate(id, receipt, approved, s).value, FreshValidation(id, s), FreshDecision(id, s);
            && r.status == Cascade(id, receipt, approved, s, v.status, d)
            && r.validation == v && r.decision == d
            && (r.permit.Some? <==> r.status == ExecutionAuthorized)
            && (r.permit.Some? ==> && r.permit.value.receiptDigest == id(OfReceipt(receipt))
                                   && r.permit.value.approvedStateDigest == id(OfApproval(approved))
                                   && r.permit.value.requestDigest == id(OfRequest(s.request))
                                   && r.permit.value.bundleDigest == id(OfBundle(s.bundle))
                                   && r.permit.value.chainDigest == id(OfChain(s.chain))
                                   && r.permit.value.stateDigest == id(OfState(s.state))
                                   && v.verified.Some? && r.permit.value.authorityDigest == id(OfAuthority(v.verified.value))
                                   && d.evidence.applicability == Some(r.permit.value.applicability)
                                   && d.evidence.binding == Some(r.permit.value.binding)
                                   && r.permit.value.decision == d)
  {
    hide ValidBundle, FreshValidation, FreshDecision, ApplicabilityOf, HolderBinding, TryPermit, Verified, RequirementsOf;
    FreshEvidence(id, s);
    if Cascade(id, receipt, approved, s, FreshValidation(id, s).status, FreshDecision(id, s)) == ExecutionAuthorized {
      FreshPermit(id, receipt, approved, s);
    }
  }

  function Revalidate(id: Identity, receipt: DecisionReceipt, approved: PendingApproval, s: Supplied)
    : ExecutionAuthorization
    requires ValidSupplied(s)
  {
    RevalidateTotal(id, receipt, approved, s);
    TryRevalidate(id, receipt, approved, s).value
  }
}
