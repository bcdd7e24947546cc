/** When approved intent may be executed, for how long, and that a permit is spent once. */
module ExecutionTheorems {
  import opened Wrappers
  import opened Domain
  import opened Applicability
  import opened Construction
  import opened Policies
  import opened Evaluator
  import opened EvaluatorTotal
  import opened EvaluatorTheorems
  import opened Delegation
  import opened DelegationTheorems
  import opened Receipt
  import opened Approval
  import opened Execution

  /** The digests a receipt keeps of what was asked, under which policy, on whose authority. */
  ghost predicate SameIntent(id: Identity, receipt: DecisionReceipt, s: Supplied) {
    && id(OfRequest(s.request)) == receipt.requestDigest
    && Some(id(OfChain(s.chain))) == receipt.chainDigest
    && id(OfBundle(s.bundle)) == receipt.bundleDigest
  }

  ghost predicate ApprovedFor(id: Identity, receipt: DecisionReceipt, approved: PendingApproval) {
    && approved.status == ApprovalApproved && approved.receipt == receipt
    && approved.receiptDigest == id(OfReceipt(receipt))
  }

  lemma {:induction false} FreshValid(id: Identity, s: Supplied)
    requires ValidSupplied(s)
    ensures FreshValidation(id, s).status == Valid <==> SoundChain(s.chain.grants) && Current(s.chain.grants, s.state)
    ensures FreshValidation(id, s).status == Valid ==>
              FreshDecision(id, s) == Evaluate(id, s.request, s.bundle, Some(Verified(id, s.chain, s.state)), Some(s.binding))
    ensures FreshDecision(id, s).outcome != Deny ==>
              && FreshValidation(id, s).status == Valid
              && BindingOf(FreshDecision(id, s).evidence.binding) == Some(Bound)
              && StatusOf(FreshDecision(id, s).evidence.applicability) == Some(Applicable)
  {
    hide ValidBundle, FirstFailure, Verified, TryEvaluate, EvaluateRules, FlatRules, SoundChain, Current;
    hide RequirementLess, CheckApplicability, CheckBinding, Evaluate;
    ValidExact(id, s.chain, s.state);
    FreshEvidence(id, s);
    EvaluateValid(id, s.request, s.bundle, FreshValidation(id, s).verified, Some(s.binding));
  }

  /**
    Execution is authorized exactly when the approval is complete and for this receipt, request,
    chain and policy have the receipt's digests, the chain is sound and current, and a fresh
    evaluation still requires precisely the approvals that were given.
    */
  lemma {:induction false} AuthorizedExactly(id: Identity, receipt: DecisionReceipt, approved: PendingApproval, s: Supplied)
    requires ValidSupplied(s)
    ensures Revalidate(id, receipt, approved, s).status == ExecutionAuthorized <==>
      && ApprovedFor(id, receipt, approved)
      && SameIntent(id, receipt, s)
      && SoundChain(s.chain.grants) && Current(s.chain.grants, s.state)
      && SpecOutcome(s.request, s.bundle, Some(Verified(id, s.chain, s.state)), Some(s.binding)) == ApprovalRequired
      && FreshDecision(id, s).approvals == receipt.approvals == RequirementsOf(approved.states)
  {
    hide ValidBundle, FreshValidation, FreshDecision, Verified, SoundChain, Current, SpecOutcome, TryRevalidate;
    hide RequirementsOf, Evaluate;
    RevalidateTotal(id, receipt, approved, s);
    FreshValid(id, s);
    OutcomeIsGatedDenyOverrides(id, s.request, s.bundle, Some(Verified(id, s.chain, s.state)), Some(s.binding));
  }

  /** The first obstacle in the way of execution, in terms of what is supplied. */
  ghost function FirstObstacle(id: Identity, receipt: DecisionReceipt, approved: PendingApproval, s: Supplied): ExecutionStatus
    requires ValidSupplied(s)
  {
    var gs := s.chain.grants;
    var leaf := gs[|gs| - 1];
    var outcome := SpecOutcome(s.request, s.bundle, Some(Verified(id, s.chain, s.state)), Some(s.binding));
    if approved.status != ApprovalApproved then ApprovalNotApproved
    else if !ApprovedFor(id, receipt, approved) then ReceiptMismatch
    else if id(OfRequest(s.request)) != receipt.requestDigest then RequestMismatch
    else if Some(id(OfChain(s.chain))) != receipt.chainDigest then ChainMismatch
    else if !(SoundChain(gs) && Current(gs, s.state)) then AuthorityInvalid
    else if s.binding != SubjectPrincipalBinding(s.request.subject, leaf.grantee) then HolderBindingFailed
    else if !Contains(leaf.scope, s.request) then AuthorityNotApplicable
    else if outcome == Deny then PolicyDenied
    else if outcome == Permit then ReauthorizationRequired
    else if !(FreshDecision(id, s).approvals == receipt.approvals == RequirementsOf(approved.states)) then RequirementsChanged
    else if id(OfBundle(s.bundle)) != receipt.bundleDigest then BundleMismatch
    else ExecutionAuthorized
  }

  /** The status reported is that of the first obstacle. */
  lemma {:induction false} StatusIsFirstObstacle(id: Identity, receipt: DecisionReceipt, approved: PendingApproval, s: Supplied)
    requires ValidSupplied(s)
    ensures Revalidate(id, receipt, approved, s).status == FirstObstacle(id, receipt, approved, s)
  {
    hide ValidBundle, ValidateAuthority, SoundChain, Current, SpecOutcome, TryRevalidate, FreshDecision, Evaluate;
    hide RequirementsOf, ScopeStatus, BoundEvaluations, Contains;
    RevalidateTotal(id, receipt, approved, s);
    FreshValid(id, s);
    FreshEvidence(id, s);
    OutcomeIsGatedDenyOverrides(id, s.request, s.bundle, Some(Verified(id, s.chain, s.state)), Some(s.binding));
    ApplicableIffContains(s.request, s.chain.grants[|s.chain.grants| - 1].scope);
  }

  // ----- Whose authority it is

  /**
    On a valid chain the evidence of the fresh decision names the one effective grant, its holder
    and the supplied request, chain and state; so does the evidence in a permit.
    */
  lemma {:induction false} EvidenceNamesEffectiveGrant(
    id: Identity, receipt: DecisionReceipt, approved: PendingApproval, s: Supplied)
    requires ValidSupplied(s) && FreshValidation(id, s).status == Valid
    ensures var d := FreshDecision(id, s);
            && d.evidence.applicability.Some? && d.evidence.binding.Some?
            && var a, b := d.evidence.applicability.value, d.evidence.binding.value;
               && (forall g :: IsEffective(s.chain.grants, g) ==>
                     && a.grantId == g.identifier == b.grantId
                     && a.expectedAction == g.scope.action && a.expectedResource == g.scope.resource
                     && b.authorityPrincipal == g.grantee)
               && (exists g :: IsEffective(s.chain.grants, g))
               && a.requestAction == s.request.action && a.requestResource == s.request.resource
               && a.requestDigest == id(OfRequest(s.request)) == b.requestDigest
               && a.chainDigest == id(OfChain(s.chain)) && a.stateDigest == id(OfState(s.state))
               && b.requestSubject == s.request.subject && b.binding == s.binding
    ensures var r := Revalidate(id, receipt, approved, s);
            r.permit.Some? ==>
              && Some(r.permit.value.applicability) == FreshDecision(id, s).evidence.applicability
              && Some(r.permit.value.binding) == FreshDecision(id, s).evidence.binding
  {
    hide ValidSupplied, FreshDecision, TryRevalidate, SoundChain, IsEffective, ScopeStatus, BoundEvaluations;
    FreshEvidence(id, s);
    RevalidateTotal(id, receipt, approved, s);
    SuppliedGrants(s);
    ResultVouches(id, s.chain, s.state);
    hide ValidateAuthority;
  }

  lemma {:induction false} SuppliedGrants(s: Supplied)
    requires ValidSupplied(s)
    ensures s.chain.grants != []
  {
  }

  // ----- The approval window

  /** The receipt of an evaluation, on validated authority, that required approval. */
  ghost predicate IssuedFor(id: Identity, receipt: DecisionReceipt, s: Supplied) {
    && ValidSupplied(s)
    && FreshDecision(id, s).outcome == ApprovalRequired
    && TryReceipt(id, FreshDecision(id, s)) == Some(receipt)
  }

  lemma {:induction false} IssuedBinds(id: Identity, receipt: DecisionReceipt, s: Supplied)
    requires IssuedFor(id, receipt, s)
    ensures ValidReceipt(receipt) && SameIntent(id, receipt, s)
    ensures receipt.outcome == ApprovalRequired && receipt.approvals == FreshDecision(id, s).approvals
  {
    hide ValidBundle, FreshDecision, FreshValidation, TryReceipt, ValidReceipt, BoundEvaluations, ScopeStatus;
    hide ApplicabilityStatusText, RequirementLess, BindingStatusOf, Evaluate;
    FreshEvidence(id, s);
    FreshValid(id, s);
    FreshDecisionValid(id, s);
    ReceiptTotal(id, FreshDecision(id, s));
  }

  lemma {:induction false} FreshDecisionValid(id: Identity, s: Supplied)
    requires ValidSupplied(s)
    ensures ValidDecision(FreshDecision(id, s))
  {
    hide ValidBundle, ValidDecision, FreshValidation, Evaluate;
    EvaluateValid(id, s.request, s.bundle, FreshValidation(id, s).verified, Some(s.binding));
  }

  /**
    With request, policy, chain and subject binding as they were when approval was required, a
    fully approved receipt authorizes execution in exactly the states that lie in every grant's
    window and revoke no grant of the chain, and in every other state the authority is what fails.
    Whenever it authorizes, the duties are those first decided.
    */
  lemma {:induction false} ApprovalWindow(
    id: Identity, receipt: DecisionReceipt, approved: PendingApproval, issued: Supplied, later: AuthorizationState)
    requires IssuedFor(id, receipt, issued)
    requires ValidApproval(approved) && ApprovedFor(id, receipt, approved)
    ensures var r := Revalidate(id, receipt, approved, issued.(state := later));
            && (r.status == ExecutionAuthorized <==> Current(issued.chain.grants, later))
            && (r.status == AuthorityInvalid <==> !Current(issued.chain.grants, later))
            && (r.status == ExecutionAuthorized ==>
                  && r.decision.obligations == FreshDecision(id, issued).obligations
                  && r.decision.approvals == receipt.approvals && r.decision.reasons == FreshDecision(id, issued).reasons)
  {
    hide ValidBundle, FreshDecision, FreshValidation, TryReceipt, ValidReceipt, TryRevalidate, SoundChain, Current;
    hide RequirementLess, IssuedFor, Evaluate, Aggregate;
    var s := issued.(state := later);
    IssuedBinds(id, receipt, issued);
    IssuedSupplied(id, receipt, issued);
    RevalidateTotal(id, receipt, approved, s);
    FreshValid(id, issued);
    FreshValid(id, s);
    if Current(issued.chain.grants, later) {
      DecisionIgnoresValidationTime(id, s.request, s.bundle, Verified(id, s.chain, issued.state),
                                    Verified(id, s.chain, later), s.binding);
    }
  }

  lemma {:induction false} IssuedSupplied(id: Identity, receipt: DecisionReceipt, s: Supplied)
    requires IssuedFor(id, receipt, s)
    ensures ValidSupplied(s) && FreshDecision(id, s).outcome == ApprovalRequired
  {
    hide ValidSupplied, FreshDecision, TryReceipt;
  }

  // ----- The intent that was approved

  /** Absent collisions, what is authorized is the request, policy and chain that were decided on. */
  lemma {:induction false} AuthorizedIsApprovedIntent(
    id: Identity, receipt: DecisionReceipt, approved: PendingApproval, issued: Supplied, s: Supplied)
    requires IssuedFor(id, receipt, issued) && ValidSupplied(s)
    requires NoCollision(id, OfRequest(issued.request), OfRequest(s.request))
    requires NoCollision(id, OfBundle(issued.bundle), OfBundle(s.bundle))
    requires NoCollision(id, OfChain(issued.chain), OfChain(s.chain))
    requires Revalidate(id, receipt, approved, s).status == ExecutionAuthorized
    ensures s.request == issued.request && s.bundle == issued.bundle && s.chain == issued.chain
  {
    hide ValidSupplied, IssuedFor, Revalidate, SpecOutcome, Verified, SoundChain, Current, FreshDecision, ApprovedFor;
    IssuedBinds(id, receipt, issued);
    AuthorizedExactly(id, receipt, approved, s);
  }

  // ----- A permit is spent once

  /**
    The permit of an authorized revalidation consumes the approved state at any time that is not
    earlier, and the consumed state is never authorized again, whatever is supplied.
    */
  lemma {:induction false} PermitConsumes(
    id: Identity, receipt: DecisionReceipt, approved: PendingApproval, s: Supplied, time: int)
    requires ValidSupplied(s) && ValidApproval(approved) && approved.logicalTime <= time
    requires Revalidate(id, receipt, approved, s).status == ExecutionAuthorized
    ensures Revalidate(id, receipt, approved, s).permit.Some?
    ensures var used := Consume(id, approved, Revalidate(id, receipt, approved, s).permit.value, time);
            && used.Success? && used.value.status == ApprovalConsumed
            && forall other, later ::
                 ValidSupplied(later) ==> Revalidate(id, other, used.value, later).status == ApprovalNotApproved
  {
    hide ValidSupplied, FreshDecision, FreshValidation, TryRevalidate, Consume, ValidApproval;
    RevalidateTotal(id, receipt, approved, s);
    var permit := Revalidate(id, receipt, approved, s).permit.value;
    ConsumeExact(id, approved, permit, time);
    var used := Consume(id, approved, permit, time).value;
    forall other, later | ValidSupplied(later)
      ensures Revalidate(id, other, used, later).status == ApprovalNotApproved
    {
      RevalidateTotal(id, other, used, later);
    }
  }
}
