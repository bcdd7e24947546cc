/**
  Trusted orchestration: authenticated policy and delegation in front of evaluation and
  revalidation, and what the whole guarantees (trusted.py, attestation.py:226-248, domain.py:2058-2103).
  */
module Trusted {
  import opened Wrappers
  import opened Utf8
  import opened Domain
  import opened Applicability
  import opened Policies
  import opened Evaluator
  import opened EvaluatorTotal
  import opened EvaluatorTheorems
  import opened Delegation
  import opened DelegationTheorems
  import opened Approval
  import opened ApprovalTheorems
  import opened Execution
  import opened ExecutionTheorems
  import opened Attestation
  import opened Authentication
  import opened Schemas
  import opened Encodability

  datatype TrustedPolicy = TrustedPolicy(bundle: PolicyBundle, attestation: ArtifactAttestation, verification: Verification)

  /** `verify_policy_bundle`; `None` for an `ArtifactVerificationError`. */
  function VerifyPolicyBundle(id: Identity, bundle: PolicyBundle, a: ArtifactAttestation, store: TrustStore): Option<TrustedPolicy> {
    var v :- VerifyArtifact(id, OfBundle(bundle), a, store, BundlePurpose);
    if v.status != Genuine then None
    else if v.attestation != a || v.expectedPurpose != BundlePurpose || v.expectedKind != BundleKind then None
    else Some(TrustedPolicy(bundle, a, v))
  }

  lemma {:induction false} TrustedPolicyExactly(id: Identity, bundle: PolicyBundle, a: ArtifactAttestation, store: TrustStore)
    requires ValidStore(store)
    ensures VerifyPolicyBundle(id, bundle, a, store).Some?
            <==> Attests(store, a, BundleKind, BundlePurpose, id(OfBundle(bundle)))
    ensures VerifyPolicyBundle(id, bundle, a, store).Some? ==> VerifyPolicyBundle(id, bundle, a, store).value.bundle == bundle
  {
    hide Attests, SigningMessage, FindKey;
    VerifiedExactly(id, OfBundle(bundle), a, store, BundleKind, BundlePurpose);
  }

  // ----- First authorization

  datatype TrustedAuthorization = TrustedAuthorization(
    requestDigest: Digest, bundleDigest: Digest, authorityDigest: Digest, decision: Decision)

  /** `TrustedAuthorizationResult._from_trusted_authorization`. */
  function MakeTrustedAuthorization(r: TrustedAuthorization): Option<TrustedAuthorization> {
    if r.decision.evidence.requestDigest != r.requestDigest || r.decision.evidence.bundleDigest != r.bundleDigest then None
    else if r.decision.evidence.applicability.None?
            || r.decision.evidence.applicability.value.authorityDigest != r.authorityDigest then None
    else Some(r)
  }

  /** `authorize_trusted`, on the verified authority of an authenticated chain. */
  function AuthorizeTrusted(id: Identity, request: AuthorizationRequest, policy: TrustedPolicy,
                            authority: VerifiedAuthority, binding: SubjectPrincipalBinding): Option<TrustedAuthorization>
    requires ValidBundle(policy.bundle)
  {
    MakeTrustedAuthorization(TrustedAuthorization(
      id(OfRequest(request)), id(OfBundle(policy.bundle)), id(OfAuthority(authority)),
      Evaluate(id, request, policy.bundle, Some(authority), Some(binding))))
  }

  /** Trusted authorization never raises, and grants only what the authenticated authority contains. */
  lemma {:induction false} AuthorizeTrustedGrants(
    id: Identity, request: AuthorizationRequest, policy: TrustedPolicy, authority: VerifiedAuthority,
    binding: SubjectPrincipalBinding)
    requires ValidBundle(policy.bundle)
    ensures AuthorizeTrusted(id, request, policy, authority, binding).Some?
    ensures var r := AuthorizeTrusted(id, request, policy, authority, binding).value;
            && r.requestDigest == id(OfRequest(request)) && r.bundleDigest == id(OfBundle(policy.bundle))
            && r.authorityDigest == id(OfAuthority(authority))
    ensures var d := AuthorizeTrusted(id, request, policy, authority, binding).value.decision;
            && d.outcome == SpecOutcome(request, policy.bundle, Some(authority), Some(binding))
            && (d.outcome != Deny ==> && Contains(authority.scope, request)
                                      && binding == SubjectPrincipalBinding(request.subject, authority.principal))
  {
    hide ValidBundle, FlatRules, EvaluateRules, TryEvaluate, MatchedRules, Judge, CodeText, Contains, Unknown;
    hide SomeContributes, InBundle;
    EvaluateTotal(id, request, policy.bundle, Some(authority), Some(binding));
    OutcomeIsGatedDenyOverrides(id, request, policy.bundle, Some(authority), Some(binding));
  }

  // ----- Revalidation

  datatype TrustedStatus = TrustedAuthorized | AuthenticationFailed | RevalidationFailed

  datatype TrustedExecution = TrustedExecution(
    status: TrustedStatus, requestDigest: Digest, bundleDigest: Digest, authentication: Authentication,
    execution: Option<ExecutionAuthorization>)

  /** `TrustedExecutionAuthorizationResult._from_trusted_revalidation`. */
  function MakeTrustedExecution(r: TrustedExecution): Option<TrustedExecution> {
    if r.authentication.status != Authenticated then
      if r.execution.Some? || r.status != AuthenticationFailed then None else Some(r)
    else if r.execution.None? then None
    else
      var e := r.execution.value;
      if e.requestDigest != r.requestDigest || e.bundleDigest != r.bundleDigest
         || e.validation != r.authentication.validation then None
      else if r.status != (if e.status == ExecutionAuthorized then TrustedAuthorized else RevalidationFailed) then None
      else Some(r)
  }

  ghost predicate ValidInputs(s: Supplied, policy: TrustedPolicy, t: Trust) {
    ValidSupplied(s) && policy.bundle == s.bundle && ValidTrust(t)
  }

  /** `revalidate_trusted_for_execution`; the current policy is the trusted one. */
  function TryRevalidateTrusted(id: Identity, receipt: DecisionReceipt, approved: PendingApproval, s: Supplied,
                                policy: TrustedPolicy, t: Trust): Option<TrustedExecution>
    requires ValidInputs(s, policy, t)
  {
    var authentication := Authenticate(id, s.chain, s.state, t);
    if authentication.status == Authenticated then
      var e := Revalidate(id, receipt, approved, s);
      MakeTrustedExecution(TrustedExecution(
        if e.status == ExecutionAuthorized then TrustedAuthorized else RevalidationFailed,
        id(OfRequest(s.request)), id(OfBundle(policy.bundle)), authentication, Some(e)))
    else
      MakeTrustedExecution(TrustedExecution(
        AuthenticationFailed, id(OfRequest(s.request)), id(OfBundle(policy.bundle)), authentication, None))
  }

  lemma {:induction false} RevalidateBinds(id: Identity, receipt: DecisionReceipt, approved: PendingApproval, s: Supplied)
    requires ValidSupplied(s)
    ensures var r := Revalidate(id, receipt, approved, s);
            && r.requestDigest == id(OfRequest(s.request)) && r.bundleDigest == id(OfBundle(s.bundle))
            && r.validation == ValidateAuthority(id, s.chain, s.state)
  {
    hide ValidBundle, ValidateAuthority, FreshDecision, TryPermit, Cascade, FirstFailure, Verified;
    RevalidateTotal(id, receipt, approved, s);
  }

  /** Trusted revalidation never raises; it authorizes exactly when both of its stages succeed. */
  lemma {:induction false} RevalidateTrustedTotal(
    id: Identity, receipt: DecisionReceipt, approved: PendingApproval, s: Supplied, policy: TrustedPolicy, t: Trust)
    requires ValidInputs(s, policy, t)
    ensures TryRevalidateTrusted(id, receipt, approved, s, policy, t).Some?
    ensures var r := TryRevalidateTrusted(id, receipt, approved, s, policy, t).value;
            && r.authentication == Authenticate(id, s.chain, s.state, t)
            && r.requestDigest == id(OfRequest(s.request)) && r.bundleDigest == id(OfBundle(s.bundle))
            && (r.status == AuthenticationFailed <==> r.authentication.status != Authenticated)
            && (r.status == TrustedAuthorized <==>
                  && r.authentication.status == Authenticated
                  && Revalidate(id, receipt, approved, s).status == ExecutionAuthorized)
            && r.execution == if r.authentication.status == Authenticated then Some(Revalidate(id, receipt, approved, s)) else None
  {
    hide ValidSupplied, ValidTrust, ValidateAuthority, TryAuthenticate, Revalidate;
    AuthenticateTotal(id, s.chain, s.state, t) by {
      SuppliedNonEmpty(s);
    }
    RevalidateBinds(id, receipt, approved, s);
    SuppliedNonEmpty(s);
  }

  lemma {:induction false} SuppliedNonEmpty(s: Supplied)
    requires ValidSupplied(s)
    ensures s.chain.grants != []
  {
  }

  function RevalidateTrusted(id: Identity, receipt: DecisionReceipt, approved: PendingApproval, s: Supplied,
                             policy: TrustedPolicy, t: Trust): TrustedExecution
    requires ValidInputs(s, policy, t)
  {
    RevalidateTrustedTotal(id, receipt, approved, s, policy, t);
    TryRevalidateTrusted(id, receipt, approved, s, policy, t).value
  }

  // ----- End to end

  /** The chain of a request: sound, current, every grant signed by its grantor, the root trusted. */
  ghost predicate ChainVouchesFor(id: Identity, s: Supplied, t: Trust)
    requires s.chain.grants != []
  {
    && SoundChain(s.chain.grants) && Current(s.chain.grants, s.state)
    && (forall i :: 0 <= i < |s.chain.grants| ==> SignedByGrantor(id, s.chain.grants[i], t))
    && (forall i :: 0 <= i < |s.chain.grants| ==> Contains(s.chain.grants[i].scope, s.request))
    && s.chain.grants[0].grantor in t.roots
    && s.binding == SubjectPrincipalBinding(s.request.subject, s.chain.grants[|s.chain.grants| - 1].grantee)
  }

  ghost predicate ApprovedByBoundActor(s: RequirementState, requirement: ApprovalRequirement) {
    && s.requirement == requirement && s.status == Approved && s.authorization.Some?
    && s.authorization.value.actor == s.authorization.value.binding.subject
    && s.authorization.value.binding.principal in requirement.allowedPrincipals
  }

  /** A permit carries the digest of everything it was issued for, and the decision taken for it. */
  ghost predicate PermitBinds(id: Identity, permit: ExecutionPermit, receipt: DecisionReceipt, approved: PendingApproval,
                              s: Supplied)
    requires ValidSupplied(s)
  {
    && permit.receiptDigest == id(OfReceipt(receipt)) && permit.approvedStateDigest == id(OfApproval(approved))
    && permit.requestDigest == id(OfRequest(s.request)) && permit.bundleDigest == id(OfBundle(s.bundle))
    && permit.chainDigest == id(OfChain(s.chain)) && permit.stateDigest == id(OfState(s.state))
    && permit.authorityDigest == id(OfAuthority(Verified(id, s.chain, s.state)))
    && permit.decision == FreshDecision(id, s)
  }

  /** What an authorized execution rests on. */
  ghost predicate SafeExecution(id: Identity, receipt: DecisionReceipt, approved: PendingApproval, issued: Supplied,
                                s: Supplied, t: Trust)
  {
    && s.request == issued.request && s.bundle == issued.bundle && s.chain == issued.chain
    && |approved.states| == |receipt.approvals|
    && (forall k :: 0 <= k < |receipt.approvals| ==> ApprovedByBoundActor(approved.states[k], receipt.approvals[k]))
    && s.chain.grants != [] && ChainVouchesFor(id, s, t)
  }

  lemma {:induction false} AuthorizedChain(
    id: Identity, receipt: DecisionReceipt, approved: PendingApproval, s: Supplied, t: Trust)
    requires ValidSupplied(s) && ValidTrust(t)
    requires Authenticate(id, s.chain, s.state, t).status == Authenticated
    requires Revalidate(id, receipt, approved, s).status == ExecutionAuthorized
    ensures ChainVouchesFor(id, s, t)
  {
    hide ValidBundle, SignedByGrantor, Contains, Authenticate, Revalidate, SoundChain, Current, InBundle, Unknown;
    hide SomeContributes, ValidTrust, SameGrantIds;
    var gs := s.chain.grants;
    AuthenticatedExactly(id, s.chain, s.state, t);
    AuthorizedExactly(id, receipt, approved, s);
    var leaf := |gs| - 1;
    assert Contains(gs[leaf].scope, s.request);
    forall i: nat | i < |gs| ensures Contains(gs[i].scope, s.request) {
      ScopesNarrow(gs, i, leaf);
      AttenuationNarrows(gs[leaf].scope, gs[i].scope, s.request);
    }
  }

  lemma {:induction false} AuthorizedApprovals(id: Identity, receipt: DecisionReceipt, approved: PendingApproval)
    requires ValidApproval(approved) && ApprovedFor(id, receipt, approved)
    ensures |approved.states| == |receipt.approvals|
    ensures forall k :: 0 <= k < |receipt.approvals| ==> ApprovedByBoundActor(approved.states[k], receipt.approvals[k])
  {
    hide ValidApproval;
    if receipt.approvals == [] {
      ValidHasAll(approved);
    }
    forall k: nat | k < |receipt.approvals|
      ensures |approved.states| == |receipt.approvals|
      ensures ApprovedByBoundActor(approved.states[k], receipt.approvals[k])
    {
      ApprovedByAllowed(approved, k);
    }
    ValidHasAll(approved);
  }

  lemma {:induction false} ValidHasAll(a: PendingApproval)
    requires ValidApproval(a)
    ensures |a.states| == |a.receipt.approvals|
  {
    hide Aggregate;
  }

  /**
    If trusted revalidation authorizes, then, absent collisions between the three compared pairs,
    the request, policy and chain are those the receipt was issued for; every requirement was
    approved by an actor bound to a principal it allows; every grant is signed by its grantor,
    unrevoked and in its window, back to a trusted root; the request lies inside the scope of
    every grant; and the policy is signed by a key that the store it was verified with trusts for
    policies. A permit comes with it, and it binds them all.
    */
  lemma {:induction false} TrustedExecutionIsSafe(
    id: Identity, receipt: DecisionReceipt, approved: PendingApproval, issued: Supplied, s: Supplied,
    policy: TrustedPolicy, policyStore: TrustStore, t: Trust)
    requires IssuedFor(id, receipt, issued) && ValidApproval(approved) && ValidInputs(s, policy, t)
    requires ValidStore(policyStore) && VerifyPolicyBundle(id, policy.bundle, policy.attestation, policyStore) == Some(policy)
    requires NoCollision(id, OfRequest(issued.request), OfRequest(s.request))
    requires NoCollision(id, OfBundle(issued.bundle), OfBundle(s.bundle))
    requires NoCollision(id, OfChain(issued.chain), OfChain(s.chain))
    requires RevalidateTrusted(id, receipt, approved, s, policy, t).status == TrustedAuthorized
    ensures SafeExecution(id, receipt, approved, issued, s, t)
    ensures Attests(policyStore, policy.attestation, BundleKind, BundlePurpose, id(OfBundle(issued.bundle)))
    ensures var r := RevalidateTrusted(id, receipt, approved, s, policy, t);
            && r.execution.Some? && r.execution.value.permit.Some?
            && PermitBinds(id, r.execution.value.permit.value, receipt, approved, s)
  {
    hide VerifyPolicyBundle, Attests, PermitBinds;
    hide IssuedFor, ValidApproval, ValidSupplied, ValidTrust, TryRevalidateTrusted, ChainVouchesFor, ApprovedByBoundActor;
    hide Authenticate, Revalidate, SpecOutcome, SoundChain, Current, FreshDecision;
    SuppliedNonEmpty(s);
    RevalidateTrustedTotal(id, receipt, approved, s, policy, t);
    AuthorizedIsApprovedIntent(id, receipt, approved, issued, s);
    AuthorizedExactly(id, receipt, approved, s);
    AuthorizedApprovals(id, receipt, approved);
    AuthorizedChain(id, receipt, approved, s, t);
    TrustedPolicyExactly(id, policy.bundle, policy.attestation, policyStore);
    IssuedPermitBinds(id, receipt, approved, s);
  }

  lemma {:induction false} IssuedPermitBinds(id: Identity, receipt: DecisionReceipt, approved: PendingApproval, s: Supplied)
    requires ValidSupplied(s) && Revalidate(id, receipt, approved, s).status == ExecutionAuthorized
    ensures Revalidate(id, receipt, approved, s).permit.Some?
    ensures PermitBinds(id, Revalidate(id, receipt, approved, s).permit.value, receipt, approved, s)
  {
    hide ValidSupplied, TryRevalidate, FreshValidation, FreshDecision, Cascade, Verified;
    RevalidateTotal(id, receipt, approved, s);
    ValidationGivesVerified(id, s);
  }

  lemma {:induction false} ValidationGivesVerified(id: Identity, s: Supplied)
    requires ValidSupplied(s) && FreshValidation(id, s).verified.Some?
    ensures FreshValidation(id, s).verified == Some(Verified(id, s.chain, s.state))
  {
    hide ValidSupplied, FreshDecision, Verified, FirstFailure;
    FreshEvidence(id, s);
  }

  /** One hash has no collision between the canonical bytes of two values that are not too long to have any. */
  ghost predicate HashApart(bytes: DomainValue -> Option<Bytes>, hash: Bytes -> Digest, x: DomainValue, y: DomainValue) {
    && FitsLengthField(x) && FitsLengthField(y)
    && (bytes(x).Some? && bytes(y).Some? && hash(bytes(x).value) == hash(bytes(y).value) ==> bytes(x) == bytes(y))
  }

  lemma {:induction false} HashApartNoCollision(
    bytes: DomainValue -> Option<Bytes>, hash: Bytes -> Digest, x: DomainValue, y: DomainValue)
    requires HashApart(bytes, hash, x, y) && forall z :: bytes(z) == BytesOf(z)
    ensures NoCollision(Sha256(bytes, hash), x, y)
  {
    hide BytesOf, Sha256, NoCollision, FitsLengthField;
    BytesExactly(x);
    BytesExactly(y);
    CollisionsAreHashCollisions(bytes, hash, x, y);
  }

  /** The same with SHA-256 of canonical bytes as the identity, and the hash itself collision-free on the three pairs. */
  lemma {:induction false} TrustedExecutionIsSafeOverSha256(
    bytes: DomainValue -> Option<Bytes>, hash: Bytes -> Digest, receipt: DecisionReceipt, approved: PendingApproval,
    issued: Supplied, s: Supplied, policy: TrustedPolicy, policyStore: TrustStore, t: Trust)
    requires HashApart(bytes, hash, OfRequest(issued.request), OfRequest(s.request))
    requires HashApart(bytes, hash, OfBundle(issued.bundle), OfBundle(s.bundle))
    requires HashApart(bytes, hash, OfChain(issued.chain), OfChain(s.chain))
    requires IssuedFor(Sha256(bytes, hash), receipt, issued) && ValidApproval(approved) && ValidInputs(s, policy, t)
    requires ValidStore(policyStore)
    requires VerifyPolicyBundle(Sha256(bytes, hash), policy.bundle, policy.attestation, policyStore) == Some(policy)
    requires RevalidateTrusted(Sha256(bytes, hash), receipt, approved, s, policy, t).status == TrustedAuthorized
    requires forall z :: bytes(z) == BytesOf(z)
    ensures SafeExecution(Sha256(bytes, hash), receipt, approved, issued, s, t)
    ensures Attests(policyStore, policy.attestation, BundleKind, BundlePurpose, Sha256(bytes, hash)(OfBundle(issued.bundle)))
    ensures var r := RevalidateTrusted(Sha256(bytes, hash), receipt, approved, s, policy, t);
            && r.execution.Some? && r.execution.value.permit.Some?
            && PermitBinds(Sha256(bytes, hash), r.execution.value.permit.value, receipt, approved, s)
  {
    hide IssuedFor, ValidApproval, RevalidateTrusted, SafeExecution, BytesOf, Sha256, VerifyPolicyBundle, Attests;
    hide PermitBinds, ValidSupplied, ValidTrust, HashApart;
    HashApartNoCollision(bytes, hash, OfRequest(issued.request), OfRequest(s.request));
    HashApartNoCollision(bytes, hash, OfBundle(issued.bundle), OfBundle(s.bundle));
    HashApartNoCollision(bytes, hash, OfChain(issued.chain), OfChain(s.chain));
    TrustedExecutionIsSafe(Sha256(bytes, hash), receipt, approved, issued, s, policy, policyStore, t);
  }
}
