/**
  The closed set of record schemas: wire type and field names of every record whose digest
  decides something, and of every record nested in one (canonical.py, `_encode_domain`).
  */
module Kinds {

  datatype Kind =
    | SubjectKind
    | ActionKind
    | ResourceKind
    | Sha256DigestKind
    | PrincipalKind
    | SubjectPrincipalBindingKind
    | ApproverSubjectPrincipalBindingKind
    | AuthorityScopeKind
    | AuthorityGrantKind
    | DelegationChainKind
    | RevocationSetKind
    | AuthorizationStateKind
    | VerifiedAuthorityKind
    | AuthorityApplicabilityStatusKind
    | AuthorityBoundEvaluationKind
    | AuthorityApplicabilityResultKind
    | FieldNamespaceKind
    | FieldReferenceKind
    | ConditionOperatorKind
    | ConditionKind
    | RequestContextKind
    | AuthorityContextKind
    | AuthorizationRequestKind
    | SubjectAuthorityBindingStatusKind
    | SubjectAuthorityBindingResultKind
    | OutcomeKind
    | ConditionStatusKind
    | ReasonKind
    | ObligationKind
    | ApprovalRequirementKind
    | ApproverAuthorizationStatusKind
    | ApproverAuthorizationResultKind
    | ApprovalRequirementStatusKind
    | ApprovalStatusKind
    | ApprovalRequirementStateKind
    | RuleEffectKind
    | RuleEvaluationStatusKind
    | RuleKind
    | PolicyKind
    | PolicyBundleKind
    | RuleEvaluationKind
    | DecisionEvidenceKind
    | DecisionKind
    | DecisionReceiptKind
    | PendingApprovalKind
    | ExecutionPermitKind

  /** The wire type, which names the schema and its version. */
  function WireType(k: Kind): string {
    match k
    case SubjectKind => "nest-authz/subject@1"
    case ActionKind => "nest-authz/action@1"
    case ResourceKind => "nest-authz/resource@1"
    case Sha256DigestKind => "nest-authz/sha256-digest@1"
    case PrincipalKind => "nest-authz/principal@1"
    case SubjectPrincipalBindingKind => "nest-authz/subject-principal-binding@1"
    case ApproverSubjectPrincipalBindingKind => "nest-authz/approver-subject-principal-binding@1"
    case AuthorityScopeKind => "nest-authz/authority-scope@1"
    case AuthorityGrantKind => "nest-authz/authority-grant@1"
    case DelegationChainKind => "nest-authz/delegation-chain@1"
    case RevocationSetKind => "nest-authz/revocation-set@1"
    case AuthorizationStateKind => "nest-authz/authorization-state@1"
    case VerifiedAuthorityKind => "nest-authz/verified-authority@1"
    case AuthorityApplicabilityStatusKind => "nest-authz/authority-applicability-status@1"
    case AuthorityBoundEvaluationKind => "nest-authz/authority-bound-evaluation@1"
    case AuthorityApplicabilityResultKind => "nest-authz/authority-applicability-result@1"
    case FieldNamespaceKind => "nest-authz/field-namespace@1"
    case FieldReferenceKind => "nest-authz/field-reference@1"
    case ConditionOperatorKind => "nest-authz/condition-operator@1"
    case ConditionKind => "nest-authz/condition@2"
    case RequestContextKind => "nest-authz/request-context@1"
    case AuthorityContextKind => "nest-authz/authority-context@1"
    case AuthorizationRequestKind => "nest-authz/authorization-request@2"
    case SubjectAuthorityBindingStatusKind => "nest-authz/subject-authority-binding-status@1"
    case SubjectAuthorityBindingResultKind => "nest-authz/subject-authority-binding-result@1"
    case OutcomeKind => "nest-authz/outcome@1"
    case ConditionStatusKind => "nest-authz/condition-status@1"
    case ReasonKind => "nest-authz/reason@1"
    case ObligationKind => "nest-authz/obligation@1"
    case ApprovalRequirementKind => "nest-authz/approval-requirement@2"
    case ApproverAuthorizationStatusKind => "nest-authz/approver-authorization-status@1"
    case ApproverAuthorizationResultKind => "nest-authz/approver-authorization-result@1"
    case ApprovalRequirementStatusKind => "nest-authz/approval-requirement-status@1"
    case ApprovalStatusKind => "nest-authz/approval-status@1"
    case ApprovalRequirementStateKind => "nest-authz/approval-requirement-state@2"
    case RuleEffectKind => "nest-authz/rule-effect@1"
    case RuleEvaluationStatusKind => "nest-authz/rule-evaluation-status@1"
    case RuleKind => "nest-authz/rule@3"
    case PolicyKind => "nest-authz/policy@3"
    case PolicyBundleKind => "nest-authz/policy-bundle@3"
    case RuleEvaluationKind => "nest-authz/rule-evaluation@1"
    case DecisionEvidenceKind => "nest-authz/decision-evidence@5"
    case DecisionKind => "nest-authz/decision@5"
    case DecisionReceiptKind => "nest-authz/decision-receipt@2"
    case PendingApprovalKind => "nest-authz/pending-approval@2"
    case ExecutionPermitKind => "nest-authz/execution-permit@1"
  }

  /** The record's field names, in the order the encoder lists them. */
  function FieldNames(k: Kind): seq<string> {
    match k
    case SubjectKind => ["identifier"]
    case ActionKind => ["name"]
    case ResourceKind => ["identifier"]
    case Sha256DigestKind => ["algorithm", "value"]
    case PrincipalKind => ["identifier"]
    case SubjectPrincipalBindingKind => ["subject", "principal"]
    case ApproverSubjectPrincipalBindingKind => ["subject", "principal"]
    case AuthorityScopeKind => ["action", "resource", "context_upper_bounds"]
    case AuthorityGrantKind => [
        "identifier", "grantor", "grantee", "scope", "parent_grant_id", "valid_from",
        "valid_until"]
    case DelegationChainKind => ["grants"]
    case RevocationSetKind => ["grant_ids"]
    case AuthorizationStateKind => ["logical_time", "revocations"]
    case VerifiedAuthorityKind => ["grant_id", "principal", "scope", "validated_at", "chain_digest", "state_digest"]
    case AuthorityApplicabilityStatusKind => ["value"]
    case AuthorityBoundEvaluationKind => ["name", "upper_bound", "present", "supplied_value", "status"]
    case AuthorityApplicabilityResultKind => [
        "status", "request_digest", "authority_digest", "chain_digest", "state_digest",
        "effective_grant_id", "expected_action", "request_action", "action_matches",
        "expected_resource", "request_resource", "resource_matches", "bound_evaluations"]
    case FieldNamespaceKind => ["value"]
    case FieldReferenceKind => ["namespace", "name"]
    case ConditionOperatorKind => ["value"]
    case ConditionKind => ["identifier", "field", "operator", "value"]
    case RequestContextKind => ["attributes"]
    case AuthorityContextKind => ["identifier", "attributes"]
    case AuthorizationRequestKind => ["subject", "action", "resource", "context", "authority_context"]
    case SubjectAuthorityBindingStatusKind => ["value"]
    case SubjectAuthorityBindingResultKind => [
        "status", "request_digest", "authority_digest", "request_subject", "binding",
        "authority_principal", "effective_grant_id"]
    case OutcomeKind => ["value"]
    case ConditionStatusKind => ["value"]
    case ReasonKind => ["code", "message"]
    case ObligationKind => ["code", "parameters"]
    case ApprovalRequirementKind => ["code", "allowed_principals", "parameters"]
    case ApproverAuthorizationStatusKind => ["value"]
    case ApproverAuthorizationResultKind => [
        "status", "actor", "binding", "required_requirement", "attempted_requirement"]
    case ApprovalRequirementStatusKind => ["value"]
    case ApprovalStatusKind => ["value"]
    case ApprovalRequirementStateKind => ["requirement", "status", "authorization", "logical_time"]
    case RuleEffectKind => ["value"]
    case RuleEvaluationStatusKind => ["value"]
    case RuleKind => ["identifier", "effect", "conditions", "obligations", "approval_requirements"]
    case PolicyKind => ["identifier", "rules"]
    case PolicyBundleKind => ["combining_algorithm", "policies"]
    case RuleEvaluationKind => ["policy_id", "rule_id", "effect", "status", "condition_results"]
    case DecisionEvidenceKind => [
        "policy_bundle_digest", "request_digest", "rule_evaluations", "authority_applicability",
        "subject_authority_binding"]
    case DecisionKind => ["outcome", "reasons", "evidence", "obligations", "approval_requirements"]
    case DecisionReceiptKind => [
        "request_digest", "policy_bundle_digest", "validated_authority_digest",
        "delegation_chain_digest", "authorization_state_digest",
        "subject_principal_binding_evidence_digest", "authority_applicability_evidence_digest",
        "decision_digest", "outcome", "approval_requirements"]
    case PendingApprovalKind => [
        "receipt", "receipt_digest", "requirement_states", "logical_time", "consumed_at",
        "execution_permit_digest", "status"]
    case ExecutionPermitKind => [
        "original_receipt_digest", "approved_state_digest", "current_request_digest",
        "current_policy_bundle_digest", "current_delegation_chain_digest",
        "current_authorization_state_digest", "current_validated_authority_digest",
        "subject_authority_binding", "authority_applicability", "decision"]
  }

  /** The number of fields of a record. */
  function Arity(k: Kind): nat {
    match k
    case SubjectKind => 1
    case ActionKind => 1
    case ResourceKind => 1
    case Sha256DigestKind => 2
    case PrincipalKind => 1
    case SubjectPrincipalBindingKind => 2
    case ApproverSubjectPrincipalBindingKind => 2
    case AuthorityScopeKind => 3
    case AuthorityGrantKind => 7
    case DelegationChainKind => 1
    case RevocationSetKind => 1
    case AuthorizationStateKind => 2
    case VerifiedAuthorityKind => 6
    case AuthorityApplicabilityStatusKind => 1
    case AuthorityBoundEvaluationKind => 5
    case AuthorityApplicabilityResultKind => 13
    case FieldNamespaceKind => 1
    case FieldReferenceKind => 2
    case ConditionOperatorKind => 1
    case ConditionKind => 4
    case RequestContextKind => 1
    case AuthorityContextKind => 2
    case AuthorizationRequestKind => 5
    case SubjectAuthorityBindingStatusKind => 1
    case SubjectAuthorityBindingResultKind => 7
    case OutcomeKind => 1
    case ConditionStatusKind => 1
    case ReasonKind => 2
    case ObligationKind => 2
    case ApprovalRequirementKind => 3
    case ApproverAuthorizationStatusKind => 1
    case ApproverAuthorizationResultKind => 5
    case ApprovalRequirementStatusKind => 1
    case ApprovalStatusKind => 1
    case ApprovalRequirementStateKind => 4
    case RuleEffectKind => 1
    case RuleEvaluationStatusKind => 1
    case RuleKind => 5
    case PolicyKind => 2
    case PolicyBundleKind => 2
    case RuleEvaluationKind => 5
    case DecisionEvidenceKind => 5
    case DecisionKind => 5
    case DecisionReceiptKind => 10
    case PendingApprovalKind => 7
    case ExecutionPermitKind => 10
  }

  /** Length and two characters of a wire type, in one number. */
  function WireCode(w: string): int {
    if |w| < 16 then 0 else |w| * 0x10000 + (w[11] as int) * 0x100 + w[|w| - 5] as int
  }

  function KindCode(k: Kind): int {
    match k
    case SubjectKind => 1340261
    case ActionKind => 1270121
    case ResourceKind => 1405554
    case Sha256DigestKind => 1733477
    case PrincipalKind => 1470576
    case SubjectPrincipalBindingKind => 2519913
    case ApproverSubjectPrincipalBindingKind => 3105129
    case AuthorityScopeKind => 1859951
    case AuthorityGrantKind => 1859937
    case DelegationChainKind => 1926241
    case RevocationSetKind => 1798771
    case AuthorizationStateKind => 2122081
    case VerifiedAuthorityKind => 2061929
    case AuthorityApplicabilityStatusKind => 2842996
    case AuthorityBoundEvaluationKind => 2580841
    case AuthorityApplicabilityResultKind => 2842997
    case FieldNamespaceKind => 1861217
    case FieldReferenceKind => 1861230
    case ConditionOperatorKind => 2057076
    case ConditionKind => 1467241
    case RequestContextKind => 1864293
    case AuthorityContextKind => 1991013
    case AuthorizationRequestKind => 2253157
    case SubjectAuthorityBindingStatusKind => 2978676
    case SubjectAuthorityBindingResultKind => 2978677
    case OutcomeKind => 1339247
    case ConditionStatusKind => 1926004
    case ReasonKind => 1274483
    case ObligationKind => 1535849
    case ApprovalRequirementKind => 2187621
    case ApproverAuthorizationStatusKind => 2777460
    case ApproverAuthorizationResultKind => 2777461
    case ApprovalRequirementStatusKind => 2646388
    case ApprovalStatusKind => 1859956
    case ApprovalRequirementStateKind => 2580833
    case RuleEffectKind => 1602149
    case RuleEvaluationStatusKind => 2323060
    case RuleKind => 1143413
    case PolicyKind => 1273961
    case PolicyBundleKind => 1732708
    case RuleEvaluationKind => 1864297
    case DecisionEvidenceKind => 1991790
    case DecisionKind => 1401961
    case DecisionReceiptKind => 1926249
    case PendingApprovalKind => 1929334
    case ExecutionPermitKind => 1926509
  }

  /** The code of a kind's wire type is the kind's own, and its schema has as many fields as its arity. */
  ghost predicate Agrees(k: Kind) {
    WireCode(WireType(k)) == KindCode(k) && |FieldNames(k)| == Arity(k)
  }

  lemma {:induction false} SubjectAndActionAgree()
    ensures Agrees(SubjectKind)
    ensures Agrees(ActionKind)
  {
    assert var w := WireType(SubjectKind); |w| == 20 && w[11] == 's' && w[15] == 'e';
    assert var w := WireType(ActionKind); |w| == 19 && w[11] == 'a' && w[14] == 'i';
  }

  lemma {:induction false} ResourceAndSha256DigestAgree()
    ensures Agrees(ResourceKind)
    ensures Agrees(Sha256DigestKind)
  {
    assert var w := WireType(ResourceKind); |w| == 21 && w[11] == 'r' && w[16] == 'r';
    assert var w := WireType(Sha256DigestKind); |w| == 26 && w[11] == 's' && w[21] == 'e';
  }

  lemma {:induction false} PrincipalAndSubjectPrincipalBindingAgree()
    ensures Agrees(PrincipalKind)
    ensures Agrees(SubjectPrincipalBindingKind)
  {
    assert var w := WireType(PrincipalKind); |w| == 22 && w[11] == 'p' && w[17] == 'p';
    assert var w := WireType(SubjectPrincipalBindingKind); |w| == 38 && w[11] == 's' && w[33] == 'i';
  }

  lemma {:induction false} ApproverSubjectPrincipalBindingAndAuthorityScopeAgree()
    ensures Agrees(ApproverSubjectPrincipalBindingKind)
    ensures Agrees(AuthorityScopeKind)
  {
    assert var w := WireType(ApproverSubjectPrincipalBindingKind); |w| == 47 && w[11] == 'a' && w[42] == 'i';
    assert var w := WireType(AuthorityScopeKind); |w| == 28 && w[11] == 'a' && w[23] == 'o';
  }

  lemma {:induction false} AuthorityGrantAndDelegationChainAgree()
    ensures Agrees(AuthorityGrantKind)
    ensures Agrees(DelegationChainKind)
  {
    assert var w := WireType(AuthorityGrantKind); |w| == 28 && w[11] == 'a' && w[23] == 'a';
    assert var w := WireType(DelegationChainKind); |w| == 29 && w[11] == 'd' && w[24] == 'a';
  }

  lemma {:induction false} RevocationSetAndAuthorizationStateAgree()
    ensures Agrees(RevocationSetKind)
    ensures Agrees(AuthorizationStateKind)
  {
    assert var w := WireType(RevocationSetKind); |w| == 27 && w[11] == 'r' && w[22] == 's';
    assert var w := WireType(AuthorizationStateKind); |w| == 32 && w[11] == 'a' && w[27] == 'a';
  }

  lemma {:induction false} VerifiedAuthorityAndAuthorityApplicabilityStatusAgree()
    ensures Agrees(VerifiedAuthorityKind)
    ensures Agrees(AuthorityApplicabilityStatusKind)
  {
    assert var w := WireType(VerifiedAuthorityKind); |w| == 31 && w[11] == 'v' && w[26] == 'i';
    assert var w := WireType(AuthorityApplicabilityStatusKind); |w| == 43 && w[11] == 'a' && w[38] == 't';
  }

  lemma {:induction false} AuthorityBoundEvaluationAndAuthorityApplicabilityResultAgree()
    ensures Agrees(AuthorityBoundEvaluationKind)
    ensures Agrees(AuthorityApplicabilityResultKind)
  {
    assert var w := WireType(AuthorityBoundEvaluationKind); |w| == 39 && w[11] == 'a' && w[34] == 'i';
    assert var w := WireType(AuthorityApplicabilityResultKind); |w| == 43 && w[11] == 'a' && w[38] == 'u';
  }

  lemma {:induction false} FieldNamespaceAndFieldReferenceAgree()
    ensures Agrees(FieldNamespaceKind)
    ensures Agrees(FieldReferenceKind)
  {
    assert var w := WireType(FieldNamespaceKind); |w| == 28 && w[11] == 'f' && w[23] == 'a';
    assert var w := WireType(FieldReferenceKind); |w| == 28 && w[11] == 'f' && w[23] == 'n';
  }

  lemma {:induction false} ConditionOperatorAndConditionAgree()
    ensures Agrees(ConditionOperatorKind)
    ensures Agrees(ConditionKind)
  {
    assert var w := WireType(ConditionOperatorKind); |w| == 31 && w[11] == 'c' && w[26] == 't';
    assert var w := WireType(ConditionKind); |w| == 22 && w[11] == 'c' && w[17] == 'i';
  }

  lemma {:induction false} RequestContextAndAuthorityContextAgree()
    ensures Agrees(RequestContextKind)
    ensures Agrees(AuthorityContextKind)
  {
    assert var w := WireType(RequestContextKind); |w| == 28 && w[11] == 'r' && w[23] == 'e';
    assert var w := WireType(AuthorityContextKind); |w| == 30 && w[11] == 'a' && w[25] == 'e';
  }

  lemma {:induction false} AuthorizationRequestAndSubjectAuthorityBindingStatusAgree()
    ensures Agrees(AuthorizationRequestKind)
    ensures Agrees(SubjectAuthorityBindingStatusKind)
  {
    assert var w := WireType(AuthorizationRequestKind); |w| == 34 && w[11] == 'a' && w[29] == 'e';
    assert var w := WireType(SubjectAuthorityBindingStatusKind); |w| == 45 && w[11] == 's' && w[40] == 't';
  }

  lemma {:induction false} SubjectAuthorityBindingResultAndOutcomeAgree()
    ensures Agrees(SubjectAuthorityBindingResultKind)
    ensures Agrees(OutcomeKind)
  {
    assert var w := WireType(SubjectAuthorityBindingResultKind); |w| == 45 && w[11] == 's' && w[40] == 'u';
    assert var w := WireType(OutcomeKind); |w| == 20 && w[11] == 'o' && w[15] == 'o';
  }

  lemma {:induction false} ConditionStatusAndReasonAgree()
    ensures Agrees(ConditionStatusKind)
    ensures Agrees(ReasonKind)
  {
    assert var w := WireType(ConditionStatusKind); |w| == 29 && w[11] == 'c' && w[24] == 't';
    assert var w := WireType(ReasonKind); |w| == 19 && w[11] == 'r' && w[14] == 's';
  }

  lemma {:induction false} ObligationAndApprovalRequirementAgree()
    ensures Agrees(ObligationKind)
    ensures Agrees(ApprovalRequirementKind)
  {
    assert var w := WireType(ObligationKind); |w| == 23 && w[11] == 'o' && w[18] == 'i';
    assert var w := WireType(ApprovalRequirementKind); |w| == 33 && w[11] == 'a' && w[28] == 'e';
  }

  lemma {:induction false} ApproverAuthorizationStatusAndApproverAuthorizationResultAgree()
    ensures Agrees(ApproverAuthorizationStatusKind)
    ensures Agrees(ApproverAuthorizationResultKind)
  {
    assert var w := WireType(ApproverAuthorizationStatusKind); |w| == 42 && w[11] == 'a' && w[37] == 't';
    assert var w := WireType(ApproverAuthorizationResultKind); |w| == 42 && w[11] == 'a' && w[37] == 'u';
  }

  lemma {:induction false} ApprovalRequirementStatusAndApprovalStatusAgree()
    ensures Agrees(ApprovalRequirementStatusKind)
    ensures Agrees(ApprovalStatusKind)
  {
    assert var w := WireType(ApprovalRequirementStatusKind); |w| == 40 && w[11] == 'a' && w[35] == 't';
    assert var w := WireType(ApprovalStatusKind); |w| == 28 && w[11] == 'a' && w[23] == 't';
  }

  lemma {:induction false} ApprovalRequirementStateAndRuleEffectAgree()
    ensures Agrees(ApprovalRequirementStateKind)
    ensures Agrees(RuleEffectKind)
  {
    assert var w := WireType(ApprovalRequirementStateKind); |w| == 39 && w[11] == 'a' && w[34] == 'a';
    assert var w := WireType(RuleEffectKind); |w| == 24 && w[11] == 'r' && w[19] == 'e';
  }

  lemma {:induction false} RuleEvaluationStatusAndRuleAgree()
    ensures Agrees(RuleEvaluationStatusKind)
    ensures Agrees(RuleKind)
  {
    assert var w := WireType(RuleEvaluationStatusKind); |w| == 35 && w[11] == 'r' && w[30] == 't';
    assert var w := WireType(RuleKind); |w| == 17 && w[11] == 'r' && w[12] == 'u';
  }

  lemma {:induction false} PolicyAndPolicyBundleAgree()
    ensures Agrees(PolicyKind)
    ensures Agrees(PolicyBundleKind)
  {
    assert var w := WireType(PolicyKind); |w| == 19 && w[11] == 'p' && w[14] == 'i';
    assert var w := WireType(PolicyBundleKind); |w| == 26 && w[11] == 'p' && w[21] == 'd';
  }

  lemma {:induction false} RuleEvaluationAndDecisionEvidenceAgree()
    ensures Agrees(RuleEvaluationKind)
    ensures Agrees(DecisionEvidenceKind)
  {
    assert var w := WireType(RuleEvaluationKind); |w| == 28 && w[11] == 'r' && w[23] == 'i';
    assert var w := WireType(DecisionEvidenceKind); |w| == 30 && w[11] == 'd' && w[25] == 'n';
  }

  lemma {:induction false} DecisionAndDecisionReceiptAgree()
    ensures Agrees(DecisionKind)
    ensures Agrees(DecisionReceiptKind)
  {
    assert var w := WireType(DecisionKind); |w| == 21 && w[11] == 'd' && w[16] == 'i';
    assert var w := WireType(DecisionReceiptKind); |w| == 29 && w[11] == 'd' && w[24] == 'i';
  }

  lemma {:induction false} PendingApprovalAndExecutionPermitAgree()
    ensures Agrees(PendingApprovalKind)
    ensures Agrees(ExecutionPermitKind)
  {
    assert var w := WireType(PendingApprovalKind); |w| == 29 && w[11] == 'p' && w[24] == 'v';
    assert var w := WireType(ExecutionPermitKind); |w| == 29 && w[11] == 'e' && w[24] == 'm';
  }

  lemma {:induction false} WireCodeIsKindCode(k: Kind)
    ensures Agrees(k)
  {
    hide Agrees;
    SubjectAndActionAgree();
    ResourceAndSha256DigestAgree();
    PrincipalAndSubjectPrincipalBindingAgree();
    ApproverSubjectPrincipalBindingAndAuthorityScopeAgree();
    AuthorityGrantAndDelegationChainAgree();
    RevocationSetAndAuthorizationStateAgree();
    VerifiedAuthorityAndAuthorityApplicabilityStatusAgree();
    AuthorityBoundEvaluationAndAuthorityApplicabilityResultAgree();
    FieldNamespaceAndFieldReferenceAgree();
    ConditionOperatorAndConditionAgree();
    RequestContextAndAuthorityContextAgree();
    AuthorizationRequestAndSubjectAuthorityBindingStatusAgree();
    SubjectAuthorityBindingResultAndOutcomeAgree();
    ConditionStatusAndReasonAgree();
    ObligationAndApprovalRequirementAgree();
    ApproverAuthorizationStatusAndApproverAuthorizationResultAgree();
    ApprovalRequirementStatusAndApprovalStatusAgree();
    ApprovalRequirementStateAndRuleEffectAgree();
    RuleEvaluationStatusAndRuleAgree();
    PolicyAndPolicyBundleAgree();
    RuleEvaluationAndDecisionEvidenceAgree();
    DecisionAndDecisionReceiptAgree();
    PendingApprovalAndExecutionPermitAgree();
  }

  lemma {:induction false} DistinctCodes(f: Kind -> string)
    requires forall k :: WireCode(f(k)) == KindCode(k)
    ensures forall k, l :: f(k) == f(l) ==> k == l
  {
    forall k, l | f(k) == f(l) ensures k == l {
      assert KindCode(k) == KindCode(l);
    }
  }

  /** No two record types share a wire type. */
  lemma {:induction false} WireTypesDistinct()
    ensures forall k, l :: WireType(k) == WireType(l) ==> k == l
  {
    forall k ensures WireCode(WireType(k)) == KindCode(k) {
      WireCodeIsKindCode(k);
    }
    DistinctCodes(WireType);
  }
}
