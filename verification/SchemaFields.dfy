/**
  The record schemas as the encoder writes them: wire type, then every field under its name
  (canonical.py:211-1114).
  */
module SchemaFields {
  import opened Wrappers
  import opened Kinds
  import opened Canonical
  import opened Domain
  import opened Hexadecimal
  import opened Schemas
  import opened CanonicalTheorems
  import opened Decoder

  /** The record has this wire type, and these fields under these names. */
  predicate Writes(v: Value, wire: string, fields: seq<(string, Value)>) {
    && v.Record? && |v.fields| == |FieldNames(v.kind)|
    && WireType(v.kind) == wire && Zip(FieldNames(v.kind), v.fields) == fields
  }

  // ----- Records

  /** Lists keep their order, maps their names, an absent value is null, and no scalar changes its type. */
  lemma {:induction false} CollectionFields<T>(f: T -> Value, xs: seq<T>, es: Keyed<T>, o: Option<T>, s: Scalar)
    requires (forall i :: 0 <= i < |xs| ==> Proper(f(xs[i]))) && (o.Some? ==> Proper(f(o.value)))
    requires forall i :: 0 <= i < |es| ==> Proper(f(es[i].1))
    ensures var v := ListValue(f, xs);
            v.List? && |v.items| == |xs| && forall i :: 0 <= i < |xs| ==> v.items[i] == f(xs[i])
    ensures var v := DictValue(f, es);
            && v.Dict? && |v.keys| == |v.values| == |es|
            && forall i :: 0 <= i < |es| ==> v.keys[i] == es[i].0 && v.values[i] == f(es[i].1)
    ensures o.Some? ==> OptionalValue(f, o) == f(o.value)
    ensures o.None? ==> OptionalValue(f, o) == Null
    ensures ScalarValue(s).Boolean? <==> s.Flag?
    ensures ScalarValue(s).Integer? <==> s.Number?
    ensures ScalarValue(s).Text? <==> s.Words?
    ensures ScalarValue(s).Null? <==> s.NoValue?
    ensures s.Flag? ==> ScalarValue(s).b == s.b
    ensures s.Number? ==> ScalarValue(s).i == s.n
    ensures s.Words? ==> ScalarValue(s).s == s.s
  {
  }

  /** Digests. */
  lemma {:induction false} DigestFields(d: Digest)
    ensures Writes(DigestValue(d), "nest-authz/sha256-digest@1", [("algorithm", Text("sha256")), ("value", Text(Hex(d)))])
  {
    hide Hex;
  }

  /** Names and bindings. */
  lemma {:induction false} IdentityFields(
    x: Subject, y: Action, z: Resource, u: Principal, v: SubjectPrincipalBinding, w: ApproverBinding)
    ensures Writes(SubjectValue(x), "nest-authz/subject@1", [("identifier", Text(x.identifier))])
    ensures Writes(ActionValue(y), "nest-authz/action@1", [("name", Text(y.name))])
    ensures Writes(ResourceValue(z), "nest-authz/resource@1", [("identifier", Text(z.identifier))])
    ensures Writes(PrincipalValue(u), "nest-authz/principal@1", [("identifier", Text(u.identifier))])
    ensures Writes(SubjectPrincipalBindingValue(v), "nest-authz/subject-principal-binding@1", [
              ("subject", SubjectValue(v.subject)), ("principal", PrincipalValue(v.principal))])
    ensures Writes(ApproverBindingValue(w), "nest-authz/approver-subject-principal-binding@1", [
              ("subject", SubjectValue(w.subject)), ("principal", PrincipalValue(w.principal))])
  {
    hide Proper;
  }

  /** Scopes, grants and chains. */
  lemma {:induction false} DelegationFields(x: AuthorityScope, y: AuthorityGrant, z: DelegationChain)
    ensures Writes(AuthorityScopeValue(x), "nest-authz/authority-scope@1", [
              ("action", ActionValue(x.action)), ("resource", ResourceValue(x.resource)),
              ("context_upper_bounds", DictValue(IntegerValue, x.bounds))])
    ensures Writes(AuthorityGrantValue(y), "nest-authz/authority-grant@1", [
              ("identifier", Text(y.identifier)), ("grantor", PrincipalValue(y.grantor)),
              ("grantee", PrincipalValue(y.grantee)), ("scope", AuthorityScopeValue(y.scope)),
              ("parent_grant_id", OptionalValue(TextValue, y.parent)), ("valid_from", Integer(y.validFrom)),
              ("valid_until", Integer(y.validUntil))])
    ensures Writes(DelegationChainValue(z), "nest-authz/delegation-chain@1", [
              ("grants", ListValue(AuthorityGrantValue, z.grants))])
  {
    hide Proper, ActionValue, DictValue, ListValue, OptionalValue, PrincipalValue, ResourceValue;
  }

  /** Time and revocations, and the authority validated in them. */
  lemma {:induction false} StateFields(x: RevocationSet, y: AuthorizationState, z: VerifiedAuthority)
    ensures Writes(RevocationSetValue(x), "nest-authz/revocation-set@1", [
              ("grant_ids", ListValue(TextValue, x.grantIds))])
    ensures Writes(AuthorizationStateValue(y), "nest-authz/authorization-state@1", [
              ("logical_time", Integer(y.logicalTime)), ("revocations", RevocationSetValue(y.revocations))])
    ensures Writes(VerifiedAuthorityValue(z), "nest-authz/verified-authority@1", [
              ("grant_id", Text(z.grantId)), ("principal", PrincipalValue(z.principal)),
              ("scope", AuthorityScopeValue(z.scope)), ("validated_at", Integer(z.validatedAt)),
              ("chain_digest", DigestValue(z.chainDigest)), ("state_digest", DigestValue(z.stateDigest))])
  {
    hide Proper, AuthorityScopeValue, DigestValue, ListValue, PrincipalValue;
  }

  /** Contexts. */
  lemma {:induction false} ContextFields(x: RequestContext, y: AuthorityContext)
    ensures Writes(RequestContextValue(x), "nest-authz/request-context@1", [
              ("attributes", DictValue(ScalarValue, x.attributes))])
    ensures Writes(AuthorityContextValue(y), "nest-authz/authority-context@1", [
              ("identifier", Text(y.identifier)), ("attributes", DictValue(ScalarValue, y.attributes))])
  {
    hide Proper, DictValue, ScalarValue;
  }

  /** Requests. */
  lemma {:induction false} RequestFields(x: AuthorizationRequest)
    ensures Writes(AuthorizationRequestValue(x), "nest-authz/authorization-request@2", [
              ("subject", SubjectValue(x.subject)), ("action", ActionValue(x.action)),
              ("resource", ResourceValue(x.resource)), ("context", RequestContextValue(x.context)),
              ("authority_context", OptionalValue(AuthorityContextValue, x.authorityContext))])
  {
    hide Proper, ActionValue, AuthorityContextValue, OptionalValue, RequestContextValue, ResourceValue, SubjectValue;
  }

  /** What is recorded of an authority check. */
  lemma {:induction false} AuthorityEvidenceFields(x: BoundEvaluation, y: ApplicabilityResult)
    ensures Writes(BoundEvaluationValue(x), "nest-authz/authority-bound-evaluation@1", [
              ("name", Text(x.name)), ("upper_bound", Integer(x.upperBound)), ("present", Boolean(x.present)),
              ("supplied_value", ScalarValue(x.supplied)), ("status", ApplicabilityStatusValue(x.status))])
    ensures Writes(ApplicabilityResultValue(y), "nest-authz/authority-applicability-result@1", [
              ("status", ApplicabilityStatusValue(y.status)), ("request_digest", DigestValue(y.requestDigest)),
              ("authority_digest", DigestValue(y.authorityDigest)), ("chain_digest", DigestValue(y.chainDigest)),
              ("state_digest", DigestValue(y.stateDigest)), ("effective_grant_id", Text(y.grantId)),
              ("expected_action", ActionValue(y.expectedAction)), ("request_action", ActionValue(y.requestAction)),
              ("action_matches", Boolean(y.actionMatches)), ("expected_resource", ResourceValue(y.expectedResource)),
              ("request_resource", ResourceValue(y.requestResource)), ("resource_matches", Boolean(y.resourceMatches)),
              ("bound_evaluations", ListValue(BoundEvaluationValue, y.bounds))])
  {
    hide Proper, ActionValue, ApplicabilityStatusValue, DigestValue, ListValue, ResourceValue, ScalarValue;
  }

  /** What is recorded of a holder check. */
  lemma {:induction false} HolderEvidenceFields(x: BindingResult)
    ensures Writes(BindingResultValue(x), "nest-authz/subject-authority-binding-result@1", [
              ("status", BindingStatusValue(x.status)), ("request_digest", DigestValue(x.requestDigest)),
              ("authority_digest", DigestValue(x.authorityDigest)),
              ("request_subject", SubjectValue(x.requestSubject)),
              ("binding", SubjectPrincipalBindingValue(x.binding)),
              ("authority_principal", PrincipalValue(x.authorityPrincipal)), ("effective_grant_id", Text(x.grantId))])
  {
    hide Proper, BindingStatusValue, DigestValue, PrincipalValue, SubjectPrincipalBindingValue, SubjectValue;
  }

  /** Conditions. */
  lemma {:induction false} ConditionFields(x: FieldReference, y: Condition)
    ensures Writes(FieldReferenceValue(x), "nest-authz/field-reference@1", [
              ("namespace", NamespaceValue(x.namespace)), ("name", Text(x.name))])
    ensures Writes(ConditionValue(y), "nest-authz/condition@2", [
              ("identifier", Text(y.identifier)), ("field", FieldReferenceValue(y.field)),
              ("operator", OperatorValue(y.operator)), ("value", ScalarValue(y.value))])
  {
    hide Proper, NamespaceValue, OperatorValue, ScalarValue;
  }

  /** Obligations and approval requirements. */
  lemma {:induction false} DutyFields(x: Obligation, y: ApprovalRequirement)
    ensures Writes(ObligationValue(x), "nest-authz/obligation@1", [
              ("code", Text(x.code)), ("parameters", DictValue(ScalarValue, x.parameters))])
    ensures Writes(ApprovalRequirementValue(y), "nest-authz/approval-requirement@2", [
              ("code", Text(y.code)), ("allowed_principals", ListValue(PrincipalValue, y.allowedPrincipals)),
              ("parameters", DictValue(ScalarValue, y.parameters))])
  {
    hide Proper, DictValue, ListValue, PrincipalValue, ScalarValue;
  }

  /** Rules. */
  lemma {:induction false} RuleFields(x: Rule)
    ensures Writes(RuleValue(x), "nest-authz/rule@3", [
              ("identifier", Text(x.identifier)), ("effect", EffectValue(x.effect)),
              ("conditions", ListValue(ConditionValue, x.conditions)),
              ("obligations", ListValue(ObligationValue, x.obligations)),
              ("approval_requirements", ListValue(ApprovalRequirementValue, x.approvals))])
  {
    hide Proper, ApprovalRequirementValue, ConditionValue, EffectValue, ListValue, ObligationValue;
  }

  /** Policies and bundles. */
  lemma {:induction false} PolicyFields(x: Policy, y: PolicyBundle)
    ensures Writes(PolicyValue(x), "nest-authz/policy@3", [
              ("identifier", Text(x.identifier)), ("rules", ListValue(RuleValue, x.rules))])
    ensures Writes(PolicyBundleValue(y), "nest-authz/policy-bundle@3", [
              ("combining_algorithm", Text("DENY_OVERRIDES")), ("policies", ListValue(PolicyValue, y.policies))])
  {
    hide Proper, ListValue, RuleValue;
  }

  /** What is recorded of a rule. */
  lemma {:induction false} RuleEvidenceFields(x: RuleEvaluation, y: Reason)
    ensures Writes(RuleEvaluationValue(x), "nest-authz/rule-evaluation@1", [
              ("policy_id", Text(x.policyId)), ("rule_id", Text(x.ruleId)), ("effect", EffectValue(x.effect)),
              ("status", RuleStatusValue(x.status)), ("condition_results", DictValue(ConditionStatusValue, x.results))])
    ensures Writes(ReasonValue(y), "nest-authz/reason@1", [("code", Text(y.code)), ("message", Text(y.message))])
  {
    hide Proper, ConditionStatusValue, DictValue, EffectValue, RuleStatusValue;
  }

  /** The evidence of a decision. */
  lemma {:induction false} EvidenceFields(x: DecisionEvidence)
    ensures Writes(DecisionEvidenceValue(x), "nest-authz/decision-evidence@5", [
              ("policy_bundle_digest", DigestValue(x.bundleDigest)), ("request_digest", DigestValue(x.requestDigest)),
              ("rule_evaluations", ListValue(RuleEvaluationValue, x.rules)),
              ("authority_applicability", OptionalValue(ApplicabilityResultValue, x.applicability)),
              ("subject_authority_binding", OptionalValue(BindingResultValue, x.binding))])
  {
    hide Proper, ApplicabilityResultValue, BindingResultValue, DigestValue, ListValue, OptionalValue;
    hide RuleEvaluationValue;
  }

  /** Decisions. */
  lemma {:induction false} DecisionFields(x: Decision)
    ensures Writes(DecisionValue(x), "nest-authz/decision@5", [
              ("outcome", OutcomeValue(x.outcome)), ("reasons", ListValue(ReasonValue, x.reasons)),
              ("evidence", DecisionEvidenceValue(x.evidence)),
              ("obligations", ListValue(ObligationValue, x.obligations)),
              ("approval_requirements", ListValue(ApprovalRequirementValue, x.approvals))])
  {
    hide Proper, ApprovalRequirementValue, DecisionEvidenceValue, ListValue, ObligationValue, OutcomeValue;
    hide ReasonValue;
  }

  /** Receipts. */
  lemma {:induction false} ReceiptFields(x: DecisionReceipt)
    ensures Writes(DecisionReceiptValue(x), "nest-authz/decision-receipt@2", [
              ("request_digest", DigestValue(x.requestDigest)), ("policy_bundle_digest", DigestValue(x.bundleDigest)),
              ("validated_authority_digest", OptionalDigest(x.authorityDigest)),
              ("delegation_chain_digest", OptionalDigest(x.chainDigest)),
              ("authorization_state_digest", OptionalDigest(x.stateDigest)),
              ("subject_principal_binding_evidence_digest", OptionalDigest(x.bindingDigest)),
              ("authority_applicability_evidence_digest", OptionalDigest(x.applicabilityDigest)),
              ("decision_digest", DigestValue(x.decisionDigest)), ("outcome", OutcomeValue(x.outcome)),
              ("approval_requirements", ListValue(ApprovalRequirementValue, x.approvals))])
  {
    hide Proper, ApprovalRequirementValue, DigestValue, ListValue, OptionalDigest, OutcomeValue;
  }

  /** What is recorded of an approver, and of a requirement. */
  lemma {:induction false} ApproverFields(x: ApproverAuthorization, y: RequirementState)
    ensures Writes(ApproverAuthorizationValue(x), "nest-authz/approver-authorization-result@1", [
              ("status", ApproverStatusValue(x.status)), ("actor", SubjectValue(x.actor)),
              ("binding", ApproverBindingValue(x.binding)),
              ("required_requirement", ApprovalRequirementValue(x.required)),
              ("attempted_requirement", ApprovalRequirementValue(x.attempted))])
    ensures Writes(RequirementStateValue(y), "nest-authz/approval-requirement-state@2", [
              ("requirement", ApprovalRequirementValue(y.requirement)), ("status", RequirementStatusValue(y.status)),
              ("authorization", OptionalValue(ApproverAuthorizationValue, y.authorization)),
              ("logical_time", Integer(y.logicalTime))])
  {
    hide Proper, ApprovalRequirementValue, ApproverBindingValue, ApproverStatusValue, OptionalValue;
    hide RequirementStatusValue, SubjectValue;
  }

  /** Approvals. */
  lemma {:induction false} ApprovalFields(x: PendingApproval)
    ensures Writes(PendingApprovalValue(x), "nest-authz/pending-approval@2", [
              ("receipt", DecisionReceiptValue(x.receipt)), ("receipt_digest", DigestValue(x.receiptDigest)),
              ("requirement_states", ListValue(RequirementStateValue, x.states)),
              ("logical_time", Integer(x.logicalTime)), ("consumed_at", OptionalValue(IntegerValue, x.consumedAt)),
              ("execution_permit_digest", OptionalDigest(x.permitDigest)), ("status", ApprovalStatusValue(x.status))])
  {
    hide Proper, ApprovalStatusValue, DecisionReceiptValue, DigestValue, ListValue, OptionalDigest, OptionalValue;
    hide RequirementStateValue;
  }

  /** Permits. */
  lemma {:induction false} PermitFields(x: ExecutionPermit)
    ensures Writes(ExecutionPermitValue(x), "nest-authz/execution-permit@1", [
              ("original_receipt_digest", DigestValue(x.receiptDigest)),
              ("approved_state_digest", DigestValue(x.approvedStateDigest)),
              ("current_request_digest", DigestValue(x.requestDigest)),
              ("current_policy_bundle_digest", DigestValue(x.bundleDigest)),
              ("current_delegation_chain_digest", DigestValue(x.chainDigest)),
              ("current_authorization_state_digest", DigestValue(x.stateDigest)),
              ("current_validated_authority_digest", DigestValue(x.authorityDigest)),
              ("subject_authority_binding", BindingResultValue(x.binding)),
              ("authority_applicability", ApplicabilityResultValue(x.applicability)),
              ("decision", DecisionValue(x.decision))])
  {
    hide Proper, ApplicabilityResultValue, BindingResultValue, DecisionValue, DigestValue;
  }

  // ----- Enumerations

  lemma {:induction false} ApplicabilityStatusMembers(x: ApplicabilityStatus)
    ensures Writes(ApplicabilityStatusValue(x), "nest-authz/authority-applicability-status@1", [("value", Text(
              match x
              case Applicable => "APPLICABLE"
              case ActionMismatch => "ACTION_MISMATCH"
              case ResourceMismatch => "RESOURCE_MISMATCH"
              case MissingContext => "MISSING_CONTEXT"
              case BoundExceeded => "BOUND_EXCEEDED"
              case BoundTypeError => "TYPE_ERROR"))])
  {
  }

  lemma {:induction false} BindingStatusMembers(x: BindingStatus)
    ensures Writes(BindingStatusValue(x), "nest-authz/subject-authority-binding-status@1", [("value", Text(
              match x
              case Bound => "BOUND"
              case SubjectMismatch => "SUBJECT_MISMATCH"
              case PrincipalMismatch => "PRINCIPAL_MISMATCH"))])
  {
  }

  lemma {:induction false} NamespaceMembers(x: Namespace)
    ensures Writes(NamespaceValue(x), "nest-authz/field-namespace@1", [("value", Text(
              match x
              case SubjectFields => "SUBJECT"
              case ActionFields => "ACTION"
              case ResourceFields => "RESOURCE"
              case ContextFields => "CONTEXT"
              case AuthorityFields => "AUTHORITY"))])
  {
  }

  lemma {:induction false} OperatorMembers(x: Operator)
    ensures Writes(OperatorValue(x), "nest-authz/condition-operator@1", [("value", Text(
              match x
              case Equals => "EQUALS"
              case NotEquals => "NOT_EQUALS"
              case Exists => "EXISTS"
              case LessThan => "INTEGER_LESS_THAN"
              case LessThanOrEqual => "INTEGER_LESS_THAN_OR_EQUAL"
              case GreaterThan => "INTEGER_GREATER_THAN"
              case GreaterThanOrEqual => "INTEGER_GREATER_THAN_OR_EQUAL"))])
  {
  }

  lemma {:induction false} EffectMembers(x: Effect)
    ensures Writes(EffectValue(x), "nest-authz/rule-effect@1", [("value", Text(
              match x
              case PermitEffect => "PERMIT"
              case DenyEffect => "DENY"
              case ApprovalEffect => "APPROVAL_REQUIRED"))])
  {
  }

  lemma {:induction false} ConditionStatusMembers(x: ConditionStatus)
    ensures Writes(ConditionStatusValue(x), "nest-authz/condition-status@1", [("value", Text(
              match x
              case Satisfied => "SATISFIED"
              case Unsatisfied => "UNSATISFIED"
              case NotEvaluated => "NOT_EVALUATED"
              case MissingInput => "MISSING_INPUT"
              case ConditionError => "ERROR"))])
  {
  }

  lemma {:induction false} RuleStatusMembers(x: RuleStatus)
    ensures Writes(RuleStatusValue(x), "nest-authz/rule-evaluation-status@1", [("value", Text(
              match x
              case Matched => "MATCHED"
              case NotMatched => "NOT_MATCHED"
              case Indeterminate => "INDETERMINATE"))])
  {
  }

  lemma {:induction false} OutcomeMembers(x: Outcome)
    ensures Writes(OutcomeValue(x), "nest-authz/outcome@1", [("value", Text(
              match x
              case Permit => "PERMIT"
              case Deny => "DENY"
              case ApprovalRequired => "APPROVAL_REQUIRED"))])
  {
  }

  lemma {:induction false} ApproverStatusMembers(x: ApproverStatus)
    ensures Writes(ApproverStatusValue(x), "nest-authz/approver-authorization-status@1", [("value", Text(
              match x
              case Authorized => "AUTHORIZED"
              case ApproverSubjectMismatch => "SUBJECT_MISMATCH"
              case PrincipalNotAllowed => "PRINCIPAL_NOT_ALLOWED"
              case RequirementMismatch => "REQUIREMENT_MISMATCH"))])
  {
  }

  lemma {:induction false} RequirementStatusMembers(x: RequirementStatus)
    ensures Writes(RequirementStatusValue(x), "nest-authz/approval-requirement-status@1", [("value", Text(
              match x
              case Pending => "PENDING"
              case Approved => "APPROVED"
              case Rejected => "REJECTED"
              case Expired => "EXPIRED"))])
  {
  }

  lemma {:induction false} ApprovalStatusMembers(x: ApprovalStatus)
    ensures Writes(ApprovalStatusValue(x), "nest-authz/approval-status@1", [("value", Text(
              match x
              case ApprovalPending => "PENDING"
              case ApprovalApproved => "APPROVED"
              case ApprovalRejected => "REJECTED"
              case ApprovalExpired => "EXPIRED"
              case ApprovalConsumed => "CONSUMED"))])
  {
  }

  // ----- Reading back

  /** The canonical bytes of a domain value are read back as the tree its schema describes. */
  lemma {:induction false} DomainBytesRead(x: DomainValue)
    requires BytesOf(x).Some?
    ensures WellFormed(TABLE, ToValue(x)) && ReadCanonical(BytesOf(x).value) == Some(TreeOf(TABLE, ToValue(x)))
  {
    hide ToValue, WellFormed, Proper, ReadCanonical, TreeOf, CanonicalBytes;
    ProperIsWellFormed(ToValue(x));
    CanonicalRead(TABLE, ToValue(x));
  }
}
