/**
  The immutable domain values (domain.py). Constructor invariants that order or deduplicate a
  keyed collection are in the type `Keyed`; the others are stated where they are needed.
  */
module Domain {
  import opened Wrappers
  import opened Utf8

  /** Name/value pairs with distinct names, in the byte order of the names. */
  type Keyed<T> = es: seq<(string, T)> | KeysAscending(es) witness []

  predicate KeysAscending<T>(es: seq<(string, T)>) {
    forall i, j :: 0 <= i < j < |es| ==> BytesLess(es[i].0, es[j].0)
  }

  /** An identifier some constructor has found not to be blank. */
  type Name = s: string | !Blank(s) witness (assert !Whitespace("name"[0]); "name")

  /** Upper bounds with distinct, nonblank names. */
  type Bounds = es: seq<(string, int)> | KeysAscending(es) && NoBlankKey(es) witness []

  predicate NoBlankKey<T>(es: seq<(string, T)>) {
    forall i :: 0 <= i < |es| ==> !Blank(es[i].0)
  }

  type Digest = d: Bytes | |d| == 32 witness seq(32, i => 0)

  /** A `str`, `int`, `bool` or `None`, never coerced into one another. */
  datatype Scalar = NoValue | Flag(b: bool) | Number(n: int) | Words(s: string)

  /** The first value stored under a name. */
  function Lookup<T>(es: seq<(string, T)>, name: string): Option<T> {
    if es == [] then None
    else if es[0].0 == name then Some(es[0].1)
    else Lookup(es[1..], name)
  }

  datatype Subject = Subject(identifier: string)
  datatype Action = Action(name: string)
  datatype Resource = Resource(identifier: string)
  datatype Principal = Principal(identifier: string)
  datatype SubjectPrincipalBinding = SubjectPrincipalBinding(subject: Subject, principal: Principal)
  datatype ApproverBinding = ApproverBinding(subject: Subject, principal: Principal)

  // ----- Delegated authority

  datatype AuthorityScope = AuthorityScope(action: Action, resource: Resource, bounds: Bounds)

  datatype AuthorityGrant = AuthorityGrant(
    identifier: Name, grantor: Principal, grantee: Principal, scope: AuthorityScope,
    parent: Option<string>, validFrom: int, validUntil: int)

  datatype DelegationChain = DelegationChain(grants: seq<AuthorityGrant>)
  datatype RevocationSet = RevocationSet(grantIds: seq<string>)
  datatype AuthorizationState = AuthorizationState(logicalTime: int, revocations: RevocationSet)

  datatype VerifiedAuthority = VerifiedAuthority(
    grantId: Name, principal: Principal, scope: AuthorityScope, validatedAt: int,
    chainDigest: Digest, stateDigest: Digest)

  // ----- Requests

  datatype RequestContext = RequestContext(attributes: Keyed<Scalar>)
  datatype AuthorityContext = AuthorityContext(identifier: string, attributes: Keyed<Scalar>)

  datatype AuthorizationRequest = AuthorizationRequest(
    subject: Subject, action: Action, resource: Resource, context: RequestContext,
    authorityContext: Option<AuthorityContext>)

  // ----- Authority evidence

  datatype ApplicabilityStatus =
    Applicable | ActionMismatch | ResourceMismatch | MissingContext | BoundExceeded | BoundTypeError

  datatype BoundEvaluation = BoundEvaluation(
    name: string, upperBound: int, present: bool, supplied: Scalar, status: ApplicabilityStatus)

  datatype ApplicabilityResult = ApplicabilityResult(
    status: ApplicabilityStatus, requestDigest: Digest, authorityDigest: Digest, chainDigest: Digest,
    stateDigest: Digest, grantId: string, expectedAction: Action, requestAction: Action,
    actionMatches: bool, expectedResource: Resource, requestResource: Resource,
    resourceMatches: bool, bounds: seq<BoundEvaluation>)

  datatype BindingStatus = Bound | SubjectMismatch | PrincipalMismatch

  datatype BindingResult = BindingResult(
    status: BindingStatus, requestDigest: Digest, authorityDigest: Digest, requestSubject: Subject,
    binding: SubjectPrincipalBinding, authorityPrincipal: Principal, grantId: string)

  // ----- Policies

  datatype Namespace = SubjectFields | ActionFields | ResourceFields | ContextFields | AuthorityFields
  datatype FieldReference = FieldReference(namespace: Namespace, name: string)

  datatype Operator =
    Equals | NotEquals | Exists | LessThan | LessThanOrEqual | GreaterThan | GreaterThanOrEqual

  datatype Condition = Condition(identifier: string, field: FieldReference, operator: Operator, value: Scalar)

  datatype Obligation = Obligation(code: string, parameters: Keyed<Scalar>)

  datatype ApprovalRequirement = ApprovalRequirement(
    code: string, allowedPrincipals: seq<Principal>, parameters: Keyed<Scalar>)

  datatype Effect = PermitEffect | DenyEffect | ApprovalEffect

  datatype Rule = Rule(
    identifier: string, effect: Effect, conditions: seq<Condition>, obligations: seq<Obligation>,
    approvals: seq<ApprovalRequirement>)

  datatype Policy = Policy(identifier: string, rules: seq<Rule>)
  datatype PolicyBundle = PolicyBundle(policies: seq<Policy>)

  // ----- Decisions

  datatype ConditionStatus = Satisfied | Unsatisfied | NotEvaluated | MissingInput | ConditionError
  datatype RuleStatus = Matched | NotMatched | Indeterminate

  datatype RuleEvaluation = RuleEvaluation(
    policyId: string, ruleId: string, effect: Effect, status: RuleStatus, results: Keyed<ConditionStatus>)

  datatype DecisionEvidence = DecisionEvidence(
    bundleDigest: Digest, requestDigest: Digest, rules: seq<RuleEvaluation>,
    applicability: Option<ApplicabilityResult>, binding: Option<BindingResult>)

  datatype Outcome = Permit | Deny | ApprovalRequired
  datatype Reason = Reason(code: string, message: string)

  datatype Decision = Decision(
    outcome: Outcome, reasons: seq<Reason>, evidence: DecisionEvidence, obligations: seq<Obligation>,
    approvals: seq<ApprovalRequirement>)

  // ----- Approval and execution

  datatype DecisionReceipt = DecisionReceipt(
    requestDigest: Digest, bundleDigest: Digest, authorityDigest: Option<Digest>,
    chainDigest: Option<Digest>, stateDigest: Option<Digest>, bindingDigest: Option<Digest>,
    applicabilityDigest: Option<Digest>, decisionDigest: Digest, outcome: Outcome,
    approvals: seq<ApprovalRequirement>)

  datatype ApproverStatus = Authorized | ApproverSubjectMismatch | PrincipalNotAllowed | RequirementMismatch

  datatype ApproverAuthorization = ApproverAuthorization(
    status: ApproverStatus, actor: Subject, binding: ApproverBinding,
    required: ApprovalRequirement, attempted: ApprovalRequirement)

  datatype RequirementStatus = Pending | Approved | Rejected | Expired

  datatype RequirementState = RequirementState(
    requirement: ApprovalRequirement, status: RequirementStatus,
    authorization: Option<ApproverAuthorization>, logicalTime: int)

  datatype ApprovalStatus =
    ApprovalPending | ApprovalApproved | ApprovalRejected | ApprovalExpired | ApprovalConsumed

  datatype PendingApproval = PendingApproval(
    receipt: DecisionReceipt, receiptDigest: Digest, states: seq<RequirementState>, logicalTime: int,
    consumedAt: Option<int>, permitDigest: Option<Digest>, status: ApprovalStatus)

  datatype ExecutionPermit = ExecutionPermit(
    receiptDigest: Digest, approvedStateDigest: Digest, requestDigest: Digest, bundleDigest: Digest,
    chainDigest: Digest, stateDigest: Digest, authorityDigest: Digest, binding: BindingResult,
    applicability: ApplicabilityResult, decision: Decision)

  // ----- The names of enumeration members

  function ApplicabilityStatusText(x: ApplicabilityStatus): string {
    match x
    case Applicable => "APPLICABLE"
    case ActionMismatch => "ACTION_MISMATCH"
    case ResourceMismatch => "RESOURCE_MISMATCH"
    case MissingContext => "MISSING_CONTEXT"
    case BoundExceeded => "BOUND_EXCEEDED"
    case BoundTypeError => "TYPE_ERROR"
  }

  function BindingStatusText(x: BindingStatus): string {
    match x
    case Bound => "BOUND"
    case SubjectMismatch => "SUBJECT_MISMATCH"
    case PrincipalMismatch => "PRINCIPAL_MISMATCH"
  }

  function NamespaceText(x: Namespace): string {
    match x
    case SubjectFields => "SUBJECT"
    case ActionFields => "ACTION"
    case ResourceFields => "RESOURCE"
    case ContextFields => "CONTEXT"
    case AuthorityFields => "AUTHORITY"
  }

  function OperatorText(x: Operator): string {
    match x
    case Equals => "EQUALS"
    case NotEquals => "NOT_EQUALS"
    case Exists => "EXISTS"
    case LessThan => "INTEGER_LESS_THAN"
    case LessThanOrEqual => "INTEGER_LESS_THAN_OR_EQUAL"
    case GreaterThan => "INTEGER_GREATER_THAN"
    case GreaterThanOrEqual => "INTEGER_GREATER_THAN_OR_EQUAL"
  }

  function EffectText(x: Effect): string {
    match x
    case PermitEffect => "PERMIT"
    case DenyEffect => "DENY"
    case ApprovalEffect => "APPROVAL_REQUIRED"
  }

  function ConditionStatusText(x: ConditionStatus): string {
    match x
    case Satisfied => "SATISFIED"
    case Unsatisfied => "UNSATISFIED"
    case NotEvaluated => "NOT_EVALUATED"
    case MissingInput => "MISSING_INPUT"
    case ConditionError => "ERROR"
  }

  function RuleStatusText(x: RuleStatus): string {
    match x
    case Matched => "MATCHED"
    case NotMatched => "NOT_MATCHED"
    case Indeterminate => "INDETERMINATE"
  }

  function OutcomeText(x: Outcome): string {
    match x
    case Permit => "PERMIT"
    case Deny => "DENY"
    case ApprovalRequired => "APPROVAL_REQUIRED"
  }

  function ApproverStatusText(x: ApproverStatus): string {
    match x
    case Authorized => "AUTHORIZED"
    case ApproverSubjectMismatch => "SUBJECT_MISMATCH"
    case PrincipalNotAllowed => "PRINCIPAL_NOT_ALLOWED"
    case RequirementMismatch => "REQUIREMENT_MISMATCH"
  }

  function RequirementStatusText(x: RequirementStatus): string {
    match x
    case Pending => "PENDING"
    case Approved => "APPROVED"
    case Rejected => "REJECTED"
    case Expired => "EXPIRED"
  }

  function ApprovalStatusText(x: ApprovalStatus): string {
    match x
    case ApprovalPending => "PENDING"
    case ApprovalApproved => "APPROVED"
    case ApprovalRejected => "REJECTED"
    case ApprovalExpired => "EXPIRED"
    case ApprovalConsumed => "CONSUMED"
  }

  /** Everything whose content digest the program takes and later compares. */
  datatype DomainValue =
    | OfRequest(request: AuthorizationRequest)
    | OfBundle(bundle: PolicyBundle)
    | OfGrant(grant: AuthorityGrant)
    | OfChain(chain: DelegationChain)
    | OfState(state: AuthorizationState)
    | OfAuthority(authority: VerifiedAuthority)
    | OfApplicability(applicability: ApplicabilityResult)
    | OfBinding(binding: BindingResult)
    | OfDecision(decision: Decision)
    | OfReceipt(receipt: DecisionReceipt)
    | OfApproval(approval: PendingApproval)
    | OfPermit(permit: ExecutionPermit)

  /**
    `sha256_digest` as an arbitrary function of the value. What the upper layers need of it is
    stated where it is needed, as the absence of a collision between two given values.
    */
  type Identity = DomainValue -> Digest

  /** Two values with one digest are one value. */
  ghost predicate NoCollision(id: Identity, x: DomainValue, y: DomainValue) {
    id(x) == id(y) ==> x == y
  }
}
