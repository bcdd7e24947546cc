/**
  The record schemas (canonical.py, `_encode_domain`): every domain value as a value tree, and the
  proof that the tree, hence the canonical bytes, determines the domain value.
  */
module Schemas {
  import opened Wrappers
  import opened Ordering
  import opened Utf8
  import opened Kinds
  import opened Canonical
  import opened CanonicalTheorems
  import opened Domain
  import opened Hexadecimal

  // ----- Shape

  /** Records have the arity of their schema, and every map is in canonical order. */
  predicate Proper(v: Value) {
    match v
    case List(items) => forall i :: 0 <= i < |items| ==> Proper(items[i])
    case Dict(keys, values) =>
      && |keys| == |values|
      && (forall i, j :: 0 <= i < j < |keys| ==> BytesLess(keys[i], keys[j]))
      && forall i :: 0 <= i < |values| ==> Proper(values[i])
    case Record(k, fields) =>
      |fields| == Arity(k) && forall i :: 0 <= i < |fields| ==> Proper(fields[i])
    case _ => true
  }

  ghost predicate AllProper(vs: seq<Value>) {
    forall i :: 0 <= i < |vs| ==> Proper(vs[i])
  }

  const TABLE := Schema(WireType, FieldNames)

  lemma {:induction false} ProperIsWellFormed(v: Value)
    requires Proper(v)
    ensures WellFormed(TABLE, v) && InOrder(v)
    decreases v
  {
    match v
    case List(items) =>
      forall i | 0 <= i < |items| ensures WellFormed(TABLE, items[i]) && InOrder(items[i]) {
        ProperIsWellFormed(items[i]);
      }
    case Dict(_, values) =>
      forall i | 0 <= i < |values| ensures WellFormed(TABLE, values[i]) && InOrder(values[i]) {
        ProperIsWellFormed(values[i]);
      }
    case Record(k, fields) =>
      WireCodeIsKindCode(k);
      forall i | 0 <= i < |fields| ensures WellFormed(TABLE, fields[i]) && InOrder(fields[i]) {
        ProperIsWellFormed(fields[i]);
      }
    case _ =>
  }

  // ----- Collections

  function ListValue<T>(f: T -> Value, xs: seq<T>): (v: Value)
    requires forall i :: 0 <= i < |xs| ==> Proper(f(xs[i]))
    ensures Proper(v)
  {
    List(Map(f, xs))
  }

  function DictValue<T>(f: T -> Value, es: Keyed<T>): (v: Value)
    requires forall i :: 0 <= i < |es| ==> Proper(f(es[i].1))
    ensures Proper(v)
  {
    Dict(seq(|es|, i requires 0 <= i < |es| => es[i].0), seq(|es|, i requires 0 <= i < |es| => f(es[i].1)))
  }

  function OptionalValue<T>(f: T -> Value, o: Option<T>): (v: Value)
    requires o.Some? ==> Proper(f(o.value))
    ensures Proper(v)
  {
    if o.None? then Null else f(o.value)
  }

  lemma {:induction false} ListInjective<T(!new)>(f: T -> Value, xs: seq<T>, ys: seq<T>)
    requires Map(f, xs) == Map(f, ys)
    requires forall x, y :: x in xs && y in ys && f(x) == f(y) ==> x == y
    ensures xs == ys
  {
    assert |xs| == |Map(f, xs)| == |ys|;
    forall i | 0 <= i < |xs| ensures xs[i] == ys[i] {
      assert Map(f, xs)[i] == Map(f, ys)[i];
    }
  }

  lemma {:induction false} DictValueInjective<T(!new)>(f: T -> Value, es: Keyed<T>, fs: Keyed<T>)
    requires forall i :: 0 <= i < |es| ==> Proper(f(es[i].1))
    requires forall i :: 0 <= i < |fs| ==> Proper(f(fs[i].1))
    requires DictValue(f, es) == DictValue(f, fs)
    requires forall x, y :: f(x) == f(y) ==> x == y
    ensures es == fs
  {
    var v, w := DictValue(f, es), DictValue(f, fs);
    assert |es| == |v.keys| == |fs|;
    forall i | 0 <= i < |es| ensures es[i] == fs[i] {
      assert v.keys[i] == w.keys[i] && v.values[i] == w.values[i];
    }
  }

  function OptionalDigest(o: Option<Digest>): (v: Value)
    ensures Proper(v)
  {
    if o.None? then Null else DigestValue(o.value)
  }

  function TextValue(s: string): Value { Text(s) }

  function IntegerValue(i: int): Value { Integer(i) }

  function ScalarValue(s: Scalar): (v: Value)
    ensures Proper(v)
  {
    match s
    case NoValue => Null
    case Flag(b) => Boolean(b)
    case Number(n) => Integer(n)
    case Words(w) => Text(w)
  }

  /** Type tags keep `True`, `1`, `"1"` and `None` apart. */
  lemma {:induction false} ScalarInjective()
    ensures forall x, y :: ScalarValue(x) == ScalarValue(y) ==> x == y
  {
  }

  // ----- Digests

  function DigestValue(d: Digest): (v: Value)
    ensures Proper(v)
  {
    Record(Sha256DigestKind, [Text("sha256"), Text(Hex(d))])
  }

  lemma {:induction false} DigestInjective(a: Digest, b: Digest)
    requires DigestValue(a) == DigestValue(b)
    ensures a == b
  {
    HexInjective(a, b);
  }

  // ----- Enumerations

  function ApplicabilityStatusValue(x: ApplicabilityStatus): (v: Value)
    ensures Proper(v)
  {
    Record(AuthorityApplicabilityStatusKind, [Text(ApplicabilityStatusText(x))])
  }

  lemma {:induction false} ApplicabilityStatusInjective(x: ApplicabilityStatus, y: ApplicabilityStatus)
    requires ApplicabilityStatusValue(x) == ApplicabilityStatusValue(y)
    ensures x == y
  {
    var s, t := ApplicabilityStatusText(x), ApplicabilityStatusText(y);
    assert |s| == |t| && s[0] == t[0];
  }

  function BindingStatusValue(x: BindingStatus): (v: Value)
    ensures Proper(v)
  {
    Record(SubjectAuthorityBindingStatusKind, [Text(BindingStatusText(x))])
  }

  lemma {:induction false} BindingStatusInjective(x: BindingStatus, y: BindingStatus)
    requires BindingStatusValue(x) == BindingStatusValue(y)
    ensures x == y
  {
    var s, t := BindingStatusText(x), BindingStatusText(y);
    assert |s| == |t| && s[0] == t[0];
  }

  function NamespaceValue(x: Namespace): (v: Value)
    ensures Proper(v)
  {
    Record(FieldNamespaceKind, [Text(NamespaceText(x))])
  }

  lemma {:induction false} NamespaceInjective(x: Namespace, y: Namespace)
    requires NamespaceValue(x) == NamespaceValue(y)
    ensures x == y
  {
    var s, t := NamespaceText(x), NamespaceText(y);
    assert |s| == |t| && s[0] == t[0];
  }

  function OperatorValue(x: Operator): (v: Value)
    ensures Proper(v)
  {
    Record(ConditionOperatorKind, [Text(OperatorText(x))])
  }

  lemma {:induction false} OperatorInjective(x: Operator, y: Operator)
    requires OperatorValue(x) == OperatorValue(y)
    ensures x == y
  {
    var s, t := OperatorText(x), OperatorText(y);
    assert |s| == |t| && s[1] == t[1];
  }

  function EffectValue(x: Effect): (v: Value)
    ensures Proper(v)
  {
    Record(RuleEffectKind, [Text(EffectText(x))])
  }

  lemma {:induction false} EffectInjective(x: Effect, y: Effect)
    requires EffectValue(x) == EffectValue(y)
    ensures x == y
  {
    var s, t := EffectText(x), EffectText(y);
    assert |s| == |t| && s[0] == t[0];
  }

  function ConditionStatusValue(x: ConditionStatus): (v: Value)
    ensures Proper(v)
  {
    Record(ConditionStatusKind, [Text(ConditionStatusText(x))])
  }

  lemma {:induction false} ConditionStatusInjective(x: ConditionStatus, y: ConditionStatus)
    requires ConditionStatusValue(x) == ConditionStatusValue(y)
    ensures x == y
  {
    var s, t := ConditionStatusText(x), ConditionStatusText(y);
    assert |s| == |t| && s[0] == t[0];
  }

  function RuleStatusValue(x: RuleStatus): (v: Value)
    ensures Proper(v)
  {
    Record(RuleEvaluationStatusKind, [Text(RuleStatusText(x))])
  }

  lemma {:induction false} RuleStatusInjective(x: RuleStatus, y: RuleStatus)
    requires RuleStatusValue(x) == RuleStatusValue(y)
    ensures x == y
  {
    var s, t := RuleStatusText(x), RuleStatusText(y);
    assert |s| == |t| && s[0] == t[0];
  }

  function OutcomeValue(x: Outcome): (v: Value)
    ensures Proper(v)
  {
    Record(OutcomeKind, [Text(OutcomeText(x))])
  }

  lemma {:induction false} OutcomeInjective(x: Outcome, y: Outcome)
    requires OutcomeValue(x) == OutcomeValue(y)
    ensures x == y
  {
    var s, t := OutcomeText(x), OutcomeText(y);
    assert |s| == |t| && s[0] == t[0];
  }

  function ApproverStatusValue(x: ApproverStatus): (v: Value)
    ensures Proper(v)
  {
    Record(ApproverAuthorizationStatusKind, [Text(ApproverStatusText(x))])
  }

  lemma {:induction false} ApproverStatusInjective(x: ApproverStatus, y: ApproverStatus)
    requires ApproverStatusValue(x) == ApproverStatusValue(y)
    ensures x == y
  {
    var s, t := ApproverStatusText(x), ApproverStatusText(y);
    assert |s| == |t| && s[0] == t[0];
  }

  function RequirementStatusValue(x: RequirementStatus): (v: Value)
    ensures Proper(v)
  {
    Record(ApprovalRequirementStatusKind, [Text(RequirementStatusText(x))])
  }

  lemma {:induction false} RequirementStatusInjective(x: RequirementStatus, y: RequirementStatus)
    requires RequirementStatusValue(x) == RequirementStatusValue(y)
    ensures x == y
  {
    var s, t := RequirementStatusText(x), RequirementStatusText(y);
    assert |s| == |t| && s[0] == t[0];
  }

  function ApprovalStatusValue(x: ApprovalStatus): (v: Value)
    ensures Proper(v)
  {
    Record(ApprovalStatusKind, [Text(ApprovalStatusText(x))])
  }

  lemma {:induction false} ApprovalStatusInjective(x: ApprovalStatus, y: ApprovalStatus)
    requires ApprovalStatusValue(x) == ApprovalStatusValue(y)
    ensures x == y
  {
    var s, t := ApprovalStatusText(x), ApprovalStatusText(y);
    assert |s| == |t| && s[0] == t[0];
  }

  // ----- Records

  lemma {:induction false} SplitProper(k: Kind, a: seq<Value>, b: seq<Value>)
    requires AllProper(a) && AllProper(b) && |a| + |b| == Arity(k)
    ensures Proper(Record(k, a + b))
  {
  }

  lemma {:induction false} SplitFields(a: seq<Value>, b: seq<Value>, c: seq<Value>, d: seq<Value>)
    requires a + b == c + d && |a| == |c|
    ensures a == c && b == d
  {
    assert a == (a + b)[..|a|] && c == (c + d)[..|c|];
    assert b == (a + b)[|a|..] && d == (c + d)[|c|..];
  }

  function SubjectValue(x: Subject): (v: Value)
    ensures Proper(v)
  {
    Record(SubjectKind, [Text(x.identifier)])
  }

  lemma {:induction false} SubjectInjective(x: Subject, y: Subject)
    requires SubjectValue(x) == SubjectValue(y)
    ensures x == y
  {
  }

  function ActionValue(x: Action): (v: Value)
    ensures Proper(v)
  {
    Record(ActionKind, [Text(x.name)])
  }

  lemma {:induction false} ActionInjective(x: Action, y: Action)
    requires ActionValue(x) == ActionValue(y)
    ensures x == y
  {
  }

  function ResourceValue(x: Resource): (v: Value)
    ensures Proper(v)
  {
    Record(ResourceKind, [Text(x.identifier)])
  }

  lemma {:induction false} ResourceInjective(x: Resource, y: Resource)
    requires ResourceValue(x) == ResourceValue(y)
    ensures x == y
  {
  }

  function PrincipalValue(x: Principal): (v: Value)
    ensures Proper(v)
  {
    Record(PrincipalKind, [Text(x.identifier)])
  }

  lemma {:induction false} PrincipalInjective(x: Principal, y: Principal)
    requires PrincipalValue(x) == PrincipalValue(y)
    ensures x == y
  {
  }

  function SubjectPrincipalBindingValue(x: SubjectPrincipalBinding): (v: Value)
    ensures Proper(v)
  {
    Record(SubjectPrincipalBindingKind, [SubjectValue(x.subject), PrincipalValue(x.principal)])
  }

  lemma {:induction false} SubjectPrincipalBindingInjective(x: SubjectPrincipalBinding, y: SubjectPrincipalBinding)
    requires SubjectPrincipalBindingValue(x) == SubjectPrincipalBindingValue(y)
    ensures x == y
  {
    SubjectInjective(x.subject, y.subject);
    PrincipalInjective(x.principal, y.principal);
  }

  function ApproverBindingValue(x: ApproverBinding): (v: Value)
    ensures Proper(v)
  {
    Record(ApproverSubjectPrincipalBindingKind, [SubjectValue(x.subject), PrincipalValue(x.principal)])
  }

  lemma {:induction false} ApproverBindingInjective(x: ApproverBinding, y: ApproverBinding)
    requires ApproverBindingValue(x) == ApproverBindingValue(y)
    ensures x == y
  {
    SubjectInjective(x.subject, y.subject);
    PrincipalInjective(x.principal, y.principal);
  }

  function AuthorityScopeValue(x: AuthorityScope): (v: Value)
    ensures Proper(v)
  {
    Record(AuthorityScopeKind, [
      ActionValue(x.action), ResourceValue(x.resource), DictValue(IntegerValue, x.bounds)])
  }

  lemma {:induction false} AuthorityScopeInjective(x: AuthorityScope, y: AuthorityScope)
    requires AuthorityScopeValue(x) == AuthorityScopeValue(y)
    ensures x == y
  {
    ActionInjective(x.action, y.action);
    ResourceInjective(x.resource, y.resource);
    DictValueInjective(IntegerValue, x.bounds, y.bounds);
  }

  function AuthorityGrantValue(x: AuthorityGrant): (v: Value)
    ensures Proper(v)
  {
    Record(AuthorityGrantKind, [
      Text(x.identifier), PrincipalValue(x.grantor), PrincipalValue(x.grantee),
      AuthorityScopeValue(x.scope), OptionalValue(TextValue, x.parent), Integer(x.validFrom),
      Integer(x.validUntil)])
  }

  lemma {:induction false} AuthorityGrantInjective(x: AuthorityGrant, y: AuthorityGrant)
    requires AuthorityGrantValue(x) == AuthorityGrantValue(y)
    ensures x == y
  {
    PrincipalInjective(x.grantor, y.grantor);
    PrincipalInjective(x.grantee, y.grantee);
    AuthorityScopeInjective(x.scope, y.scope);
  }

  function DelegationChainValue(x: DelegationChain): (v: Value)
    ensures Proper(v)
  {
    Record(DelegationChainKind, [ListValue(AuthorityGrantValue, x.grants)])
  }

  lemma {:induction false} DelegationChainInjective(x: DelegationChain, y: DelegationChain)
    requires DelegationChainValue(x) == DelegationChainValue(y)
    ensures x == y
  {
    forall a, b | AuthorityGrantValue(a) == AuthorityGrantValue(b) ensures a == b {
      AuthorityGrantInjective(a, b);
    }
    ListInjective(AuthorityGrantValue, x.grants, y.grants);
  }

  function RevocationSetValue(x: RevocationSet): (v: Value)
    ensures Proper(v)
  {
    Record(RevocationSetKind, [ListValue(TextValue, x.grantIds)])
  }

  lemma {:induction false} RevocationSetInjective(x: RevocationSet, y: RevocationSet)
    requires RevocationSetValue(x) == RevocationSetValue(y)
    ensures x == y
  {
    ListInjective(TextValue, x.grantIds, y.grantIds);
  }

  function AuthorizationStateValue(x: AuthorizationState): (v: Value)
    ensures Proper(v)
  {
    Record(AuthorizationStateKind, [Integer(x.logicalTime), RevocationSetValue(x.revocations)])
  }

  lemma {:induction false} AuthorizationStateInjective(x: AuthorizationState, y: AuthorizationState)
    requires AuthorizationStateValue(x) == AuthorizationStateValue(y)
    ensures x == y
  {
    RevocationSetInjective(x.revocations, y.revocations);
  }

  function VerifiedAuthorityValue(x: VerifiedAuthority): (v: Value)
    ensures Proper(v)
  {
    Record(VerifiedAuthorityKind, [
      Text(x.grantId), PrincipalValue(x.principal), AuthorityScopeValue(x.scope),
      Integer(x.validatedAt), DigestValue(x.chainDigest), DigestValue(x.stateDigest)])
  }

  lemma {:induction false} VerifiedAuthorityInjective(x: VerifiedAuthority, y: VerifiedAuthority)
    requires VerifiedAuthorityValue(x) == VerifiedAuthorityValue(y)
    ensures x == y
  {
    PrincipalInjective(x.principal, y.principal);
    AuthorityScopeInjective(x.scope, y.scope);
    DigestInjective(x.chainDigest, y.chainDigest);
    DigestInjective(x.stateDigest, y.stateDigest);
  }

  function BoundEvaluationValue(x: BoundEvaluation): (v: Value)
    ensures Proper(v)
  {
    Record(AuthorityBoundEvaluationKind, [
      Text(x.name), Integer(x.upperBound), Boolean(x.present), ScalarValue(x.supplied),
      ApplicabilityStatusValue(x.status)])
  }

  lemma {:induction false} BoundEvaluationInjective(x: BoundEvaluation, y: BoundEvaluation)
    requires BoundEvaluationValue(x) == BoundEvaluationValue(y)
    ensures x == y
  {
    ScalarInjective();
    ApplicabilityStatusInjective(x.status, y.status);
  }

  function ApplicabilityResultValue(x: ApplicabilityResult): (v: Value)
    ensures Proper(v)
  {
    Record(AuthorityApplicabilityResultKind, [
      ApplicabilityStatusValue(x.status), DigestValue(x.requestDigest), DigestValue(x.authorityDigest),
      DigestValue(x.chainDigest), DigestValue(x.stateDigest), Text(x.grantId),
      ActionValue(x.expectedAction), ActionValue(x.requestAction), Boolean(x.actionMatches),
      ResourceValue(x.expectedResource), ResourceValue(x.requestResource), Boolean(x.resourceMatches),
      ListValue(BoundEvaluationValue, x.bounds)])
  }

  lemma {:induction false} ApplicabilityResultInjective(x: ApplicabilityResult, y: ApplicabilityResult)
    requires ApplicabilityResultValue(x) == ApplicabilityResultValue(y)
    ensures x == y
  {
    ApplicabilityStatusInjective(x.status, y.status);
    DigestInjective(x.requestDigest, y.requestDigest);
    DigestInjective(x.authorityDigest, y.authorityDigest);
    DigestInjective(x.chainDigest, y.chainDigest);
    DigestInjective(x.stateDigest, y.stateDigest);
    ActionInjective(x.expectedAction, y.expectedAction);
    ActionInjective(x.requestAction, y.requestAction);
    ResourceInjective(x.expectedResource, y.expectedResource);
    ResourceInjective(x.requestResource, y.requestResource);
    forall a, b | BoundEvaluationValue(a) == BoundEvaluationValue(b) ensures a == b {
      BoundEvaluationInjective(a, b);
    }
    ListInjective(BoundEvaluationValue, x.bounds, y.bounds);
  }

  function BindingResultValue(x: BindingResult): (v: Value)
    ensures Proper(v)
  {
    Record(SubjectAuthorityBindingResultKind, [
      BindingStatusValue(x.status), DigestValue(x.requestDigest), DigestValue(x.authorityDigest),
      SubjectValue(x.requestSubject), SubjectPrincipalBindingValue(x.binding),
      PrincipalValue(x.authorityPrincipal), Text(x.grantId)])
  }

  lemma {:induction false} BindingResultInjective(x: BindingResult, y: BindingResult)
    requires BindingResultValue(x) == BindingResultValue(y)
    ensures x == y
  {
    BindingStatusInjective(x.status, y.status);
    DigestInjective(x.requestDigest, y.requestDigest);
    DigestInjective(x.authorityDigest, y.authorityDigest);
    SubjectInjective(x.requestSubject, y.requestSubject);
    SubjectPrincipalBindingInjective(x.binding, y.binding);
    PrincipalInjective(x.authorityPrincipal, y.authorityPrincipal);
  }

  function RequestContextValue(x: RequestContext): (v: Value)
    ensures Proper(v)
  {
    Record(RequestContextKind, [DictValue(ScalarValue, x.attributes)])
  }

  lemma {:induction false} RequestContextInjective(x: RequestContext, y: RequestContext)
    requires RequestContextValue(x) == RequestContextValue(y)
    ensures x == y
  {
    ScalarInjective();
    DictValueInjective(ScalarValue, x.attributes, y.attributes);
  }

  function AuthorityContextValue(x: AuthorityContext): (v: Value)
    ensures Proper(v)
  {
    Record(AuthorityContextKind, [Text(x.identifier), DictValue(ScalarValue, x.attributes)])
  }

  lemma {:induction false} AuthorityContextInjective(x: AuthorityContext, y: AuthorityContext)
    requires AuthorityContextValue(x) == AuthorityContextValue(y)
    ensures x == y
  {
    ScalarInjective();
    DictValueInjective(ScalarValue, x.attributes, y.attributes);
  }

  function AuthorizationRequestValue(x: AuthorizationRequest): (v: Value)
    ensures Proper(v)
  {
    Record(AuthorizationRequestKind, [
      SubjectValue(x.subject), ActionValue(x.action), ResourceValue(x.resource),
      RequestContextValue(x.context), OptionalValue(AuthorityContextValue, x.authorityContext)])
  }

  lemma {:induction false} AuthorizationRequestInjective(x: AuthorizationRequest, y: AuthorizationRequest)
    requires AuthorizationRequestValue(x) == AuthorizationRequestValue(y)
    ensures x == y
  {
    SubjectInjective(x.subject, y.subject);
    ActionInjective(x.action, y.action);
    ResourceInjective(x.resource, y.resource);
    RequestContextInjective(x.context, y.context);
    if x.authorityContext.Some? && y.authorityContext.Some? {
      AuthorityContextInjective(x.authorityContext.value, y.authorityContext.value);
    }
  }

  function FieldReferenceValue(x: FieldReference): (v: Value)
    ensures Proper(v)
  {
    Record(FieldReferenceKind, [NamespaceValue(x.namespace), Text(x.name)])
  }

  lemma {:induction false} FieldReferenceInjective(x: FieldReference, y: FieldReference)
    requires FieldReferenceValue(x) == FieldReferenceValue(y)
    ensures x == y
  {
    NamespaceInjective(x.namespace, y.namespace);
  }

  function ConditionValue(x: Condition): (v: Value)
    ensures Proper(v)
  {
    Record(ConditionKind, [
      Text(x.identifier), FieldReferenceValue(x.field), OperatorValue(x.operator), ScalarValue(x.value)])
  }

  lemma {:induction false} ConditionInjective(x: Condition, y: Condition)
    requires ConditionValue(x) == ConditionValue(y)
    ensures x == y
  {
    FieldReferenceInjective(x.field, y.field);
    OperatorInjective(x.operator, y.operator);
    ScalarInjective();
  }

  function ObligationValue(x: Obligation): (v: Value)
    ensures Proper(v)
  {
    Record(ObligationKind, [Text(x.code), DictValue(ScalarValue, x.parameters)])
  }

  lemma {:induction false} ObligationInjective(x: Obligation, y: Obligation)
    requires ObligationValue(x) == ObligationValue(y)
    ensures x == y
  {
    ScalarInjective();
    DictValueInjective(ScalarValue, x.parameters, y.parameters);
  }

  function ApprovalRequirementValue(x: ApprovalRequirement): (v: Value)
    ensures Proper(v)
  {
    Record(ApprovalRequirementKind, [
      Text(x.code), ListValue(PrincipalValue, x.allowedPrincipals), DictValue(ScalarValue, x.parameters)])
  }

  lemma {:induction false} ApprovalRequirementInjective(x: ApprovalRequirement, y: ApprovalRequirement)
    requires ApprovalRequirementValue(x) == ApprovalRequirementValue(y)
    ensures x == y
  {
    forall a, b | PrincipalValue(a) == PrincipalValue(b) ensures a == b {
      PrincipalInjective(a, b);
    }
    ListInjective(PrincipalValue, x.allowedPrincipals, y.allowedPrincipals);
    ScalarInjective();
    DictValueInjective(ScalarValue, x.parameters, y.parameters);
  }

  function RuleValue(x: Rule): (v: Value)
    ensures Proper(v)
  {
    Record(RuleKind, [
      Text(x.identifier), EffectValue(x.effect), ListValue(ConditionValue, x.conditions),
      ListValue(ObligationValue, x.obligations), ListValue(ApprovalRequirementValue, x.approvals)])
  }

  lemma {:induction false} RuleInjective(x: Rule, y: Rule)
    requires RuleValue(x) == RuleValue(y)
    ensures x == y
  {
    EffectInjective(x.effect, y.effect);
    forall a, b | ConditionValue(a) == ConditionValue(b) ensures a == b {
      ConditionInjective(a, b);
    }
    ListInjective(ConditionValue, x.conditions, y.conditions);
    forall a, b | ObligationValue(a) == ObligationValue(b) ensures a == b {
      ObligationInjective(a, b);
    }
    ListInjective(ObligationValue, x.obligations, y.obligations);
    forall a, b | ApprovalRequirementValue(a) == ApprovalRequirementValue(b) ensures a == b {
      ApprovalRequirementInjective(a, b);
    }
    ListInjective(ApprovalRequirementValue, x.approvals, y.approvals);
  }

  function PolicyValue(x: Policy): (v: Value)
    ensures Proper(v)
  {
    Record(PolicyKind, [Text(x.identifier), ListValue(RuleValue, x.rules)])
  }

  lemma {:induction false} PolicyInjective(x: Policy, y: Policy)
    requires PolicyValue(x) == PolicyValue(y)
    ensures x == y
  {
    forall a, b | RuleValue(a) == RuleValue(b) ensures a == b {
      RuleInjective(a, b);
    }
    ListInjective(RuleValue, x.rules, y.rules);
  }

  function PolicyBundleValue(x: PolicyBundle): (v: Value)
    ensures Proper(v)
  {
    Record(PolicyBundleKind, [Text("DENY_OVERRIDES"), ListValue(PolicyValue, x.policies)])
  }

  lemma {:induction false} PolicyBundleInjective(x: PolicyBundle, y: PolicyBundle)
    requires PolicyBundleValue(x) == PolicyBundleValue(y)
    ensures x == y
  {
    forall a, b | PolicyValue(a) == PolicyValue(b) ensures a == b {
      PolicyInjective(a, b);
    }
    ListInjective(PolicyValue, x.policies, y.policies);
  }

  function RuleEvaluationValue(x: RuleEvaluation): (v: Value)
    ensures Proper(v)
  {
    Record(RuleEvaluationKind, [
      Text(x.policyId), Text(x.ruleId), EffectValue(x.effect), RuleStatusValue(x.status),
      DictValue(ConditionStatusValue, x.results)])
  }

  lemma {:induction false} RuleEvaluationInjective(x: RuleEvaluation, y: RuleEvaluation)
    requires RuleEvaluationValue(x) == RuleEvaluationValue(y)
    ensures x == y
  {
    EffectInjective(x.effect, y.effect);
    RuleStatusInjective(x.status, y.status);
    forall a, b | ConditionStatusValue(a) == ConditionStatusValue(b) ensures a == b {
      ConditionStatusInjective(a, b);
    }
    DictValueInjective(ConditionStatusValue, x.results, y.results);
  }

  function DecisionEvidenceValue(x: DecisionEvidence): (v: Value)
    ensures Proper(v)
  {
    Record(DecisionEvidenceKind, [
      DigestValue(x.bundleDigest), DigestValue(x.requestDigest),
      ListValue(RuleEvaluationValue, x.rules), OptionalValue(ApplicabilityResultValue, x.applicability),
      OptionalValue(BindingResultValue, x.binding)])
  }

  lemma {:induction false} DecisionEvidenceInjective(x: DecisionEvidence, y: DecisionEvidence)
    requires DecisionEvidenceValue(x) == DecisionEvidenceValue(y)
    ensures x == y
  {
    DigestInjective(x.bundleDigest, y.bundleDigest);
    DigestInjective(x.requestDigest, y.requestDigest);
    forall a, b | RuleEvaluationValue(a) == RuleEvaluationValue(b) ensures a == b {
      RuleEvaluationInjective(a, b);
    }
    ListInjective(RuleEvaluationValue, x.rules, y.rules);
    if x.applicability.Some? && y.applicability.Some? {
      ApplicabilityResultInjective(x.applicability.value, y.applicability.value);
    }
    if x.binding.Some? && y.binding.Some? {
      BindingResultInjective(x.binding.value, y.binding.value);
    }
  }

  function ReasonValue(x: Reason): (v: Value)
    ensures Proper(v)
  {
    Record(ReasonKind, [Text(x.code), Text(x.message)])
  }

  lemma {:induction false} ReasonInjective(x: Reason, y: Reason)
    requires ReasonValue(x) == ReasonValue(y)
    ensures x == y
  {
  }

  function DecisionValue(x: Decision): (v: Value)
    ensures Proper(v)
  {
    hide DecisionEvidenceValue, OutcomeValue, ReasonValue, ObligationValue, ApprovalRequirementValue;
    Record(DecisionKind, [
      OutcomeValue(x.outcome), ListValue(ReasonValue, x.reasons), DecisionEvidenceValue(x.evidence),
      ListValue(ObligationValue, x.obligations), ListValue(ApprovalRequirementValue, x.approvals)])
  }

  lemma {:induction false} DecisionInjective(x: Decision, y: Decision)
    requires DecisionValue(x) == DecisionValue(y)
    ensures x == y
  {
    OutcomeInjective(x.outcome, y.outcome);
    forall a, b | ReasonValue(a) == ReasonValue(b) ensures a == b {
      ReasonInjective(a, b);
    }
    ListInjective(ReasonValue, x.reasons, y.reasons);
    DecisionEvidenceInjective(x.evidence, y.evidence);
    forall a, b | ObligationValue(a) == ObligationValue(b) ensures a == b {
      ObligationInjective(a, b);
    }
    ListInjective(ObligationValue, x.obligations, y.obligations);
    forall a, b | ApprovalRequirementValue(a) == ApprovalRequirementValue(b) ensures a == b {
      ApprovalRequirementInjective(a, b);
    }
    ListInjective(ApprovalRequirementValue, x.approvals, y.approvals);
  }

  function DecisionReceiptValue(x: DecisionReceipt): (v: Value)
    ensures Proper(v)
  {
    hide ApprovalRequirementValue, OutcomeValue, DigestValue;
    Record(DecisionReceiptKind, [
      DigestValue(x.requestDigest), DigestValue(x.bundleDigest), OptionalDigest(x.authorityDigest),
      OptionalDigest(x.chainDigest), OptionalDigest(x.stateDigest), OptionalDigest(x.bindingDigest),
      OptionalDigest(x.applicabilityDigest), DigestValue(x.decisionDigest), OutcomeValue(x.outcome),
      ListValue(ApprovalRequirementValue, x.approvals)])
  }

  lemma {:induction false} DecisionReceiptInjective(x: DecisionReceipt, y: DecisionReceipt)
    requires DecisionReceiptValue(x) == DecisionReceiptValue(y)
    ensures x == y
  {
    DigestInjective(x.requestDigest, y.requestDigest);
    DigestInjective(x.bundleDigest, y.bundleDigest);
    if x.authorityDigest.Some? && y.authorityDigest.Some? {
      DigestInjective(x.authorityDigest.value, y.authorityDigest.value);
    }
    if x.chainDigest.Some? && y.chainDigest.Some? {
      DigestInjective(x.chainDigest.value, y.chainDigest.value);
    }
    if x.stateDigest.Some? && y.stateDigest.Some? {
      DigestInjective(x.stateDigest.value, y.stateDigest.value);
    }
    if x.bindingDigest.Some? && y.bindingDigest.Some? {
      DigestInjective(x.bindingDigest.value, y.bindingDigest.value);
    }
    if x.applicabilityDigest.Some? && y.applicabilityDigest.Some? {
      DigestInjective(x.applicabilityDigest.value, y.applicabilityDigest.value);
    }
    DigestInjective(x.decisionDigest, y.decisionDigest);
    OutcomeInjective(x.outcome, y.outcome);
    forall a, b | ApprovalRequirementValue(a) == ApprovalRequirementValue(b) ensures a == b {
      ApprovalRequirementInjective(a, b);
    }
    ListInjective(ApprovalRequirementValue, x.approvals, y.approvals);
  }

  function ApproverAuthorizationValue(x: ApproverAuthorization): (v: Value)
    ensures Proper(v)
  {
    Record(ApproverAuthorizationResultKind, [
      ApproverStatusValue(x.status), SubjectValue(x.actor), ApproverBindingValue(x.binding),
      ApprovalRequirementValue(x.required), ApprovalRequirementValue(x.attempted)])
  }

  lemma {:induction false} ApproverAuthorizationInjective(x: ApproverAuthorization, y: ApproverAuthorization)
    requires ApproverAuthorizationValue(x) == ApproverAuthorizationValue(y)
    ensures x == y
  {
    ApproverStatusInjective(x.status, y.status);
    SubjectInjective(x.actor, y.actor);
    ApproverBindingInjective(x.binding, y.binding);
    ApprovalRequirementInjective(x.required, y.required);
    ApprovalRequirementInjective(x.attempted, y.attempted);
  }

  function RequirementStateValue(x: RequirementState): (v: Value)
    ensures Proper(v)
  {
    Record(ApprovalRequirementStateKind, [
      ApprovalRequirementValue(x.requirement), RequirementStatusValue(x.status),
      OptionalValue(ApproverAuthorizationValue, x.authorization), Integer(x.logicalTime)])
  }

  lemma {:induction false} RequirementStateInjective(x: RequirementState, y: RequirementState)
    requires RequirementStateValue(x) == RequirementStateValue(y)
    ensures x == y
  {
    hide ApprovalRequirementValue, RequirementStatusValue, Proper;
    ApprovalRequirementInjective(x.requirement, y.requirement);
    RequirementStatusInjective(x.status, y.status);
    if x.authorization.Some? && y.authorization.Some? {
      ApproverAuthorizationInjective(x.authorization.value, y.authorization.value);
    }
  }

  function PendingApprovalHead(x: PendingApproval): (vs: seq<Value>)
    ensures |vs| == 3 && AllProper(vs)
  {
    [DecisionReceiptValue(x.receipt), DigestValue(x.receiptDigest),
     ListValue(RequirementStateValue, x.states)]
  }

  function PendingApprovalTail(x: PendingApproval): (vs: seq<Value>)
    ensures |vs| == 4 && AllProper(vs)
  {
    [Integer(x.logicalTime), OptionalValue(IntegerValue, x.consumedAt), OptionalDigest(x.permitDigest),
     ApprovalStatusValue(x.status)]
  }

  function PendingApprovalValue(x: PendingApproval): (v: Value)
    ensures Proper(v)
  {
    hide DecisionReceiptValue;
    SplitProper(PendingApprovalKind, PendingApprovalHead(x), PendingApprovalTail(x));
    Record(PendingApprovalKind, PendingApprovalHead(x) + PendingApprovalTail(x))
  }

  lemma {:induction false} PendingApprovalInjective(x: PendingApproval, y: PendingApproval)
    requires PendingApprovalValue(x) == PendingApprovalValue(y)
    ensures x == y
  {
    hide DecisionReceiptValue, RequirementStateValue, Proper, ApprovalStatusValue;
    SplitFields(PendingApprovalHead(x), PendingApprovalTail(x), PendingApprovalHead(y), PendingApprovalTail(y));
    DecisionReceiptInjective(x.receipt, y.receipt);
    DigestInjective(x.receiptDigest, y.receiptDigest);
    forall a, b | RequirementStateValue(a) == RequirementStateValue(b) ensures a == b {
      RequirementStateInjective(a, b);
    }
    ListInjective(RequirementStateValue, x.states, y.states);
    if x.permitDigest.Some? && y.permitDigest.Some? {
      DigestInjective(x.permitDigest.value, y.permitDigest.value);
    }
    ApprovalStatusInjective(x.status, y.status);
  }

  function ExecutionPermitHead(x: ExecutionPermit): (vs: seq<Value>)
    ensures |vs| == 7 && AllProper(vs)
  {
    [DigestValue(x.receiptDigest), DigestValue(x.approvedStateDigest), DigestValue(x.requestDigest),
     DigestValue(x.bundleDigest), DigestValue(x.chainDigest), DigestValue(x.stateDigest),
     DigestValue(x.authorityDigest)]
  }

  function ExecutionPermitTail(x: ExecutionPermit): (vs: seq<Value>)
    ensures |vs| == 3 && AllProper(vs)
  {
    hide DecisionValue, ApplicabilityResultValue, BindingResultValue, Proper;
    [BindingResultValue(x.binding), ApplicabilityResultValue(x.applicability), DecisionValue(x.decision)]
  }

  function ExecutionPermitValue(x: ExecutionPermit): (v: Value)
    ensures Proper(v)
  {
    hide DecisionValue, ApplicabilityResultValue, BindingResultValue;
    SplitProper(ExecutionPermitKind, ExecutionPermitHead(x), ExecutionPermitTail(x));
    Record(ExecutionPermitKind, ExecutionPermitHead(x) + ExecutionPermitTail(x))
  }

  lemma {:induction false} ExecutionPermitInjective(x: ExecutionPermit, y: ExecutionPermit)
    requires ExecutionPermitValue(x) == ExecutionPermitValue(y)
    ensures x == y
  {
    SplitFields(ExecutionPermitHead(x), ExecutionPermitTail(x), ExecutionPermitHead(y), ExecutionPermitTail(y));
    DigestInjective(x.receiptDigest, y.receiptDigest);
    DigestInjective(x.approvedStateDigest, y.approvedStateDigest);
    DigestInjective(x.requestDigest, y.requestDigest);
    DigestInjective(x.bundleDigest, y.bundleDigest);
    DigestInjective(x.chainDigest, y.chainDigest);
    DigestInjective(x.stateDigest, y.stateDigest);
    DigestInjective(x.authorityDigest, y.authorityDigest);
    BindingResultInjective(x.binding, y.binding);
    ApplicabilityResultInjective(x.applicability, y.applicability);
    DecisionInjective(x.decision, y.decision);
  }

  // ----- The closed allowlist

  /** The record kind a domain value is written as. */
  function KindOf(x: DomainValue): Kind {
    match x
    case OfRequest(_) => AuthorizationRequestKind
    case OfBundle(_) => PolicyBundleKind
    case OfGrant(_) => AuthorityGrantKind
    case OfChain(_) => DelegationChainKind
    case OfState(_) => AuthorizationStateKind
    case OfAuthority(_) => VerifiedAuthorityKind
    case OfApplicability(_) => AuthorityApplicabilityResultKind
    case OfBinding(_) => SubjectAuthorityBindingResultKind
    case OfDecision(_) => DecisionKind
    case OfReceipt(_) => DecisionReceiptKind
    case OfApproval(_) => PendingApprovalKind
    case OfPermit(_) => ExecutionPermitKind
  }

  function ToValue(x: DomainValue): (v: Value)
    ensures Proper(v)
  {
    hide Proper;
    match x
    case OfRequest(y) => AuthorizationRequestValue(y)
    case OfBundle(y) => PolicyBundleValue(y)
    case OfGrant(y) => AuthorityGrantValue(y)
    case OfChain(y) => DelegationChainValue(y)
    case OfState(y) => AuthorizationStateValue(y)
    case OfAuthority(y) => VerifiedAuthorityValue(y)
    case OfApplicability(y) => ApplicabilityResultValue(y)
    case OfBinding(y) => BindingResultValue(y)
    case OfDecision(y) => DecisionValue(y)
    case OfReceipt(y) => DecisionReceiptValue(y)
    case OfApproval(y) => PendingApprovalValue(y)
    case OfPermit(y) => ExecutionPermitValue(y)
  }

  lemma {:induction false} ValueKind(x: DomainValue)
    ensures ToValue(x).Record? && ToValue(x).kind == KindOf(x)
  {
    hide Proper, SubjectValue, AuthorityScopeValue, DigestValue, ListValue, OutcomeValue;
  }

  /** Different values, and values of different types, have different trees. */
  lemma {:induction false} ToValueInjective(x: DomainValue, y: DomainValue)
    requires ToValue(x) == ToValue(y)
    ensures x == y
  {
    hide Proper, AuthorizationRequestValue, PolicyBundleValue, AuthorityGrantValue, DelegationChainValue;
    hide AuthorizationStateValue, VerifiedAuthorityValue;
    hide ApplicabilityResultValue, BindingResultValue, DecisionValue, DecisionReceiptValue;
    hide PendingApprovalValue, ExecutionPermitValue;
    ValueKind(x);
    ValueKind(y);
    match x
    case OfRequest(a) => AuthorizationRequestInjective(a, y.request);
    case OfBundle(a) => PolicyBundleInjective(a, y.bundle);
    case OfGrant(a) => AuthorityGrantInjective(a, y.grant);
    case OfChain(a) => DelegationChainInjective(a, y.chain);
    case OfState(a) => AuthorizationStateInjective(a, y.state);
    case OfAuthority(a) => VerifiedAuthorityInjective(a, y.authority);
    case OfApplicability(a) => ApplicabilityResultInjective(a, y.applicability);
    case OfBinding(a) => BindingResultInjective(a, y.binding);
    case OfDecision(a) => DecisionInjective(a, y.decision);
    case OfReceipt(a) => DecisionReceiptInjective(a, y.receipt);
    case OfApproval(a) => PendingApprovalInjective(a, y.approval);
    case OfPermit(a) => ExecutionPermitInjective(a, y.permit);
  }

  /** `canonical_bytes`; `None` when some payload is too long for its length field. */
  function BytesOf(x: DomainValue): Option<Bytes> {
    ProperIsWellFormed(ToValue(x));
    CanonicalBytes(TABLE, ToValue(x))
  }

  /** No two domain values, of whatever types, share canonical bytes or extend one another's. */
  lemma {:induction false} BytesIdentifyValues(x: DomainValue, y: DomainValue, r: Bytes, s: Bytes)
    requires BytesOf(x).Some? && BytesOf(y).Some? && BytesOf(x).value + r == BytesOf(y).value + s
    ensures x == y && r == s
  {
    var v, w := ToValue(x), ToValue(y);
    ProperIsWellFormed(v);
    ProperIsWellFormed(w);
    WireTypesDistinct();
    CanonicalBytesPrefixFree(TABLE, v, w, r, s);
    InOrderIsNormal(v);
    InOrderIsNormal(w);
    ToValueInjective(x, y);
  }

  /** SHA-256 of the canonical bytes, with the hash an arbitrary function. */
  function Sha256(bytes: DomainValue -> Option<Bytes>, hash: Bytes -> Digest): Identity {
    x => hash(bytes(x).GetOr([]))
  }

  /** An identity built on any hash has no collision the hash itself does not have. */
  lemma {:induction false} CollisionsAreHashCollisions(
    bytes: DomainValue -> Option<Bytes>, hash: Bytes -> Digest, x: DomainValue, y: DomainValue)
    requires forall z :: bytes(z) == BytesOf(z)
    requires bytes(x).Some? && bytes(y).Some?
    requires hash(bytes(x).value) == hash(bytes(y).value) ==> bytes(x) == bytes(y)
    ensures NoCollision(Sha256(bytes, hash), x, y)
  {
    if bytes(x) == bytes(y) {
      BytesIdentifyValues(x, y, [], []);
    }
  }
}
