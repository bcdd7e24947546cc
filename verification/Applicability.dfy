/**
  Scopes, and whether a scope contains a request (applicability.py, delegation.py:70-84,
  binding.py).
  */
module Applicability {
  import opened Wrappers
  import opened Utf8
  import opened Ordering
  import opened Domain
  import opened Construction

  // ----- Keyed collections

  lemma {:induction false} LookupAt<T>(es: Keyed<T>, i: nat)
    requires i < |es|
    ensures Lookup(es, es[i].0) == Some(es[i].1)
  {
    if i > 0 {
      LexIrreflexive(EncodeString(es[0].0));
      assert BytesLess(es[0].0, es[i].0);
      TailKeyed(es);
      LookupAt(es[1..], i - 1);
    }
  }

  lemma {:induction false} TailKeyed<T>(es: Keyed<T>)
    requires es != []
    ensures KeysAscending(es[1..])
  {
  }

  lemma {:induction false} LookupFound<T>(es: seq<(string, T)>, name: string) returns (i: nat)
    requires Lookup(es, name).Some?
    ensures i < |es| && es[i] == (name, Lookup(es, name).value)
  {
    if es[0].0 == name {
      i := 0;
    } else {
      var j := LookupFound(es[1..], name);
      i := j + 1;
    }
  }

  // ----- Attenuation

  predicate IsAttenuation(child: AuthorityScope, parent: AuthorityScope) {
    && child.action == parent.action
    && child.resource == parent.resource
    && forall i :: 0 <= i < |parent.bounds| ==> BoundKept(child, parent.bounds[i])
  }

  /** The child has a bound of that name, no larger than the parent's. */
  predicate BoundKept(child: AuthorityScope, bound: (string, int)) {
    var found := Lookup(child.bounds, bound.0);
    found.Some? && found.value <= bound.1
  }

  // ----- Applicability of a scope to a request

  function EvaluateBound(request: AuthorizationRequest, bound: (string, int)): BoundEvaluation {
    var found := Lookup(request.context.attributes, bound.0);
    var supplied := found.GetOr(NoValue);
    var status :=
      if found.None? then MissingContext
      else if !supplied.Number? then BoundTypeError
      else if supplied.n > bound.1 then BoundExceeded
      else Applicable;
    BoundEvaluation(bound.0, bound.1, found.Some?, supplied, status)
  }

  function BoundEvaluations(request: AuthorizationRequest, scope: AuthorityScope): (r: seq<BoundEvaluation>)
    ensures |r| == |scope.bounds|
    ensures forall i :: 0 <= i < |r| ==> r[i] == EvaluateBound(request, scope.bounds[i])
  {
    seq(|scope.bounds|, i requires 0 <= i < |scope.bounds| => EvaluateBound(request, scope.bounds[i]))
  }

  predicate HasStatus(evaluations: seq<BoundEvaluation>, status: ApplicabilityStatus) {
    exists i :: 0 <= i < |evaluations| && evaluations[i].status == status
  }

  function ScopeStatus(request: AuthorizationRequest, scope: AuthorityScope): ApplicabilityStatus {
    var evaluations := BoundEvaluations(request, scope);
    if scope.action != request.action then ActionMismatch
    else if scope.resource != request.resource then ResourceMismatch
    else if HasStatus(evaluations, MissingContext) then MissingContext
    else if HasStatus(evaluations, BoundTypeError) then BoundTypeError
    else if HasStatus(evaluations, BoundExceeded) then BoundExceeded
    else Applicable
  }

  function CheckApplicability(id: Identity, request: AuthorizationRequest, authority: VerifiedAuthority)
    : ApplicabilityResult
  {
    var scope := authority.scope;
    ApplicabilityResult(
      ScopeStatus(request, scope), id(OfRequest(request)), id(OfAuthority(authority)),
      authority.chainDigest, authority.stateDigest, authority.grantId,
      scope.action, request.action, scope.action == request.action,
      scope.resource, request.resource, scope.resource == request.resource,
      BoundEvaluations(request, scope))
  }

  // ----- The constructors of the evidence

  /** `AuthorityBoundEvaluation` re-derives its status from the value it is given. */
  function MakeBound(b: BoundEvaluation): Option<BoundEvaluation> {
    var expected :=
      if !b.present then MissingContext
      else if !b.supplied.Number? then BoundTypeError
      else if b.supplied.n > b.upperBound then BoundExceeded
      else Applicable;
    if Blank(b.name) || (!b.present && !b.supplied.NoValue?) || b.status != expected then None else Some(b)
  }

  function BoundName(b: BoundEvaluation): string { b.name }

  /** `AuthorityApplicabilityResult` sorts its bounds and re-derives both matches and its status. */
  function MakeApplicability(r: ApplicabilityResult): Option<ApplicabilityResult> {
    if Blank(r.grantId) || r.actionMatches != (r.expectedAction == r.requestAction)
       || r.resourceMatches != (r.expectedResource == r.requestResource) then None
    else
      var bounds :- Canonical(BoundName, r.bounds);
      var expected :=
        if !r.actionMatches then ActionMismatch
        else if !r.resourceMatches then ResourceMismatch
        else if HasStatus(bounds, MissingContext) then MissingContext
        else if HasStatus(bounds, BoundTypeError) then BoundTypeError
        else if HasStatus(bounds, BoundExceeded) then BoundExceeded
        else Applicable;
      if r.status != expected then None else Some(r.(bounds := bounds))
  }

  /** `check_authority_applicability` with every constructor on the way. */
  function TryApplicability(id: Identity, request: AuthorizationRequest, authority: VerifiedAuthority)
    : Option<ApplicabilityResult>
  {
    var evaluations := BoundEvaluations(request, authority.scope);
    if exists i :: 0 <= i < |evaluations| && MakeBound(evaluations[i]).None? then None
    else MakeApplicability(CheckApplicability(id, request, authority))
  }

  /** None of them fires, and the bounds are already in their canonical order. */
  lemma {:induction false} ApplicabilityTotal(id: Identity, request: AuthorizationRequest, authority: VerifiedAuthority)
    ensures TryApplicability(id, request, authority) == Some(CheckApplicability(id, request, authority))
  {
    var bounds, es := authority.scope.bounds, BoundEvaluations(request, authority.scope);
    forall i | 0 <= i < |es| ensures MakeBound(es[i]) == Some(es[i]) {
      assert !Blank(bounds[i].0);
    }
    var lt := ByKey(BoundName);
    forall i, j | 0 <= i < j < |es| ensures lt(es[i], es[j]) {
      assert lt(es[i], es[j]) == BytesLess(BoundName(es[i]), BoundName(es[j]));
    }
    CanonicalFixed(BoundName, es);
    hide HasStatus, Canonical;
  }

  /** What a scope denotes: the exact action and resource, and an integer within every bound. */
  ghost predicate Contains(scope: AuthorityScope, request: AuthorizationRequest) {
    && scope.action == request.action
    && scope.resource == request.resource
    && forall i :: 0 <= i < |scope.bounds| ==> WithinBound(request, scope.bounds[i])
  }

  ghost predicate WithinBound(request: AuthorizationRequest, bound: (string, int)) {
    exists n :: Lookup(request.context.attributes, bound.0) == Some(Number(n)) && n <= bound.1
  }

  /** The status cascade reports APPLICABLE exactly for the requests the scope denotes. */
  lemma {:induction false} ApplicableIffContains(request: AuthorizationRequest, scope: AuthorityScope)
    ensures ScopeStatus(request, scope) == Applicable <==> Contains(scope, request)
  {
    var evaluations := BoundEvaluations(request, scope);
    forall i | 0 <= i < |scope.bounds|
      ensures evaluations[i].status == Applicable <==> WithinBound(request, scope.bounds[i])
    {
    }
    if ScopeStatus(request, scope) == Applicable {
      forall i | 0 <= i < |scope.bounds| ensures evaluations[i].status == Applicable {
      }
    }
  }

  // ----- Which obstacle is reported

  ghost predicate LacksBound(request: AuthorizationRequest, scope: AuthorityScope) {
    exists i :: 0 <= i < |scope.bounds| && Lookup(request.context.attributes, scope.bounds[i].0).None?
  }

  ghost predicate MistypesBound(request: AuthorizationRequest, scope: AuthorityScope) {
    exists i :: 0 <= i < |scope.bounds| && IsMistyped(Lookup(request.context.attributes, scope.bounds[i].0))
  }

  predicate IsMistyped(found: Option<Scalar>) {
    found.Some? && !found.value.Number?
  }

  lemma {:induction false} BoundObstacles(request: AuthorizationRequest, scope: AuthorityScope)
    ensures HasStatus(BoundEvaluations(request, scope), MissingContext) <==> LacksBound(request, scope)
    ensures HasStatus(BoundEvaluations(request, scope), BoundTypeError) <==> MistypesBound(request, scope)
    ensures !HasStatus(BoundEvaluations(request, scope), ActionMismatch)
    ensures !HasStatus(BoundEvaluations(request, scope), ResourceMismatch)
  {
    hide Lookup;
    var es := BoundEvaluations(request, scope);
    if i :| 0 <= i < |scope.bounds| && Lookup(request.context.attributes, scope.bounds[i].0).None? {
      assert es[i].status == MissingContext;
    }
    if i :| 0 <= i < |scope.bounds| && IsMistyped(Lookup(request.context.attributes, scope.bounds[i].0)) {
      assert es[i].status == BoundTypeError;
    }
  }

  /**
    A mismatch of action comes before one of resource, a missing bound before a mistyped one, and an
    exceeded bound is reported only when every bound is present as an integer.
    */
  lemma {:induction false} StatusIsFirstObstacle(request: AuthorizationRequest, scope: AuthorityScope)
    ensures var status := ScopeStatus(request, scope);
            && (status == ActionMismatch <==> scope.action != request.action)
            && (status == ResourceMismatch <==> scope.action == request.action && scope.resource != request.resource)
            && (status == MissingContext <==>
                  scope.action == request.action && scope.resource == request.resource && LacksBound(request, scope))
            && (status == BoundTypeError <==>
                  && scope.action == request.action && scope.resource == request.resource
                  && !LacksBound(request, scope) && MistypesBound(request, scope))
            && (status == BoundExceeded <==>
                  && scope.action == request.action && scope.resource == request.resource
                  && !LacksBound(request, scope) && !MistypesBound(request, scope) && !Contains(scope, request))
  {
    hide LacksBound, MistypesBound, HasStatus, BoundEvaluations, Contains;
    BoundObstacles(request, scope);
    ApplicableIffContains(request, scope);
  }

  // ----- Attenuation is inclusion

  function TightAttributes(bounds: Keyed<int>): (es: Keyed<Scalar>)
    ensures |es| == |bounds|
    ensures forall i :: 0 <= i < |es| ==> es[i] == (bounds[i].0, Number(bounds[i].1))
  {
    seq(|bounds|, i requires 0 <= i < |bounds| => (bounds[i].0, Number(bounds[i].1)))
  }

  /** The request that uses a scope to its limits. */
  function TightRequest(scope: AuthorityScope): AuthorizationRequest {
    AuthorizationRequest(Subject("s"), scope.action, scope.resource,
                         RequestContext(TightAttributes(scope.bounds)), None)
  }

  lemma {:induction false} TightLookup(bounds: Keyed<int>, name: string)
    ensures var found := Lookup(bounds, name);
            Lookup(TightAttributes(bounds), name) == if found.None? then None else Some(Number(found.value))
  {
    var es := TightAttributes(bounds);
    if Lookup(bounds, name).Some? {
      var i := LookupFound(bounds, name);
      LookupAt(es, i);
    } else if Lookup(es, name).Some? {
      var i := LookupFound(es, name);
      LookupAt(bounds, i);
    }
  }

  lemma {:induction false} TightRequestContained(scope: AuthorityScope)
    ensures Contains(scope, TightRequest(scope))
  {
    forall i | 0 <= i < |scope.bounds| ensures WithinBound(TightRequest(scope), scope.bounds[i]) {
      LookupAt(scope.bounds, i);
      TightLookup(scope.bounds, scope.bounds[i].0);
    }
  }

  /** One request decides attenuation: the one at the child's limits. */
  lemma {:induction false} TightRequestDecides(child: AuthorityScope, parent: AuthorityScope)
    requires Contains(parent, TightRequest(child))
    ensures IsAttenuation(child, parent)
  {
    forall i | 0 <= i < |parent.bounds| ensures BoundKept(child, parent.bounds[i]) {
      assert WithinBound(TightRequest(child), parent.bounds[i]);
      TightLookup(child.bounds, parent.bounds[i].0);
    }
  }

  lemma {:induction false} AttenuationNarrows(child: AuthorityScope, parent: AuthorityScope, request: AuthorizationRequest)
    requires IsAttenuation(child, parent) && Contains(child, request)
    ensures Contains(parent, request)
  {
    forall i | 0 <= i < |parent.bounds| ensures WithinBound(request, parent.bounds[i]) {
      assert BoundKept(child, parent.bounds[i]);
      var j := LookupFound(child.bounds, parent.bounds[i].0);
      assert WithinBound(request, child.bounds[j]);
    }
  }

  /**
    The syntactic check is sound and complete: a child scope attenuates a parent scope exactly
    when every request the child permits is one the parent permits.
    */
  lemma {:induction false} AttenuationIsInclusion(child: AuthorityScope, parent: AuthorityScope)
    ensures IsAttenuation(child, parent)
            <==> (forall r: AuthorizationRequest ::
                    ScopeStatus(r, child) == Applicable ==> ScopeStatus(r, parent) == Applicable)
  {
    if IsAttenuation(child, parent) {
      forall r: AuthorizationRequest | ScopeStatus(r, child) == Applicable
        ensures ScopeStatus(r, parent) == Applicable
      {
        ApplicableIffContains(r, child);
        ApplicableIffContains(r, parent);
        AttenuationNarrows(child, parent, r);
      }
    } else {
      var tight := TightRequest(child);
      TightRequestContained(child);
      ApplicableIffContains(tight, child);
      ApplicableIffContains(tight, parent);
      if Contains(parent, tight) {
        TightRequestDecides(child, parent);
      }
      assert ScopeStatus(tight, child) == Applicable && ScopeStatus(tight, parent) != Applicable;
    }
  }

  lemma {:induction false} AttenuationReflexive(scope: AuthorityScope)
    ensures IsAttenuation(scope, scope)
  {
    TightRequestContained(scope);
    TightRequestDecides(scope, scope);
  }

  lemma {:induction false} AttenuationTransitive(a: AuthorityScope, b: AuthorityScope, c: AuthorityScope)
    requires IsAttenuation(a, b) && IsAttenuation(b, c)
    ensures IsAttenuation(a, c)
  {
    TightRequestContained(a);
    AttenuationNarrows(a, b, TightRequest(a));
    AttenuationNarrows(b, c, TightRequest(a));
    TightRequestDecides(a, c);
  }

  // ----- Holder binding

  function BindingStatusOf(request: AuthorizationRequest, binding: SubjectPrincipalBinding, holder: Principal)
    : BindingStatus
  {
    if request.subject != binding.subject then SubjectMismatch
    else if binding.principal != holder then PrincipalMismatch
    else Bound
  }

  function CheckBinding(id: Identity, request: AuthorizationRequest, binding: SubjectPrincipalBinding,
                        authority: VerifiedAuthority): BindingResult
  {
    BindingResult(BindingStatusOf(request, binding, authority.principal), id(OfRequest(request)),
                  id(OfAuthority(authority)), request.subject, binding, authority.principal,
                  authority.grantId)
  }

  /** `SubjectAuthorityBindingResult` re-derives its status. */
  function MakeBindingResult(r: BindingResult): Option<BindingResult> {
    var expected :=
      if r.requestSubject != r.binding.subject then SubjectMismatch
      else if r.binding.principal != r.authorityPrincipal then PrincipalMismatch
      else Bound;
    if Blank(r.grantId) || r.status != expected then None else Some(r)
  }

  /** `check_subject_authority_binding` with its constructor, which never fires. */
  function TryBinding(id: Identity, request: AuthorizationRequest, binding: SubjectPrincipalBinding,
                      authority: VerifiedAuthority): (r: Option<BindingResult>)
    ensures r == Some(CheckBinding(id, request, binding, authority))
  {
    MakeBindingResult(CheckBinding(id, request, binding, authority))
  }
}
