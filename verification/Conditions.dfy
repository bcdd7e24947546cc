/**
  What a condition says about a request, without the evaluator: which value a field denotes, and
  which relation an operator stands for (evaluator.py:42-138).
  */
module Conditions {
  import opened Wrappers
  import opened Utf8
  import opened Domain
  import opened Applicability
  import opened Policies
  import opened Evaluator

  // ----- Fields

  /** The reference names a field that its namespace can have. */
  predicate IsField(reference: FieldReference) {
    match reference.namespace
    case SubjectFields => reference.name == "identifier"
    case ActionFields => reference.name == "name"
    case ResourceFields => reference.name == "identifier"
    case ContextFields => true
    case AuthorityFields => true
  }

  /** The field has this value in the request. */
  predicate Denotes(request: AuthorizationRequest, reference: FieldReference, value: Scalar) {
    match reference.namespace
    case SubjectFields => reference.name == "identifier" && value == Words(request.subject.identifier)
    case ActionFields => reference.name == "name" && value == Words(request.action.name)
    case ResourceFields => reference.name == "identifier" && value == Words(request.resource.identifier)
    case ContextFields => (reference.name, value) in request.context.attributes
    case AuthorityFields =>
      && request.authorityContext.Some?
      && if reference.name == "identifier" then value == Words(request.authorityContext.value.identifier)
         else (reference.name, value) in request.authorityContext.value.attributes
  }

  ghost predicate Present(request: AuthorizationRequest, reference: FieldReference) {
    exists value :: Denotes(request, reference, value)
  }

  /** The field is one of an authority context the request does not have. */
  predicate LacksAuthority(request: AuthorizationRequest, reference: FieldReference) {
    reference.namespace.AuthorityFields? && request.authorityContext.None?
  }

  // ----- Operators

  predicate OneType(a: Scalar, b: Scalar) {
    || (a.Words? && b.Words?) || (a.Number? && b.Number?) || (a.Flag? && b.Flag?) || (a.NoValue? && b.NoValue?)
  }

  /** The operator applies to values of these types. */
  predicate Comparable(operator: Operator, actual: Scalar, expected: Scalar) {
    match operator
    case Exists => true
    case Equals => OneType(actual, expected)
    case NotEquals => OneType(actual, expected)
    case _ => actual.Number? && expected.Number?
  }

  /** The relation an operator stands for: of the request's value to the condition's. */
  predicate Related(operator: Operator, actual: Scalar, expected: Scalar)
    requires Comparable(operator, actual, expected)
  {
    match operator
    case Exists => true
    case Equals => actual == expected
    case NotEquals => actual != expected
    case LessThan => actual.n < expected.n
    case LessThanOrEqual => actual.n <= expected.n
    case GreaterThan => actual.n > expected.n
    case GreaterThanOrEqual => actual.n >= expected.n
  }

  /** The condition has this status in the request. */
  ghost predicate Is(request: AuthorizationRequest, c: Condition, status: ConditionStatus) {
    match status
    case Satisfied =>
      exists v :: Denotes(request, c.field, v) && Comparable(c.operator, v, c.value) && Related(c.operator, v, c.value)
    case Unsatisfied =>
      || (exists v ::
            && Denotes(request, c.field, v) && Comparable(c.operator, v, c.value) && !Related(c.operator, v, c.value))
      || (c.operator.Exists? && IsField(c.field) && !LacksAuthority(request, c.field) && !Present(request, c.field))
    case MissingInput =>
      && IsField(c.field) && !Present(request, c.field)
      && (c.operator.Exists? ==> LacksAuthority(request, c.field))
    case ConditionError =>
      || !IsField(c.field)
      || exists v :: Denotes(request, c.field, v) && !Comparable(c.operator, v, c.value)
    case NotEvaluated => false
  }

  // ----- The evaluator

  lemma {:induction false} LookupExact(es: Keyed<Scalar>, name: string, value: Scalar)
    ensures Lookup(es, name) == Some(value) <==> (name, value) in es
  {
    if (name, value) in es {
      var i :| 0 <= i < |es| && es[i] == (name, value);
      LookupAt(es, i);
    }
    if Lookup(es, name) == Some(value) {
      var i := LookupFound(es, name);
    }
  }

  lemma {:induction false} ResolvedExact(request: AuthorizationRequest, reference: FieldReference, value: Scalar)
    ensures var r := ResolveField(request, reference);
            && (Denotes(request, reference, value) <==> r.settled.None? && r.present && r.value == value)
            && (r.settled == Some(ConditionError) <==> !IsField(reference))
            && (r.settled == Some(MissingInput) <==> LacksAuthority(request, reference))
            && (r.settled.Some? ==> r.settled.value == ConditionError || r.settled.value == MissingInput)
  {
    LookupExact(request.context.attributes, reference.name, value);
    if request.authorityContext.Some? {
      LookupExact(request.authorityContext.value.attributes, reference.name, value);
    }
    hide Lookup;
  }

  /** Every condition a constructor accepts has exactly the status its evaluation gives; no evaluation raises. */
  lemma {:induction false} ConditionExact(request: AuthorizationRequest, c: Condition, status: ConditionStatus)
    requires ValidCondition(c)
    ensures EvaluateCondition(request, c) == Some(status) <==> Is(request, c, status)
  {
    hide ResolveField, Denotes, IsField, LacksAuthority;
    var r := ResolveField(request, c.field);
    ResolvedExact(request, c.field, r.value);
    forall v ensures Denotes(request, c.field, v) <==> r.settled.None? && r.present && r.value == v {
      ResolvedExact(request, c.field, v);
    }
    if r.settled.None? && r.present {
      assert Denotes(request, c.field, r.value);
    } else {
      assert !Present(request, c.field);
    }
  }

  /** On a field that is the integer `m`, the integer operators and equality decide as `m` stands to `n`. */
  lemma {:induction false} OperatorLaws(request: AuthorizationRequest, c: Condition, m: int, n: int)
    requires !Blank(c.identifier) && !Blank(c.field.name) && Denotes(request, c.field, Number(m))
    ensures var status := (o: Operator) => EvaluateCondition(request, c.(operator := o, value := Number(n)));
            && status(LessThan) == Some(if m < n then Satisfied else Unsatisfied)
            && status(LessThanOrEqual) == Some(if m <= n then Satisfied else Unsatisfied)
            && status(GreaterThan) == Some(if m > n then Satisfied else Unsatisfied)
            && status(GreaterThanOrEqual) == Some(if m >= n then Satisfied else Unsatisfied)
            && status(Equals) == Some(if m == n then Satisfied else Unsatisfied)
            && status(NotEquals) == Some(if m != n then Satisfied else Unsatisfied)
  {
    hide ResolveField, Denotes;
    ResolvedExact(request, c.field, Number(m));
  }
}
