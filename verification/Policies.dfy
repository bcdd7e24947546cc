/** Building approval requirements, rules, policies and bundles (domain.py:1403-1500, 1792-2052). */
module Policies {
  import opened Wrappers
  import opened Ordering
  import opened Utf8
  import opened Domain
  import opened Construction

  function PrincipalKey(p: Principal): string { p.identifier }

  function ConditionKey(c: Condition): string { c.identifier }

  function RuleKey(r: Rule): string { r.identifier }

  function PolicyKey(p: Policy): string { p.identifier }

  // ----- Constructors

  predicate IntegerOperator(o: Operator) {
    o.LessThan? || o.LessThanOrEqual? || o.GreaterThan? || o.GreaterThanOrEqual?
  }

  /** EXISTS takes no value, every other operator takes one, and integer operators an integer. */
  predicate ValidCondition(c: Condition) {
    && !Blank(c.identifier) && !Blank(c.field.name)
    && (c.operator.Exists? <==> c.value.NoValue?)
    && (IntegerOperator(c.operator) ==> c.value.Number?)
  }

  predicate SamePredicate(a: Condition, b: Condition) {
    a.field == b.field && a.operator == b.operator && a.value == b.value
  }

  /** Two conditions state the same when they differ at most in their identifiers. */
  lemma {:induction false} SamePredicateExact(a: Condition, b: Condition)
    ensures SamePredicate(a, b) <==> a.(identifier := b.identifier) == b
  {
  }

  predicate DistinctPredicates(cs: seq<Condition>) {
    forall i, j :: 0 <= i < j < |cs| ==> !SamePredicate(cs[i], cs[j])
  }

  function MakeRequirement(code: string, principals: seq<Principal>, parameters: seq<(string, Scalar)>)
    : Option<ApprovalRequirement>
  {
    if Blank(code) || principals == [] then None
    else
      var ps :- Canonical(PrincipalKey, principals);
      var fields :- CanonicalFields(parameters);
      Some(ApprovalRequirement(code, ps, fields))
  }

  function CanonicalConditions(conditions: seq<Condition>): Option<seq<Condition>> {
    if conditions == [] || !DistinctPredicates(conditions) then None
    else Canonical(ConditionKey, conditions)
  }

  function MakeRule(identifier: string, effect: Effect, conditions: seq<Condition>,
                    obligations: seq<Obligation>, requirements: seq<ApprovalRequirement>): Option<Rule>
  {
    if Blank(identifier) then None
    else
      var cs :- CanonicalConditions(conditions);
      var rs :- CanonicalRequirements(requirements);
      if (effect == ApprovalEffect) != (rs != []) then None
      else Some(Rule(identifier, effect, cs, obligations, rs))
  }

  function MakePolicy(identifier: string, rules: seq<Rule>): Option<Policy> {
    if Blank(identifier) || rules == [] then None
    else
      var rs :- Canonical(RuleKey, rules);
      Some(Policy(identifier, rs))
  }

  function MakeBundle(policies: seq<Policy>): Option<PolicyBundle> {
    var ps :- Canonical(PolicyKey, policies);
    Some(PolicyBundle(ps))
  }

  // ----- What the constructors establish

  ghost predicate ValidRule(r: Rule) {
    && !Blank(r.identifier)
    && r.conditions != []
    && (forall c :: c in r.conditions ==> ValidCondition(c))
    && Ascending(ByKey(ConditionKey), r.conditions)
    && Ascending(RequirementLess, r.approvals)
    && (r.effect == ApprovalEffect <==> r.approvals != [])
  }

  ghost predicate ValidPolicy(p: Policy) {
    && !Blank(p.identifier)
    && p.rules != []
    && (forall r :: r in p.rules ==> ValidRule(r))
    && Ascending(ByKey(RuleKey), p.rules)
  }

  ghost predicate ValidBundle(b: PolicyBundle) {
    && (forall p :: p in b.policies ==> ValidPolicy(p))
    && Ascending(ByKey(PolicyKey), b.policies)
  }

  /** A requirement is made exactly of a nonblank code, at least one principal and distinct names; it keeps what it is given. */
  lemma {:induction false} MakeRequirementExact(code: string, principals: seq<Principal>, parameters: seq<(string, Scalar)>)
    ensures MakeRequirement(code, principals, parameters).Some? <==>
      && !Blank(code) && principals != []
      && (forall i, j :: 0 <= i < j < |principals| ==> principals[i] != principals[j])
      && (forall i :: 0 <= i < |parameters| ==> !Blank(parameters[i].0))
      && (forall i, j :: 0 <= i < j < |parameters| ==> parameters[i].0 != parameters[j].0)
    ensures MakeRequirement(code, principals, parameters).Some? ==>
              var r := MakeRequirement(code, principals, parameters).value;
              && r.code == code && (forall p :: p in r.allowedPrincipals <==> p in principals)
              && Ascending(ByKey(PrincipalKey), r.allowedPrincipals)
              && forall e :: e in r.parameters <==> e in parameters
  {
    assert forall p, q: Principal :: PrincipalKey(p) == PrincipalKey(q) <==> p == q;
    assert forall e: (string, Scalar) :: KeyOf(e) == e.0;
    if MakeRequirement(code, principals, parameters).Some? {
      CanonicalAscending(PrincipalKey, principals);
      SortMembers(StringKeyLess<Scalar>, parameters);
    }
  }

  /** A rule is made exactly when its parts are distinct and approvals come with the approval effect; it keeps what it is given. */
  lemma {:induction false} MakeRuleValid(
    identifier: string, effect: Effect, conditions: seq<Condition>, obligations: seq<Obligation>,
    requirements: seq<ApprovalRequirement>)
    requires forall c :: c in conditions ==> ValidCondition(c)
    ensures MakeRule(identifier, effect, conditions, obligations, requirements).Some? <==>
      && !Blank(identifier) && conditions != []
      && (forall i, j :: 0 <= i < j < |conditions| ==> conditions[i].identifier != conditions[j].identifier)
      && (forall i, j :: 0 <= i < j < |conditions| ==> !SamePredicate(conditions[i], conditions[j]))
      && (forall i, j :: 0 <= i < j < |requirements| ==> requirements[i] != requirements[j])
      && (effect == ApprovalEffect <==> requirements != [])
    ensures MakeRule(identifier, effect, conditions, obligations, requirements).Some? ==>
              var r := MakeRule(identifier, effect, conditions, obligations, requirements).value;
              && ValidRule(r) && r.identifier == identifier && r.effect == effect && r.obligations == obligations
              && (forall c :: c in r.conditions <==> c in conditions) && (forall a :: a in r.approvals <==> a in requirements)
  {
    hide RequirementLess, ValidCondition, CanonicalConditions, CanonicalRequirements;
    ConditionsAccepted(conditions);
    RequirementsAccepted(requirements);
  }

  lemma {:induction false} ConditionsAccepted(conditions: seq<Condition>)
    ensures CanonicalConditions(conditions).Some? <==>
      && conditions != []
      && (forall i, j :: 0 <= i < j < |conditions| ==> conditions[i].identifier != conditions[j].identifier)
      && (forall i, j :: 0 <= i < j < |conditions| ==> !SamePredicate(conditions[i], conditions[j]))
    ensures CanonicalConditions(conditions).Some? ==>
              var cs := CanonicalConditions(conditions).value;
              && cs != [] && Ascending(ByKey(ConditionKey), cs) && forall c :: c in cs <==> c in conditions
  {
    hide SamePredicate;
    assert forall c :: ConditionKey(c) == c.identifier;
    if CanonicalConditions(conditions).Some? {
      CanonicalAscending(ConditionKey, conditions);
      assert |CanonicalConditions(conditions).value| == |conditions|;
    }
  }

  lemma {:induction false} RequirementsAccepted(requirements: seq<ApprovalRequirement>)
    ensures CanonicalRequirements(requirements).Some?
            <==> forall i, j :: 0 <= i < j < |requirements| ==> requirements[i] != requirements[j]
    ensures CanonicalRequirements(requirements).Some? ==>
              var rs := CanonicalRequirements(requirements).value;
              && |rs| == |requirements| && Ascending(RequirementLess, rs) && forall r :: r in rs <==> r in requirements
  {
    hide RequirementLess;
    if CanonicalRequirements(requirements).Some? {
      RequirementsAscending(requirements);
    }
  }

  /** A policy is made exactly of a nonblank identifier and rules of distinct identifiers, at least one, and keeps them. */
  lemma {:induction false} MakePolicyValid(identifier: string, rules: seq<Rule>)
    requires forall r :: r in rules ==> ValidRule(r)
    ensures MakePolicy(identifier, rules).Some? <==>
      && !Blank(identifier) && rules != []
      && forall i, j :: 0 <= i < j < |rules| ==> rules[i].identifier != rules[j].identifier
    ensures MakePolicy(identifier, rules).Some? ==>
              var p := MakePolicy(identifier, rules).value;
              ValidPolicy(p) && p.identifier == identifier && forall r :: r in p.rules <==> r in rules
  {
    hide ValidRule;
    assert forall r :: RuleKey(r) == r.identifier;
    if MakePolicy(identifier, rules).Some? {
      CanonicalAscending(RuleKey, rules);
      assert |MakePolicy(identifier, rules).value.rules| == |rules|;
    }
  }

  /** A bundle is made exactly of policies of distinct identifiers, and keeps them. */
  lemma {:induction false} MakeBundleValid(policies: seq<Policy>)
    requires forall p :: p in policies ==> ValidPolicy(p)
    ensures MakeBundle(policies).Some?
            <==> forall i, j :: 0 <= i < j < |policies| ==> policies[i].identifier != policies[j].identifier
    ensures MakeBundle(policies).Some? ==>
              var b := MakeBundle(policies).value;
              ValidBundle(b) && forall p :: p in b.policies <==> p in policies
  {
    hide ValidPolicy;
    assert forall p :: PolicyKey(p) == p.identifier;
    if MakeBundle(policies).Some? {
      CanonicalAscending(PolicyKey, policies);
    }
  }

  // ----- The caller's order has no meaning

  datatype RawRequirement = RawRequirement(
    code: string, principals: seq<Principal>, parameters: seq<(string, Scalar)>)

  datatype RawRule = RawRule(
    identifier: string, effect: Effect, conditions: seq<Condition>, obligations: seq<Obligation>,
    requirements: seq<RawRequirement>)

  datatype RawPolicy = RawPolicy(identifier: string, rules: seq<RawRule>)

  /** All of a sequence, or failure if any part fails. */
  function All<T, U>(f: T -> Option<U>, xs: seq<T>): (r: Option<seq<U>>)
    ensures r.Some? <==> forall i :: 0 <= i < |xs| ==> f(xs[i]).Some?
    ensures r.Some? ==> |r.value| == |xs| && forall i :: 0 <= i < |xs| ==> f(xs[i]) == Some(r.value[i])
  {
    if forall i :: 0 <= i < |xs| ==> f(xs[i]).Some? then
      Some(seq(|xs|, i requires 0 <= i < |xs| && f(xs[i]).Some? => f(xs[i]).value))
    else None
  }

  function BuildRequirement(r: RawRequirement): Option<ApprovalRequirement> {
    MakeRequirement(r.code, r.principals, r.parameters)
  }

  function BuildRule(r: RawRule): Option<Rule> {
    var requirements :- All(BuildRequirement, r.requirements);
    MakeRule(r.identifier, r.effect, r.conditions, r.obligations, requirements)
  }

  function BuildPolicy(p: RawPolicy): Option<Policy> {
    var rules :- All(BuildRule, p.rules);
    MakePolicy(p.identifier, rules)
  }

  /** A whole bundle from what a caller writes down. */
  function Build(ps: seq<RawPolicy>): Option<PolicyBundle> {
    var policies :- All(BuildPolicy, ps);
    MakeBundle(policies)
  }

  /** `ys` is `xs` with its items in another order, or with one item reordered inside. */
  ghost predicate Reordered<T(!new)>(inside: (T, T) -> bool, xs: seq<T>, ys: seq<T>) {
    || multiset(xs) == multiset(ys)
    || exists i, y :: 0 <= i < |xs| && inside(xs[i], y) && ys == xs[i := y]
  }

  ghost predicate ReorderedRequirement(a: RawRequirement, b: RawRequirement) {
    a.code == b.code && multiset(a.principals) == multiset(b.principals)
    && multiset(a.parameters) == multiset(b.parameters)
  }

  ghost predicate ReorderedRule(a: RawRule, b: RawRule) {
    && a.identifier == b.identifier && a.effect == b.effect && a.obligations == b.obligations
    && multiset(a.conditions) == multiset(b.conditions)
    && Reordered((x, y) => ReorderedRequirement(x, y), a.requirements, b.requirements)
  }

  ghost predicate ReorderedPolicy(a: RawPolicy, b: RawPolicy) {
    a.identifier == b.identifier && Reordered((x, y) => ReorderedRule(x, y), a.rules, b.rules)
  }

  ghost predicate PoliciesReordered(ps: seq<RawPolicy>, qs: seq<RawPolicy>) {
    Reordered((x, y) => ReorderedPolicy(x, y), ps, qs)
  }

  lemma {:induction false} RemoveOne<T>(s: seq<T>, k: nat)
    requires k < |s|
    ensures multiset(s) == multiset(s[..k] + s[k + 1..]) + multiset{s[k]}
  {
    assert s == s[..k] + [s[k]] + s[k + 1..];
  }

  lemma {:induction false} RestPermuted<T>(xs: seq<T>, ys: seq<T>, k: nat)
    requires multiset(xs) == multiset(ys) && xs != [] && k < |ys| && ys[k] == xs[0]
    ensures multiset(xs[..0] + xs[1..]) == multiset(ys[..k] + ys[k + 1..])
  {
    RemoveOne(xs, 0);
    RemoveOne(ys, k);
    assert multiset(xs[..0] + xs[1..]) == multiset(xs) - multiset{xs[0]};
    assert multiset(ys[..k] + ys[k + 1..]) == multiset(ys) - multiset{ys[k]};
  }

  lemma {:induction false} MapRemoveOne<T, U>(f: T -> U, s: seq<T>, k: nat)
    requires k < |s|
    ensures multiset(Map(f, s)) == multiset(Map(f, s[..k] + s[k + 1..])) + multiset{f(s[k])}
  {
    RemoveOne(Map(f, s), k);
    assert Map(f, s)[..k] + Map(f, s)[k + 1..] == Map(f, s[..k] + s[k + 1..]);
  }

  lemma {:induction false} MultisetOfMap<T(!new), U>(f: T -> U, xs: seq<T>, ys: seq<T>)
    requires multiset(xs) == multiset(ys)
    ensures multiset(Map(f, xs)) == multiset(Map(f, ys))
    decreases |xs|
  {
    if xs == [] {
      assert |ys| == |multiset(ys)| == 0;
    } else {
      SameMembers(xs, ys);
      assert xs[0] in ys;
      var k :| 0 <= k < |ys| && ys[k] == xs[0];
      RestPermuted(xs, ys, k);
      MapRemoveOne(f, xs, 0);
      MapRemoveOne(f, ys, k);
      MultisetOfMap(f, xs[..0] + xs[1..], ys[..k] + ys[k + 1..]);
    }
  }

  lemma {:induction false} AllPermuted<T(!new), U>(f: T -> Option<U>, xs: seq<T>, ys: seq<T>)
    requires multiset(xs) == multiset(ys)
    ensures All(f, xs).Some? <==> All(f, ys).Some?
    ensures All(f, xs).Some? ==> multiset(All(f, xs).value) == multiset(All(f, ys).value)
  {
    SameMembers(xs, ys);
    assert All(f, xs).Some? <==> forall x :: x in xs ==> f(x).Some?;
    assert All(f, ys).Some? <==> forall x :: x in ys ==> f(x).Some?;
    assert |xs| == |multiset(xs)| && |ys| == |multiset(ys)|;
    if All(f, xs).Some? && xs != [] {
      var d := All(f, xs).value[0];
      var h := (x: T) => f(x).GetOr(d);
      MultisetOfMap(h, xs, ys);
      assert Map(h, xs) == All(f, xs).value;
      assert Map(h, ys) == All(f, ys).value;
    }
  }

  /** Reordering the parts reorders what is built of them. */
  lemma {:induction false} AllReordered<T(!new), U>(
    inside: (T, T) -> bool, f: T -> Option<U>, xs: seq<T>, ys: seq<T>)
    requires Reordered(inside, xs, ys)
    requires forall x, y :: inside(x, y) ==> f(x) == f(y)
    ensures All(f, xs).Some? <==> All(f, ys).Some?
    ensures All(f, xs).Some? ==> multiset(All(f, xs).value) == multiset(All(f, ys).value)
  {
    if multiset(xs) == multiset(ys) {
      AllPermuted(f, xs, ys);
    } else {
      var i, y :| 0 <= i < |xs| && inside(xs[i], y) && ys == xs[i := y];
      assert forall j :: 0 <= j < |xs| ==> f(xs[j]) == f(ys[j]);
      if All(f, xs).Some? {
        assert All(f, xs).value == All(f, ys).value;
      }
    }
  }

  lemma {:induction false} DistinctPredicatesPermuted(cs: seq<Condition>, ds: seq<Condition>)
    requires multiset(cs) == multiset(ds) && DistinctPredicates(cs)
    ensures DistinctPredicates(ds)
  {
    SameMembers(cs, ds);
    forall i, j | 0 <= i < j < |ds| ensures !SamePredicate(ds[i], ds[j]) {
      assert ds[i] in cs && ds[j] in cs;
      var a :| 0 <= a < |cs| && cs[a] == ds[i];
      var b :| 0 <= b < |cs| && cs[b] == ds[j];
      if a == b {
        TwiceInT(cs, ds, i, j, a);
      }
    }
  }

  lemma {:induction false} RequirementOrderFree(x: RawRequirement, y: RawRequirement)
    requires ReorderedRequirement(x, y)
    ensures BuildRequirement(x) == BuildRequirement(y)
  {
    assert |x.principals| == |multiset(x.principals)| && |y.principals| == |multiset(y.principals)|;
    CanonicalOrderFree(PrincipalKey, x.principals, y.principals);
    FieldsOrderFree(x.parameters, y.parameters);
  }

  lemma {:induction false} RequirementsReordered(xs: seq<RawRequirement>, ys: seq<RawRequirement>)
    requires Reordered((x, y) => ReorderedRequirement(x, y), xs, ys)
    ensures All(BuildRequirement, xs).Some? <==> All(BuildRequirement, ys).Some?
    ensures All(BuildRequirement, xs).Some? ==>
      CanonicalRequirements(All(BuildRequirement, xs).value) == CanonicalRequirements(All(BuildRequirement, ys).value)
  {
    forall x, y | ReorderedRequirement(x, y) ensures BuildRequirement(x) == BuildRequirement(y) {
      RequirementOrderFree(x, y);
    }
    AllReordered((x, y) => ReorderedRequirement(x, y), BuildRequirement, xs, ys);
    if All(BuildRequirement, xs).Some? {
      RequirementsOrderFree(All(BuildRequirement, xs).value, All(BuildRequirement, ys).value);
    }
  }

  lemma {:induction false} RuleOrderFree(a: RawRule, b: RawRule)
    requires ReorderedRule(a, b)
    ensures BuildRule(a) == BuildRule(b)
  {
    RequirementsReordered(a.requirements, b.requirements);
    ConditionsOrderFree(a.conditions, b.conditions);
  }

  lemma {:induction false} ConditionsOrderFree(cs: seq<Condition>, ds: seq<Condition>)
    requires multiset(cs) == multiset(ds)
    ensures CanonicalConditions(cs) == CanonicalConditions(ds)
  {
    assert |cs| == |multiset(cs)| && |ds| == |multiset(ds)|;
    CanonicalOrderFree(ConditionKey, cs, ds);
    if DistinctPredicates(cs) {
      DistinctPredicatesPermuted(cs, ds);
    } else if DistinctPredicates(ds) {
      DistinctPredicatesPermuted(ds, cs);
    }
  }

  lemma {:induction false} PolicyOrderFree(a: RawPolicy, b: RawPolicy)
    requires ReorderedPolicy(a, b)
    ensures BuildPolicy(a) == BuildPolicy(b)
  {
    forall x, y | ReorderedRule(x, y) ensures BuildRule(x) == BuildRule(y) {
      RuleOrderFree(x, y);
    }
    AllReordered((x, y) => ReorderedRule(x, y), BuildRule, a.rules, b.rules);
    if All(BuildRule, a.rules).Some? {
      var rs, qs := All(BuildRule, a.rules).value, All(BuildRule, b.rules).value;
      assert |rs| == |multiset(rs)| && |qs| == |multiset(qs)|;
      CanonicalOrderFree(RuleKey, rs, qs);
    }
  }

  lemma {:induction false} BundleOrderFree(ps: seq<RawPolicy>, qs: seq<RawPolicy>)
    requires PoliciesReordered(ps, qs)
    ensures Build(ps) == Build(qs)
  {
    forall x, y | ReorderedPolicy(x, y) ensures BuildPolicy(x) == BuildPolicy(y) {
      PolicyOrderFree(x, y);
    }
    AllReordered((x, y) => ReorderedPolicy(x, y), BuildPolicy, ps, qs);
    if All(BuildPolicy, ps).Some? {
      CanonicalOrderFree(PolicyKey, All(BuildPolicy, ps).value, All(BuildPolicy, qs).value);
    }
  }

  /**
    Reordering policies, rules, conditions, allowed principals, parameters or approval
    requirements, at any depth and any number of times, builds the same bundle or fails in the
    same way.
    */
  lemma {:induction false} AnyReorderingSameBundle(steps: seq<seq<RawPolicy>>)
    requires steps != [] && forall i :: 0 <= i < |steps| - 1 ==> PoliciesReordered(steps[i], steps[i + 1])
    ensures Build(steps[0]) == Build(steps[|steps| - 1])
    decreases |steps|
  {
    hide PoliciesReordered, Build;
    if |steps| > 1 {
      var shorter := steps[..|steps| - 1];
      assert PoliciesReordered(steps[|steps| - 2], steps[|steps| - 2 + 1]);
      BundleOrderFree(steps[|steps| - 2], steps[|steps| - 1]);
      AnyReorderingSameBundle(shorter);
    }
  }
}
