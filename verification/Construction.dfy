/**
  The canonicalising constructors (domain.py). `None` stands for a raised `ValueError`.
  Collections declared order-independent are checked for duplicates and sorted.
  */
module Construction {
  import opened Wrappers
  import opened Ordering
  import opened Utf8
  import opened Domain

  // ----- Collections with one string key

  function ByKey<T>(key: T -> string): (T, T) -> bool {
    (a, b) => BytesLess(key(a), key(b))
  }

  predicate DistinctKeys<T>(key: T -> string, xs: seq<T>) {
    forall i, j :: 0 <= i < j < |xs| ==> key(xs[i]) != key(xs[j])
  }

  /** Refuse a repeated key, then sort by the UTF-8 bytes of the keys. */
  function Canonical<T>(key: T -> string, xs: seq<T>): Option<seq<T>> {
    if DistinctKeys(key, xs) then Some(Sort(ByKey(key), xs)) else None
  }

  lemma {:induction false} ByKeyStrict<T(!new)>(key: T -> string)
    ensures StrictOrder(ByKey(key))
  {
    BytesLessStrict();
    var lt := ByKey(key);
    assert forall a, b :: lt(a, b) == BytesLess(key(a), key(b));
  }

  lemma {:induction false} DistinctIsComparable<T(!new)>(key: T -> string, xs: seq<T>)
    ensures DistinctKeys(key, xs) <==> Comparable(ByKey(key), xs)
  {
    var lt := ByKey(key);
    assert forall a, b :: lt(a, b) == BytesLess(key(a), key(b));
    forall i, j | 0 <= i < j < |xs|
      ensures key(xs[i]) != key(xs[j]) <==> lt(xs[i], xs[j]) || lt(xs[j], xs[i])
    {
      BytesLessTotal(key(xs[i]), key(xs[j]));
      LexIrreflexive(EncodeString(key(xs[i])));
    }
  }

  lemma {:induction false} CanonicalAscending<T(!new)>(key: T -> string, xs: seq<T>)
    requires Canonical(key, xs).Some?
    ensures Ascending(ByKey(key), Canonical(key, xs).value)
    ensures forall x :: x in Canonical(key, xs).value <==> x in xs
  {
    ByKeyStrict(key);
    DistinctIsComparable(key, xs);
    SortAscending(ByKey(key), xs);
    SortMembers(ByKey(key), xs);
  }

  /** The caller's order has no influence, on success or on failure. */
  lemma {:induction false} CanonicalOrderFree<T(!new)>(key: T -> string, xs: seq<T>, ys: seq<T>)
    requires multiset(xs) == multiset(ys)
    ensures Canonical(key, xs) == Canonical(key, ys)
  {
    ByKeyStrict(key);
    DistinctIsComparable(key, xs);
    DistinctIsComparable(key, ys);
    if DistinctKeys(key, xs) {
      ComparablePermuted(ByKey(key), xs, ys);
      SortPermuted(ByKey(key), xs, ys);
    } else if DistinctKeys(key, ys) {
      ComparablePermuted(ByKey(key), ys, xs);
    }
  }

  lemma {:induction false} AscendingDistinct<T(!new)>(key: T -> string, xs: seq<T>)
    requires Ascending(ByKey(key), xs)
    ensures DistinctKeys(key, xs)
  {
    DistinctIsComparable(key, xs);
  }

  /** Canonicalising what is canonical changes nothing. */
  lemma {:induction false} CanonicalFixed<T(!new)>(key: T -> string, xs: seq<T>)
    requires Ascending(ByKey(key), xs)
    ensures Canonical(key, xs) == Some(xs)
  {
    AscendingDistinct(key, xs);
    ByKeyStrict(key);
    SortAscending(ByKey(key), xs) by {
      DistinctIsComparable(key, xs);
    }
    SortMembers(ByKey(key), xs);
    AscendingUnique(ByKey(key), Sort(ByKey(key), xs), xs);
  }

  // ----- Keyed scalar fields, sorted by string or by bytes

  function KeyOf<T>(e: (string, T)): string { e.0 }

  lemma {:induction false} ByKeyOf<T>(a: (string, T), b: (string, T))
    ensures ByKey(KeyOf<T>)(a, b) == BytesLess(a.0, b.0)
  {
    var key := KeyOf<T>;
    assert key(a) == a.0 && key(b) == b.0;
  }

  predicate StringKeyLess<T>(a: (string, T), b: (string, T)) {
    StringLess(a.0, b.0)
  }

  lemma {:induction false} SortSame<T(!new)>(lt: (T, T) -> bool, lu: (T, T) -> bool, xs: seq<T>)
    requires forall a, b :: lt(a, b) == lu(a, b)
    ensures Sort(lt, xs) == Sort(lu, xs)
  {
    SortMap(lt, lu, (x: T) => x, xs);
    assert Map((x: T) => x, xs) == xs;
    assert Map((x: T) => x, Sort(lt, xs)) == Sort(lt, xs);
  }

  /** Sorting fields by string puts them in the byte order the encoder and the rules use. */
  lemma {:induction false} StringSortIsByteSort<T(!new)>(es: seq<(string, T)>)
    ensures Sort(StringKeyLess<T>, es) == Sort(ByKey(KeyOf<T>), es)
  {
    forall a: (string, T), b: (string, T) ensures StringKeyLess(a, b) == ByKey(KeyOf<T>)(a, b) {
      StringOrderIsByteOrder(a.0, b.0);
      ByKeyOf(a, b);
    }
    SortSame(StringKeyLess<T>, ByKey(KeyOf<T>), es);
  }

  predicate FieldsAllowed<T>(es: seq<(string, T)>) {
    NoBlankKey(es) && DistinctKeys(KeyOf<T>, es)
  }

  lemma {:induction false} NoBlankKeyPermuted<T(!new)>(es: seq<(string, T)>, fs: seq<(string, T)>)
    requires multiset(es) == multiset(fs) && NoBlankKey(es)
    ensures NoBlankKey(fs)
  {
    SameMembers(es, fs);
    forall i | 0 <= i < |fs| ensures !Blank(fs[i].0) {
      assert fs[i] in es;
    }
  }

  lemma {:induction false} FieldsKeyed<T(!new)>(es: seq<(string, T)>)
    requires DistinctKeys(KeyOf<T>, es)
    ensures KeysAscending(Sort(StringKeyLess<T>, es))
  {
    StringSortIsByteSort(es);
    CanonicalAscending(KeyOf<T>, es);
    var sorted := Sort(ByKey(KeyOf<T>), es);
    forall i, j | 0 <= i < j < |sorted| ensures BytesLess(sorted[i].0, sorted[j].0) {
      ByKeyOf(sorted[i], sorted[j]);
    }
  }

  /** `_canonical_fields` and `_canonical_condition_results`: sorted by Python's string order. */
  function CanonicalFields<T(!new)>(es: seq<(string, T)>): Option<Keyed<T>> {
    if !FieldsAllowed(es) then None
    else
      FieldsKeyed(es);
      Some(Sort(StringKeyLess<T>, es))
  }

  lemma {:induction false} FieldsOrderFree<T(!new)>(es: seq<(string, T)>, fs: seq<(string, T)>)
    requires multiset(es) == multiset(fs)
    ensures CanonicalFields(es) == CanonicalFields(fs)
  {
    CanonicalOrderFree(KeyOf<T>, es, fs);
    StringSortIsByteSort(es);
    StringSortIsByteSort(fs);
    if NoBlankKey(es) {
      NoBlankKeyPermuted(es, fs);
    } else if NoBlankKey(fs) {
      NoBlankKeyPermuted(fs, es);
    }
  }

  /** Fields already in byte order come back unchanged from the string sort. */
  lemma {:induction false} FieldsFixed<T(!new)>(es: Keyed<T>)
    requires NoBlankKey(es)
    ensures CanonicalFields(es) == Some(es)
  {
    forall i, j | 0 <= i < j < |es| ensures ByKey(KeyOf<T>)(es[i], es[j]) {
      ByKeyOf(es[i], es[j]);
    }
    CanonicalFixed(KeyOf<T>, es);
    StringSortIsByteSort(es);
  }

  /** The loop of `_canonical_fields`. */
  method CanonicalFieldsLoop(es: seq<(string, Scalar)>) returns (r: Option<Keyed<Scalar>>)
    ensures r == CanonicalFields(es)
  {
    var result: seq<(string, Scalar)> := [];
    var seen: set<string> := {};
    for i := 0 to |es|
      invariant result == es[..i]
      invariant seen == set j | 0 <= j < i :: es[j].0
      invariant FieldsAllowed(es[..i])
    {
      var (key, scalar) := es[i];
      if Blank(key) {
        return None;
      }
      if key in seen {
        ghost var j :| 0 <= j < i && es[j].0 == key;
        assert KeyOf(es[j]) == KeyOf(es[i]);
        return None;
      }
      seen := seen + {key};
      result := result + [(key, scalar)];
    }
    assert es[..|es|] == es;
    FieldsKeyed(es);
    return Some(Sort(StringKeyLess<Scalar>, result));
  }

  // ----- Approval requirements

  /** Python's comparison of tuples: the first difference decides, else the shorter is less. */
  predicate SeqLess<T(==)>(lt: (T, T) -> bool, a: seq<T>, b: seq<T>) {
    b != [] && (a == [] || if a[0] == b[0] then SeqLess(lt, a[1..], b[1..]) else lt(a[0], b[0]))
  }

  ghost predicate TotalStrict<T(!new)>(lt: (T, T) -> bool) {
    StrictOrder(lt) && forall x, y :: x == y || lt(x, y) || lt(y, x)
  }

  lemma {:induction false} SeqLessIrreflexive<T(!new)>(lt: (T, T) -> bool, a: seq<T>)
    ensures !SeqLess(lt, a, a)
  {
    if a != [] {
      SeqLessIrreflexive(lt, a[1..]);
    }
  }

  lemma {:induction false} SeqLessTransitive<T(!new)>(lt: (T, T) -> bool, a: seq<T>, b: seq<T>, c: seq<T>)
    requires TotalStrict(lt) && SeqLess(lt, a, b) && SeqLess(lt, b, c)
    ensures SeqLess(lt, a, c)
  {
    if a != [] {
      if a[0] == b[0] == c[0] {
        SeqLessTransitive(lt, a[1..], b[1..], c[1..]);
      } else {
        assert a[0] == b[0] || lt(a[0], b[0]);
        assert b[0] == c[0] || lt(b[0], c[0]);
        assert lt(a[0], c[0]);
      }
    }
  }

  lemma {:induction false} SeqLessConnected<T(!new)>(lt: (T, T) -> bool, a: seq<T>, b: seq<T>)
    requires TotalStrict(lt)
    ensures a == b || SeqLess(lt, a, b) || SeqLess(lt, b, a)
  {
    if a != [] && b != [] && a[0] == b[0] {
      SeqLessConnected(lt, a[1..], b[1..]);
      assert a == [a[0]] + a[1..] && b == [b[0]] + b[1..];
    }
  }

  predicate PrincipalLess(p: Principal, q: Principal) {
    BytesLess(p.identifier, q.identifier)
  }

  /** The type name put before a value, so that values of different types are never compared. */
  function TypeName(s: Scalar): string {
    match s
    case Words(_) => "string"
    case Number(_) => "integer"
    case Flag(_) => "boolean"
    case NoValue => "null"
  }

  predicate SameTypeLess(a: Scalar, b: Scalar) {
    match a
    case Words(s) => b.Words? && StringLess(s, b.s)
    case Number(n) => b.Number? && n < b.n
    case Flag(f) => b.Flag? && !f && b.b
    case NoValue => false
  }

  predicate FieldLess(a: (string, Scalar), b: (string, Scalar)) {
    if a.0 != b.0 then StringLess(a.0, b.0)
    else if TypeName(a.1) != TypeName(b.1) then StringLess(TypeName(a.1), TypeName(b.1))
    else SameTypeLess(a.1, b.1)
  }

  /** `_approval_requirement_sort_key`. */
  predicate RequirementLess(a: ApprovalRequirement, b: ApprovalRequirement) {
    if a.code != b.code then BytesLess(a.code, b.code)
    else if a.allowedPrincipals != b.allowedPrincipals then
      SeqLess(PrincipalLess, a.allowedPrincipals, b.allowedPrincipals)
    else SeqLess(FieldLess, a.parameters, b.parameters)
  }

  // ----- What the order of requirements is

  /** The first difference decides; without one, the shorter comes first. */
  ghost predicate Earlier<T>(lt: (T, T) -> bool, a: seq<T>, b: seq<T>) {
    || (|a| < |b| && a == b[..|a|])
    || exists k :: 0 <= k < |a| && k < |b| && a[..k] == b[..k] && a[k] != b[k] && lt(a[k], b[k])
  }

  lemma {:induction false} SeqLessExact<T(!new)>(lt: (T, T) -> bool, a: seq<T>, b: seq<T>)
    ensures SeqLess(lt, a, b) <==> Earlier(lt, a, b)
  {
    if a != [] && b != [] {
      if a[0] == b[0] {
        SeqLessExact(lt, a[1..], b[1..]);
        assert a == [a[0]] + a[1..] && b == [b[0]] + b[1..];
        if |a| < |b| && a[1..] == b[1..][..|a| - 1] {
          assert a == b[..|a|];
        }
        if k :| 0 <= k < |a[1..]| && k < |b[1..]| && a[1..][..k] == b[1..][..k] && a[1..][k] != b[1..][k] && lt(a[1..][k], b[1..][k]) {
          assert a[..k + 1] == [a[0]] + a[1..][..k] && b[..k + 1] == [b[0]] + b[1..][..k];
          assert a[k + 1] != b[k + 1] && lt(a[k + 1], b[k + 1]);
        }
        if Earlier(lt, a, b) {
          EarlierTail(lt, a, b);
        }
      } else {
        assert a[..0] == b[..0];
      }
    }
  }

  lemma {:induction false} EarlierTail<T(!new)>(lt: (T, T) -> bool, a: seq<T>, b: seq<T>)
    requires a != [] && b != [] && a[0] == b[0] && Earlier(lt, a, b)
    ensures Earlier(lt, a[1..], b[1..])
  {
    if |a| < |b| && a == b[..|a|] {
      assert a[1..] == b[1..][..|a| - 1];
    } else {
      var k :| 0 <= k < |a| && k < |b| && a[..k] == b[..k] && a[k] != b[k] && lt(a[k], b[k]);
      assert a[1..][..k - 1] == a[..k][1..] && b[1..][..k - 1] == b[..k][1..];
      assert a[1..][k - 1] != b[1..][k - 1] && lt(a[1..][k - 1], b[1..][k - 1]);
    }
  }

  /** Booleans before integers before nulls before strings: the alphabetical order of the type names. */
  function TypeRank(s: Scalar): nat {
    match s
    case Flag(_) => 0
    case Number(_) => 1
    case NoValue => 2
    case Words(_) => 3
  }

  lemma {:induction false} TypeOrder(a: Scalar, b: Scalar)
    ensures StringLess(TypeName(a), TypeName(b)) <==> TypeRank(a) < TypeRank(b)
    ensures TypeName(a) == TypeName(b) <==> TypeRank(a) == TypeRank(b)
  {
    var x, y := CodePoints(TypeName(a)), CodePoints(TypeName(b));
    assert TypeName(a)[0] == TypeName(b)[0] <==> TypeRank(a) == TypeRank(b);
    assert x[0] < y[0] <==> TypeRank(a) < TypeRank(b);
    if TypeRank(a) == TypeRank(b) {
      LexIrreflexive(x);
    }
  }

  /** A parameter comes before another by name, then by type, then by value. */
  ghost predicate EarlierField(a: (string, Scalar), b: (string, Scalar)) {
    || (a.0 != b.0 && StringLess(a.0, b.0))
    || (a.0 == b.0 && TypeRank(a.1) < TypeRank(b.1))
    || (a.0 == b.0 && match (a.1, b.1) {
          case (Words(s), Words(t)) => StringLess(s, t)
          case (Number(m), Number(n)) => m < n
          case (Flag(f), Flag(g)) => !f && g
          case _ => false
        })
  }

  lemma {:induction false} FieldLessExact(a: (string, Scalar), b: (string, Scalar))
    ensures FieldLess(a, b) <==> EarlierField(a, b)
  {
    TypeOrder(a.1, b.1);
    hide StringLess, TypeName;
  }

  /** Requirements are ordered by code, then by allowed principals, then by parameters. */
  lemma {:induction false} RequirementOrderExact(a: ApprovalRequirement, b: ApprovalRequirement)
    ensures RequirementLess(a, b) <==>
      || (a.code != b.code && BytesLess(a.code, b.code))
      || (a.code == b.code && a.allowedPrincipals != b.allowedPrincipals
          && Earlier((p: Principal, q: Principal) => BytesLess(p.identifier, q.identifier), a.allowedPrincipals, b.allowedPrincipals))
      || (a.code == b.code && a.allowedPrincipals == b.allowedPrincipals
          && Earlier((x, y) => EarlierField(x, y), a.parameters, b.parameters))
  {
    var byId := (p: Principal, q: Principal) => BytesLess(p.identifier, q.identifier);
    forall x, y ensures FieldLess(x, y) <==> EarlierField(x, y) {
      FieldLessExact(x, y);
    }
    SeqLessExact(PrincipalLess, a.allowedPrincipals, b.allowedPrincipals);
    SeqLessExact(FieldLess, a.parameters, b.parameters);
    hide SeqLess, FieldLess, EarlierField;
    assert Earlier(PrincipalLess, a.allowedPrincipals, b.allowedPrincipals) <==> Earlier(byId, a.allowedPrincipals, b.allowedPrincipals);
  }

  lemma {:induction false} StringLessTotal()
    ensures TotalStrict(StringLess)
  {
    BytesLessStrict();
    forall s, t ensures StringLess(s, t) == BytesLess(s, t) {
      StringOrderIsByteOrder(s, t);
    }
    forall s, t ensures s == t || StringLess(s, t) || StringLess(t, s) {
      BytesLessTotal(s, t);
    }
  }

  lemma {:induction false} TypeNamesDistinct(a: Scalar, b: Scalar)
    requires TypeName(a) == TypeName(b)
    ensures a.Words? == b.Words? && a.Number? == b.Number? && a.Flag? == b.Flag?
  {
    assert |TypeName(a)| == |TypeName(b)| && TypeName(a)[0] == TypeName(b)[0];
  }

  lemma {:induction false} SameTypeLessTransitive(a: Scalar, b: Scalar, c: Scalar)
    requires SameTypeLess(a, b) && SameTypeLess(b, c)
    ensures SameTypeLess(a, c)
  {
    StringLessTotal();
  }

  lemma {:induction false} FieldLessTransitive(a: (string, Scalar), b: (string, Scalar), c: (string, Scalar))
    requires FieldLess(a, b) && FieldLess(b, c)
    ensures FieldLess(a, c)
  {
    StringLessTotal();
    if a.0 == b.0 == c.0 && TypeName(a.1) == TypeName(b.1) == TypeName(c.1) {
      SameTypeLessTransitive(a.1, b.1, c.1);
    }
  }

  lemma {:induction false} FieldLessTotal()
    ensures TotalStrict(FieldLess)
  {
    StringLessTotal();
    forall a, b, c | FieldLess(a, b) && FieldLess(b, c) ensures FieldLess(a, c) {
      FieldLessTransitive(a, b, c);
    }
    forall a, b ensures a == b || FieldLess(a, b) || FieldLess(b, a) {
      if a.0 == b.0 && TypeName(a.1) == TypeName(b.1) {
        TypeNamesDistinct(a.1, b.1);
      }
    }
  }

  lemma {:induction false} PrincipalLessTotal()
    ensures TotalStrict(PrincipalLess)
  {
    BytesLessStrict();
    forall p, q ensures p == q || PrincipalLess(p, q) || PrincipalLess(q, p) {
      BytesLessTotal(p.identifier, q.identifier);
    }
  }

  lemma {:induction false} RequirementLessTransitive(a: ApprovalRequirement, b: ApprovalRequirement, c: ApprovalRequirement)
    requires RequirementLess(a, b) && RequirementLess(b, c)
    ensures RequirementLess(a, c)
  {
    PrincipalLessTotal();
    FieldLessTotal();
    BytesLessStrict();
    var p, q, r := a.allowedPrincipals, b.allowedPrincipals, c.allowedPrincipals;
    if a.code == b.code == c.code {
      if p == q == r {
        SeqLessTransitive(FieldLess, a.parameters, b.parameters, c.parameters);
      } else if p != q && q != r {
        SeqLessTransitive(PrincipalLess, p, q, r);
        SeqLessIrreflexive(PrincipalLess, p);
      }
    }
  }

  /** Distinct requirements are always ordered, so their canonical order is unique. */
  lemma {:induction false} RequirementLessTotal()
    ensures TotalStrict(RequirementLess)
  {
    PrincipalLessTotal();
    FieldLessTotal();
    BytesLessStrict();
    forall a: ApprovalRequirement ensures !RequirementLess(a, a) {
      SeqLessIrreflexive(FieldLess, a.parameters);
    }
    forall a, b, c | RequirementLess(a, b) && RequirementLess(b, c) ensures RequirementLess(a, c) {
      RequirementLessTransitive(a, b, c);
    }
    forall a: ApprovalRequirement, b: ApprovalRequirement
      ensures a == b || RequirementLess(a, b) || RequirementLess(b, a)
    {
      BytesLessTotal(a.code, b.code);
      SeqLessConnected(PrincipalLess, a.allowedPrincipals, b.allowedPrincipals);
      SeqLessConnected(FieldLess, a.parameters, b.parameters);
    }
  }

  predicate NoRepeats<T(==)>(xs: seq<T>) {
    forall i, j :: 0 <= i < j < |xs| ==> xs[i] != xs[j]
  }

  /** `_canonical_approval_requirements`. */
  function CanonicalRequirements(rs: seq<ApprovalRequirement>): Option<seq<ApprovalRequirement>> {
    if NoRepeats(rs) then Some(Sort(RequirementLess, rs)) else None
  }

  lemma {:induction false} NoRepeatsIsComparable(rs: seq<ApprovalRequirement>)
    ensures NoRepeats(rs) <==> Comparable(RequirementLess, rs)
  {
    RequirementLessTotal();
  }

  lemma {:induction false} RequirementsAscending(rs: seq<ApprovalRequirement>)
    requires NoRepeats(rs)
    ensures Ascending(RequirementLess, Sort(RequirementLess, rs))
    ensures forall r :: r in Sort(RequirementLess, rs) <==> r in rs
  {
    RequirementLessTotal();
    NoRepeatsIsComparable(rs);
    SortAscending(RequirementLess, rs);
    SortMembers(RequirementLess, rs);
  }

  lemma {:induction false} RequirementsFixed(rs: seq<ApprovalRequirement>)
    requires Ascending(RequirementLess, rs)
    ensures CanonicalRequirements(rs) == Some(rs)
  {
    RequirementLessTotal();
    NoRepeatsIsComparable(rs);
    RequirementsAscending(rs);
    AscendingUnique(RequirementLess, Sort(RequirementLess, rs), rs);
  }

  lemma {:induction false} RequirementsOrderFree(rs: seq<ApprovalRequirement>, qs: seq<ApprovalRequirement>)
    requires multiset(rs) == multiset(qs)
    ensures CanonicalRequirements(rs) == CanonicalRequirements(qs)
  {
    RequirementLessTotal();
    NoRepeatsIsComparable(rs);
    NoRepeatsIsComparable(qs);
    if NoRepeats(rs) {
      ComparablePermuted(RequirementLess, rs, qs);
      SortPermuted(RequirementLess, rs, qs);
    } else if NoRepeats(qs) {
      ComparablePermuted(RequirementLess, qs, rs);
    }
  }
}
