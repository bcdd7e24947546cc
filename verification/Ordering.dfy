/**
  Lexicographic order on number sequences, and sorting by a comparison.

  Every collection the program declares to be order-independent is sorted by one of these
  comparisons before it is stored, so the results about `Sort` carry all of its claims
  that a collection's order has no meaning.
  */
module Ordering {

  /** Strict lexicographic order; a proper prefix comes first. */
  predicate LexLess(a: seq<int>, b: seq<int>)
  {
    b != [] && (a == [] || a[0] < b[0] || (a[0] == b[0] && LexLess(a[1..], b[1..])))
  }

  lemma {:induction false} LexIrreflexive(a: seq<int>)
    ensures !LexLess(a, a)
  {
    if a != [] {
      LexIrreflexive(a[1..]);
    }
  }

  lemma {:induction false} LexTransitive(a: seq<int>, b: seq<int>, c: seq<int>)
    requires LexLess(a, b) && LexLess(b, c)
    ensures LexLess(a, c)
  {
    if a != [] && a[0] == b[0] && b[0] == c[0] {
      LexTransitive(a[1..], b[1..], c[1..]);
    }
  }

  lemma {:induction false} LexTotal(a: seq<int>, b: seq<int>)
    ensures a == b || LexLess(a, b) || LexLess(b, a)
  {
    if a != [] && b != [] && a[0] == b[0] {
      LexTotal(a[1..], b[1..]);
      assert a == [a[0]] + a[1..] && b == [b[0]] + b[1..];
    }
  }

  /** What sorting needs of a comparison. Distinct items may still be unordered. */
  ghost predicate StrictOrder<T(!new)>(lt: (T, T) -> bool) {
    && (forall x :: !lt(x, x))
    && (forall x, y, z :: lt(x, y) && lt(y, z) ==> lt(x, z))
  }

  lemma {:induction false} StrictAsymmetric<T(!new)>(lt: (T, T) -> bool, x: T, y: T)
    requires StrictOrder(lt) && lt(x, y)
    ensures !lt(y, x)
  {
    assert lt(y, x) ==> lt(x, x);
  }

  ghost predicate Ascending<T>(lt: (T, T) -> bool, s: seq<T>) {
    forall i, j :: 0 <= i < j < |s| ==> lt(s[i], s[j])
  }

  /** Items at different positions are always ordered one way or the other. */
  ghost predicate Comparable<T>(lt: (T, T) -> bool, s: seq<T>) {
    forall i, j :: 0 <= i < j < |s| ==> lt(s[i], s[j]) || lt(s[j], s[i])
  }

  function Insert<T>(lt: (T, T) -> bool, x: T, s: seq<T>): (r: seq<T>)
    ensures multiset(r) == multiset([x]) + multiset(s)
  {
    if s == [] || !lt(s[0], x) then [x] + s
    else
      assert s == [s[0]] + s[1..];
      [s[0]] + Insert(lt, x, s[1..])
  }

  /** A stable sort: insertion from the back. */
  function Sort<T>(lt: (T, T) -> bool, s: seq<T>): (r: seq<T>)
    ensures multiset(r) == multiset(s)
    ensures |r| == |s|
  {
    if s == [] then []
    else
      assert s == [s[0]] + s[1..];
      var r := Insert(lt, s[0], Sort(lt, s[1..]));
      assert |r| == |multiset(r)| && |s| == |multiset(s)|;
      r
  }

  lemma {:induction false} SameMembers<T(!new)>(s: seq<T>, t: seq<T>)
    requires multiset(s) == multiset(t)
    ensures forall x :: x in s <==> x in t
  {
    forall x ensures x in s <==> x in t {
      assert x in s <==> x in multiset(s);
      assert x in t <==> x in multiset(t);
    }
  }

  lemma {:induction false} SortMembers<T(!new)>(lt: (T, T) -> bool, s: seq<T>)
    ensures forall x :: x in Sort(lt, s) <==> x in s
  {
    SameMembers(Sort(lt, s), s);
  }

  lemma {:induction false} InsertAscending<T(!new)>(lt: (T, T) -> bool, x: T, s: seq<T>)
    requires StrictOrder(lt) && Ascending(lt, s)
    requires forall y :: y in s ==> lt(x, y) || lt(y, x)
    ensures Ascending(lt, Insert(lt, x, s))
  {
    if s == [] {
    } else if !lt(s[0], x) {
      assert s[0] in s;
      forall y | y in s ensures lt(x, y) {
      }
    } else {
      var r := Insert(lt, x, s[1..]);
      InsertAscending(lt, x, s[1..]);
      assert multiset(r) == multiset([x] + s[1..]);
      SameMembers(r, [x] + s[1..]);
      forall y | y in r ensures lt(s[0], y) {
      }
    }
  }

  lemma {:induction false} SortAscending<T(!new)>(lt: (T, T) -> bool, s: seq<T>)
    requires StrictOrder(lt) && Comparable(lt, s)
    ensures Ascending(lt, Sort(lt, s))
  {
    if s != [] {
      SortAscending(lt, s[1..]);
      SortMembers(lt, s[1..]);
      forall y | y in Sort(lt, s[1..]) ensures lt(s[0], y) || lt(y, s[0]) {
        assert y in s[1..];
        var k :| 0 <= k < |s[1..]| && s[1..][k] == y;
        assert s[k + 1] == y;
      }
      InsertAscending(lt, s[0], Sort(lt, s[1..]));
    }
  }

  /** Sorting an ascending sequence changes nothing. */
  lemma {:induction false} SortFixed<T>(lt: (T, T) -> bool, s: seq<T>)
    requires Ascending(lt, s)
    requires forall i, j :: 0 <= i < j < |s| ==> !lt(s[j], s[i])
    ensures Sort(lt, s) == s
  {
    if s != [] {
      SortFixed(lt, s[1..]);
      assert s == [s[0]] + s[1..];
      assert |s| > 1 ==> !lt(s[1], s[0]);
    }
  }

  /** Two ascending sequences with the same members are the same sequence. */
  lemma {:induction false} AscendingUnique<T(!new)>(lt: (T, T) -> bool, s: seq<T>, t: seq<T>)
    requires StrictOrder(lt) && Ascending(lt, s) && Ascending(lt, t)
    requires forall x :: x in s <==> x in t
    ensures s == t
  {
    if t != [] {
      assert t[0] in t && t[0] in s;
    }
    if s != [] {
      assert s[0] in s && s[0] in t;
      assert t[0] in t && t[0] in s;
      assert s[0] == t[0];
      forall x ensures x in s[1..] <==> x in t[1..] {
        if x in s[1..] {
          assert lt(s[0], x) && x in s;
        }
        if x in t[1..] {
          assert lt(t[0], x) && x in t;
        }
      }
      AscendingUnique(lt, s[1..], t[1..]);
      assert s == [s[0]] + s[1..] && t == [t[0]] + t[1..];
    }
  }

  lemma {:induction false} ComparablePermuted<T(!new)>(lt: (T, T) -> bool, s: seq<T>, t: seq<T>)
    requires StrictOrder(lt) && Comparable(lt, s) && multiset(s) == multiset(t)
    ensures Comparable(lt, t)
  {
    SortAscending(lt, s);
    forall i, j | 0 <= i < j < |t| ensures lt(t[i], t[j]) || lt(t[j], t[i]) {
      TwoPositions(lt, s, t, i, j);
    }
  }

  /** An item held at two positions of `t` is held at two positions of any permutation of `t`. */
  lemma {:induction false} TwiceInT<T>(s: seq<T>, t: seq<T>, i: nat, j: nat, a: nat)
    requires multiset(s) == multiset(t)
    requires i < j < |t| && t[i] == t[j] && a < |s| && s[a] == t[i]
    ensures exists c :: 0 <= c < |s| && c != a && s[c] == s[a]
  {
    assert t == t[..j] + [t[j]] + t[j + 1..];
    assert t[i] in t[..j];
    assert multiset(t)[t[i]] >= 2;
    assert s == s[..a] + [s[a]] + s[a + 1..];
    assert multiset(s[..a] + s[a + 1..])[s[a]] >= 1;
    assert s[a] in s[..a] + s[a + 1..];
    var k :| 0 <= k < |s| - 1 && (s[..a] + s[a + 1..])[k] == s[a];
    assert s[if k < a then k else k + 1] == s[a];
  }

  lemma {:induction false} TwoPositions<T(!new)>(lt: (T, T) -> bool, s: seq<T>, t: seq<T>, i: nat, j: nat)
    requires StrictOrder(lt) && Comparable(lt, s) && multiset(s) == multiset(t)
    requires i < j < |t|
    ensures lt(t[i], t[j]) || lt(t[j], t[i])
  {
    SameMembers(s, t);
    assert t[i] in t && t[j] in t;
    var a :| 0 <= a < |s| && s[a] == t[i];
    var b :| 0 <= b < |s| && s[b] == t[j];
    if a == b {
      TwiceInT(s, t, i, j, a);
      assert false;
    }
  }

  /** The order of the input has no influence on the sorted result. */
  lemma {:induction false} SortPermuted<T(!new)>(lt: (T, T) -> bool, s: seq<T>, t: seq<T>)
    requires StrictOrder(lt) && Comparable(lt, s) && multiset(s) == multiset(t)
    ensures Sort(lt, s) == Sort(lt, t)
  {
    ComparablePermuted(lt, s, t);
    SortAscending(lt, s);
    SortAscending(lt, t);
    SameMembers(Sort(lt, s), Sort(lt, t));
    AscendingUnique(lt, Sort(lt, s), Sort(lt, t));
  }

  function Map<T, U>(f: T -> U, s: seq<T>): (r: seq<U>)
    ensures |r| == |s| && forall i :: 0 <= i < |s| ==> r[i] == f(s[i])
  {
    seq(|s|, i requires 0 <= i < |s| => f(s[i]))
  }

  lemma {:induction false} InsertMap<T(!new), U(!new)>(
    lt: (T, T) -> bool, lu: (U, U) -> bool, f: T -> U, x: T, s: seq<T>)
    requires forall a, b :: lt(a, b) == lu(f(a), f(b))
    ensures Insert(lu, f(x), Map(f, s)) == Map(f, Insert(lt, x, s))
  {
    if s == [] || !lt(s[0], x) {
      assert [f(x)] + Map(f, s) == Map(f, [x] + s);
    } else {
      InsertMap(lt, lu, f, x, s[1..]);
      assert Map(f, s)[1..] == Map(f, s[1..]);
      assert [f(s[0])] + Map(f, Insert(lt, x, s[1..])) == Map(f, [s[0]] + Insert(lt, x, s[1..]));
    }
  }

  /** Sorting commutes with any mapping that keeps the sort key. */
  lemma {:induction false} SortMap<T(!new), U(!new)>(
    lt: (T, T) -> bool, lu: (U, U) -> bool, f: T -> U, s: seq<T>)
    requires forall a, b :: lt(a, b) == lu(f(a), f(b))
    ensures Sort(lu, Map(f, s)) == Map(f, Sort(lt, s))
  {
    if s != [] {
      SortMap(lt, lu, f, s[1..]);
      assert Map(f, s)[1..] == Map(f, s[1..]);
      InsertMap(lt, lu, f, s[0], Sort(lt, s[1..]));
    }
  }
}
