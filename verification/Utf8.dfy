/**
  Strict UTF-8 (sections 3 and 4 of RFC 3629) over Unicode scalar values, which is what
  Dafny's `char` is, and the blankness test the constructors apply to identifiers.
  */
module Utf8 {
  import opened Ordering

  type Byte = b: int | 0 <= b < 256
  type Bytes = seq<Byte>

  function EncodeChar(c: char): (r: Bytes)
    ensures 1 <= |r| <= 4
  {
    var v := c as int;
    if v < 0x80 then [v]
    else if v < 0x800 then [0xC0 + v / 0x40, 0x80 + v % 0x40]
    else if v < 0x10000 then [0xE0 + v / 0x1000, 0x80 + v / 0x40 % 0x40, 0x80 + v % 0x40]
    else [0xF0 + v / 0x40000, 0x80 + v / 0x1000 % 0x40, 0x80 + v / 0x40 % 0x40, 0x80 + v % 0x40]
  }

  function EncodeString(s: string): Bytes {
    if s == [] then [] else EncodeChar(s[0]) + EncodeString(s[1..])
  }

  /** The length announced by a leading byte. */
  function CharLength(b: Byte): nat {
    if b < 0x80 then 1 else if b < 0xE0 then 2 else if b < 0xF0 then 3 else 4
  }

  /** The number carried by one encoded character: the partner of `EncodeChar`. */
  function CharValue(b: seq<int>): int
    requires 1 <= |b| <= 4
  {
    if |b| == 1 then b[0]
    else if |b| == 2 then (b[0] - 0xC0) * 0x40 + (b[1] - 0x80)
    else if |b| == 3 then (b[0] - 0xE0) * 0x1000 + (b[1] - 0x80) * 0x40 + (b[2] - 0x80)
    else (b[0] - 0xF0) * 0x40000 + (b[1] - 0x80) * 0x1000 + (b[2] - 0x80) * 0x40 + (b[3] - 0x80)
  }

  lemma {:induction false} DigitsOf64(v: int)
    requires 0 <= v
    ensures v == v / 0x40 * 0x40 + v % 0x40
    ensures v / 0x1000 == v / 0x40 / 0x40 && v / 0x40000 == v / 0x1000 / 0x40
  {
  }

  lemma {:induction false} CharRoundTrip(c: char)
    ensures |EncodeChar(c)| == CharLength(EncodeChar(c)[0])
    ensures CharValue(EncodeChar(c)) == c as int
  {
    var v := c as int;
    if v < 0x80 {
    } else if v < 0x800 {
      assert EncodeChar(c) == [0xC0 + v / 0x40, 0x80 + v % 0x40];
    } else if v < 0x10000 {
      DigitsOf64(v);
      DigitsOf64(v / 0x40);
      assert EncodeChar(c) == [0xE0 + v / 0x1000, 0x80 + v / 0x40 % 0x40, 0x80 + v % 0x40];
    } else {
      DigitsOf64(v);
      DigitsOf64(v / 0x40);
      DigitsOf64(v / 0x1000);
      assert EncodeChar(c)
          == [0xF0 + v / 0x40000, 0x80 + v / 0x1000 % 0x40, 0x80 + v / 0x40 % 0x40, 0x80 + v % 0x40];
    }
  }

  lemma {:induction false} CharInjective(c: char, d: char)
    requires EncodeChar(c) == EncodeChar(d)
    ensures c == d
  {
    CharRoundTrip(c);
    CharRoundTrip(d);
  }

  /** No encoded character is a proper prefix of another. */
  lemma {:induction false} CharSplit(c: char, d: char, r: Bytes, s: Bytes)
    requires EncodeChar(c) + r == EncodeChar(d) + s
    ensures c == d && r == s
  {
    CharRoundTrip(c);
    CharRoundTrip(d);
    var x, y := EncodeChar(c), EncodeChar(d);
    assert x[0] == (x + r)[0] && y[0] == (y + s)[0];
    assert x == (x + r)[..|x|] && y == (y + s)[..|y|];
    assert r == (x + r)[|x|..] && s == (y + s)[|y|..];
    CharInjective(c, d);
  }

  lemma {:induction false} StringInjective(s: string, t: string)
    requires EncodeString(s) == EncodeString(t)
    ensures s == t
  {
    if s != [] && t != [] {
      CharSplit(s[0], t[0], EncodeString(s[1..]), EncodeString(t[1..]));
      StringInjective(s[1..], t[1..]);
      assert s == [s[0]] + s[1..] && t == [t[0]] + t[1..];
    }
  }

  // ----- The order of strings and the order of their bytes

  function CodePoints(s: string): (r: seq<int>)
    ensures |r| == |s| && forall i :: 0 <= i < |s| ==> r[i] == s[i] as int
  {
    seq(|s|, i requires 0 <= i < |s| => s[i] as int)
  }

  /** Python's `<` on strings. */
  predicate StringLess(s: string, t: string) {
    LexLess(CodePoints(s), CodePoints(t))
  }

  /** Python's `<` on the strict UTF-8 encodings. */
  predicate BytesLess(s: string, t: string) {
    LexLess(EncodeString(s), EncodeString(t))
  }

  /** The sequences agree before position `k`, where `a` has the smaller number. */
  ghost predicate DecidedAt(a: seq<int>, b: seq<int>, k: nat) {
    k < |a| && k < |b| && a[..k] == b[..k] && a[k] < b[k]
  }

  predicate Continuation(b: int) {
    0x80 <= b < 0xC0
  }

  lemma {:induction false} CharContinuations(c: char)
    ensures forall i :: 1 <= i < |EncodeChar(c)| ==> Continuation(EncodeChar(c)[i])
  {
  }

  lemma {:induction false} SameLengthOrder(x: seq<int>, y: seq<int>)
    requires 1 <= |x| == |y| <= 4 && x[0] <= y[0]
    requires forall i :: 1 <= i < |x| ==> Continuation(x[i]) && Continuation(y[i])
    requires CharValue(x) < CharValue(y)
    ensures exists k: nat :: DecidedAt(x, y, k)
  {
    if x[0] < y[0] {
      assert DecidedAt(x, y, 0);
    } else if x[1] < y[1] {
      assert DecidedAt(x, y, 1);
    } else if |x| >= 3 && x[1] == y[1] && x[2] < y[2] {
      assert DecidedAt(x, y, 2);
    } else {
      assert |x| == 4;
      assert DecidedAt(x, y, 3);
    }
  }

  /** Where two characters differ, the first differing byte already decides. */
  lemma {:induction false} CharOrder(c: char, d: char)
    requires c < d
    ensures exists k: nat :: DecidedAt(EncodeChar(c), EncodeChar(d), k)
  {
    var x, y := EncodeChar(c), EncodeChar(d);
    CharRoundTrip(c);
    CharRoundTrip(d);
    LeadingByteMonotone(c, d);
    if x[0] < y[0] {
      assert DecidedAt(x, y, 0);
    } else {
      CharContinuations(c);
      CharContinuations(d);
      SameLengthOrder(x, y);
    }
  }

  lemma {:induction false} LeadingByteMonotone(c: char, d: char)
    requires c < d
    ensures EncodeChar(c)[0] <= EncodeChar(d)[0]
  {
  }

  lemma {:induction false} LexDecided(a: seq<int>, b: seq<int>, k: nat)
    requires DecidedAt(a, b, k)
    ensures LexLess(a, b)
  {
    if k > 0 {
      assert a[0] == a[..k][0] == b[..k][0] == b[0];
      assert a[1..][..k - 1] == a[..k][1..] && b[1..][..k - 1] == b[..k][1..];
      LexDecided(a[1..], b[1..], k - 1);
    }
  }

  lemma {:induction false} LexSamePrefix(p: seq<int>, a: seq<int>, b: seq<int>)
    ensures LexLess(p + a, p + b) <==> LexLess(a, b)
  {
    if p == [] {
      assert p + a == a && p + b == b;
    } else {
      assert (p + a)[1..] == p[1..] + a && (p + b)[1..] == p[1..] + b;
      LexSamePrefix(p[1..], a, b);
    }
  }

  lemma {:induction false} SmallerHead(c: char, d: char, r: Bytes, s: Bytes)
    requires c < d
    ensures LexLess(EncodeChar(c) + r, EncodeChar(d) + s)
  {
    CharOrder(c, d);
    var x, y := EncodeChar(c), EncodeChar(d);
    var k: nat :| DecidedAt(x, y, k);
    assert (x + r)[..k] == x[..k] && (y + s)[..k] == y[..k];
    LexDecided(x + r, y + s, k);
  }

  /** The constructors sort some collections by string and some by encoded bytes: one order. */
  lemma {:induction false} StringOrderIsByteOrder(s: string, t: string)
    ensures StringLess(s, t) <==> BytesLess(s, t)
  {
    if s != [] && t != [] {
      var r, q := EncodeString(s[1..]), EncodeString(t[1..]);
      assert CodePoints(s)[1..] == CodePoints(s[1..]) && CodePoints(t)[1..] == CodePoints(t[1..]);
      if s[0] == t[0] {
        LexSamePrefix(EncodeChar(s[0]), r, q);
        StringOrderIsByteOrder(s[1..], t[1..]);
      } else if s[0] < t[0] {
        SmallerHead(s[0], t[0], r, q);
      } else {
        SmallerHead(t[0], s[0], q, r);
        LexAsymmetric(EncodeString(t), EncodeString(s));
      }
    }
  }

  lemma {:induction false} LexAsymmetric(a: seq<int>, b: seq<int>)
    requires LexLess(a, b)
    ensures !LexLess(b, a)
  {
    if LexLess(b, a) {
      LexTransitive(a, b, a);
      LexIrreflexive(a);
    }
  }

  lemma {:induction false} BytesLessStrict()
    ensures StrictOrder(BytesLess)
  {
    forall s ensures !BytesLess(s, s) {
      LexIrreflexive(EncodeString(s));
    }
    forall s, t, u | BytesLess(s, t) && BytesLess(t, u) ensures BytesLess(s, u) {
      LexTransitive(EncodeString(s), EncodeString(t), EncodeString(u));
    }
  }

  lemma {:induction false} BytesLessTotal(s: string, t: string)
    ensures s == t || BytesLess(s, t) || BytesLess(t, s)
  {
    LexTotal(EncodeString(s), EncodeString(t));
    if EncodeString(s) == EncodeString(t) {
      StringInjective(s, t);
    }
  }

  // ----- Blank identifiers

  /** Python's `str.isspace`, which is what `strip` removes. */
  predicate Whitespace(c: char) {
    var v := c as int;
    || 0x09 <= v <= 0x0D || 0x1C <= v <= 0x20 || v == 0x85 || v == 0xA0 || v == 0x1680
    || 0x2000 <= v <= 0x200A || v == 0x2028 || v == 0x2029 || v == 0x202F || v == 0x205F || v == 0x3000
  }

  predicate Blank(s: string) {
    forall i :: 0 <= i < |s| ==> Whitespace(s[i])
  }
}
