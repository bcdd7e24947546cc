/**
  Strict UTF-8 as a set of byte sequences, from the table in section 4 of RFC 3629, and that
  encoding strings gives exactly these sequences, each from one string (canonical.py:115-116).
  */
module StrictUtf8 {
  import opened Utf8

  /** The length of the well-formed character a byte sequence starts with; zero if there is none. */
  function LeadingCharacter(b: Bytes): (n: nat)
    ensures n <= |b| && n <= 4
  {
    if b == [] then 0
    else if b[0] <= 0x7F then 1
    else if |b| >= 2 && 0xC2 <= b[0] <= 0xDF && Continuation(b[1]) then 2
    else if |b| >= 3 && SecondOfThree(b[0], b[1]) && Continuation(b[2]) then 3
    else if |b| >= 4 && SecondOfFour(b[0], b[1]) && Continuation(b[2]) && Continuation(b[3]) then 4
    else 0
  }

  /** The second bytes allowed after each lead of three: nothing overlong, no surrogate. */
  predicate SecondOfThree(lead: Byte, second: Byte) {
    || (lead == 0xE0 && 0xA0 <= second <= 0xBF)
    || (0xE1 <= lead <= 0xEC && 0x80 <= second <= 0xBF)
    || (lead == 0xED && 0x80 <= second <= 0x9F)
    || (0xEE <= lead <= 0xEF && 0x80 <= second <= 0xBF)
  }

  /** The second bytes allowed after each lead of four: nothing overlong, nothing above U+10FFFF. */
  predicate SecondOfFour(lead: Byte, second: Byte) {
    || (lead == 0xF0 && 0x90 <= second <= 0xBF)
    || (0xF1 <= lead <= 0xF3 && 0x80 <= second <= 0xBF)
    || (lead == 0xF4 && 0x80 <= second <= 0x8F)
  }

  predicate Strict(b: Bytes)
    decreases |b|
  {
    b == [] || (LeadingCharacter(b) > 0 && Strict(b[LeadingCharacter(b)..]))
  }

  // ----- What is encoded is strict, and as short as it can be

  lemma {:induction false} LengthExact(c: char)
    ensures |EncodeChar(c)| == 1 <==> c as int < 0x80
    ensures |EncodeChar(c)| == 2 <==> 0x80 <= c as int < 0x800
    ensures |EncodeChar(c)| == 3 <==> 0x800 <= c as int < 0x10000
    ensures |EncodeChar(c)| == 4 <==> 0x10000 <= c as int
  {
  }

  lemma {:induction false} CharacterIsStrict(c: char, rest: Bytes)
    ensures LeadingCharacter(EncodeChar(c) + rest) == |EncodeChar(c)|
  {
    var x := EncodeChar(c);
    var b := x + rest;
    assert forall i :: 0 <= i < |x| ==> b[i] == x[i];
    CharContinuations(c);
    LengthExact(c);
    LeadRanges(c);
  }

  lemma {:induction false} LeadRanges(c: char)
    ensures var x := EncodeChar(c);
            && (|x| == 1 ==> x[0] <= 0x7F)
            && (|x| == 2 ==> 0xC2 <= x[0] <= 0xDF)
            && (|x| == 3 ==> SecondOfThree(x[0], x[1]))
            && (|x| == 4 ==> SecondOfFour(x[0], x[1]))
  {
  }

  lemma {:induction false} EncodedIsStrict(s: string)
    ensures Strict(EncodeString(s))
  {
    if s != [] {
      var rest := EncodeString(s[1..]);
      EncodedIsStrict(s[1..]);
      CharacterIsStrict(s[0], rest);
      assert EncodeString(s)[|EncodeChar(s[0])|..] == rest;
    }
  }

  /** Text of one-byte characters is encoded as their numbers. */
  lemma {:induction false} AsciiEncoded(s: string)
    requires forall i :: 0 <= i < |s| ==> s[i] as int < 0x80
    ensures |EncodeString(s)| == |s| && forall i :: 0 <= i < |s| ==> EncodeString(s)[i] == s[i] as int
  {
    if s != [] {
      AsciiEncoded(s[1..]);
    }
  }

  // ----- What is strict is encoded

  /** The character a well-formed sequence starts with. */
  function DecodeCharacter(b: Bytes): char
    requires LeadingCharacter(b) > 0
  {
    LeadingIsScalar(b);
    CharValue(b[..LeadingCharacter(b)]) as char
  }

  lemma {:induction false} LeadingIsScalar(b: Bytes)
    requires LeadingCharacter(b) > 0
    ensures var v := CharValue(b[..LeadingCharacter(b)]); 0 <= v < 0xD800 || 0xE000 <= v < 0x11_0000
  {
  }

  lemma {:induction false} TwoDecoded(c: char, a: int, b: int)
    requires 2 <= a < 0x20 && 0 <= b < 0x40 && c as int == a * 0x40 + b
    ensures EncodeChar(c) == [0xC0 + a, 0x80 + b]
  {
  }

  lemma {:induction false} ThreeDecoded(c: char, a: int, b: int, d: int)
    requires 0 <= a < 0x10 && 0 <= b < 0x40 && 0 <= d < 0x40 && c as int == a * 0x1000 + b * 0x40 + d >= 0x800
    ensures EncodeChar(c) == [0xE0 + a, 0x80 + b, 0x80 + d]
  {
    var v := c as int;
    DigitsOf64(v);
    assert v / 0x40 == a * 0x40 + b;
  }

  lemma {:induction false} FourDecoded(c: char, a: int, b: int, d: int, e: int)
    requires 0 <= a < 8 && 0 <= b < 0x40 && 0 <= d < 0x40 && 0 <= e < 0x40
    requires c as int == a * 0x40000 + b * 0x1000 + d * 0x40 + e >= 0x10000
    ensures EncodeChar(c) == [0xF0 + a, 0x80 + b, 0x80 + d, 0x80 + e]
  {
    var v := c as int;
    DigitsOf64(v);
    DigitsOf64(v / 0x40);
    assert v / 0x40 == a * 0x1000 + b * 0x40 + d;
    assert v / 0x1000 == a * 0x40 + b;
  }

  lemma {:induction false} CharacterDecoded(b: Bytes)
    requires LeadingCharacter(b) > 0
    ensures EncodeChar(DecodeCharacter(b)) == b[..LeadingCharacter(b)]
  {
    var n, c := LeadingCharacter(b), DecodeCharacter(b);
    LeadingIsScalar(b);
    var x: seq<int> := b[..n];
    if n == 2 {
      TwoDecoded(c, x[0] - 0xC0, x[1] - 0x80);
    } else if n == 3 {
      ThreeDecoded(c, x[0] - 0xE0, x[1] - 0x80, x[2] - 0x80);
    } else if n == 4 {
      FourDecoded(c, x[0] - 0xF0, x[1] - 0x80, x[2] - 0x80, x[3] - 0x80);
    }
  }

  function DecodeString(b: Bytes): string
    requires Strict(b)
    decreases |b|
  {
    if b == [] then "" else [DecodeCharacter(b)] + DecodeString(b[LeadingCharacter(b)..])
  }

  lemma {:induction false} EncodeFirst(c: char, s: string)
    ensures EncodeString([c] + s) == EncodeChar(c) + EncodeString(s)
  {
    hide EncodeChar;
    assert ([c] + s)[1..] == s;
  }

  lemma {:induction false} StrictFirst(b: Bytes)
    requires Strict(b) && b != []
    ensures LeadingCharacter(b) > 0 && Strict(b[LeadingCharacter(b)..])
    ensures DecodeString(b) == [DecodeCharacter(b)] + DecodeString(b[LeadingCharacter(b)..])
  {
    hide LeadingCharacter, DecodeCharacter;
  }

  lemma {:induction false} StringDecoded(b: Bytes)
    requires Strict(b)
    ensures EncodeString(DecodeString(b)) == b
    decreases |b|
  {
    if b != [] {
      StrictFirst(b);
      hide LeadingCharacter, DecodeCharacter, EncodeChar, EncodeString, Strict, DecodeString;
      var n := LeadingCharacter(b);
      CharacterDecoded(b);
      StringDecoded(b[n..]);
      EncodeFirst(DecodeCharacter(b), DecodeString(b[n..]));
      assert b == b[..n] + b[n..];
    }
  }

  /** A byte sequence is strict UTF-8 exactly when some string encodes to it, and then it is one string only. */
  lemma {:induction false} StrictExactly(b: Bytes)
    ensures Strict(b) <==> exists s :: EncodeString(s) == b
    ensures forall s, t :: EncodeString(s) == b && EncodeString(t) == b ==> s == t
  {
    if Strict(b) {
      StringDecoded(b);
    }
    if s :| EncodeString(s) == b {
      EncodedIsStrict(s);
    }
    forall s, t | EncodeString(s) == b && EncodeString(t) == b ensures s == t {
      StringInjective(s, t);
    }
  }
}
