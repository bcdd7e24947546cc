/** The lower-case hexadecimal text of a digest, and reading it back (domain.py:380-420). */
module Hexadecimal {
  import opened Wrappers
  import opened Utf8
  import opened Domain

  function HexDigit(n: nat): char
    requires n < 16
  {
    if n < 10 then '0' + n as char else 'a' + (n - 10) as char
  }

  function Hex(b: Bytes): string {
    if b == [] then "" else [HexDigit(b[0] / 16), HexDigit(b[0] % 16)] + Hex(b[1..])
  }

  function DigitValue(c: char): (r: Option<nat>)
    ensures r.Some? ==> r.value < 16 && HexDigit(r.value) == c
  {
    if '0' <= c <= '9' then Some((c - '0') as int)
    else if 'a' <= c <= 'f' then Some((c - 'a') as int + 10)
    else None
  }

  function Unhex(s: string): Option<Bytes> {
    if s == [] then Some([])
    else if |s| == 1 then None
    else
      var high :- DigitValue(s[0]);
      var low :- DigitValue(s[1]);
      var rest :- Unhex(s[2..]);
      Some([16 * high + low] + rest)
  }

  /** `Sha256Digest.from_hex`. */
  function FromHex(s: string): Option<Digest> {
    if |s| != 64 then None
    else
      var b :- Unhex(s);
      if |b| == 32 then Some(b) else None
  }

  lemma {:induction false} HexUnhexed(b: Bytes)
    ensures |Hex(b)| == 2 * |b| && Unhex(Hex(b)) == Some(b)
  {
    if b != [] {
      HexUnhexed(b[1..]);
      var s := Hex(b);
      assert s[2..] == Hex(b[1..]);
      assert DigitValue(s[0]) == Some(b[0] / 16) && DigitValue(s[1]) == Some(b[0] % 16);
      assert b == [b[0]] + b[1..];
    }
  }

  lemma {:induction false} UnhexHexed(s: string)
    requires Unhex(s).Some?
    ensures Hex(Unhex(s).value) == s
  {
    if s != [] {
      UnhexHexed(s[2..]);
      var b := Unhex(s).value;
      assert b[1..] == Unhex(s[2..]).value;
      assert s == [s[0], s[1]] + s[2..];
    }
  }

  /** A text is read as a digest exactly when it is that digest's text. */
  lemma {:induction false} HexRoundTrip(d: Digest, s: string)
    ensures FromHex(s) == Some(d) <==> s == Hex(d)
  {
    HexUnhexed(d);
    if FromHex(s) == Some(d) {
      UnhexHexed(s);
    }
  }

  lemma {:induction false} HexPlain(b: Bytes)
    ensures forall i :: 0 <= i < |Hex(b)| ==> Hex(b)[i] != '\0'
  {
    if b != [] {
      HexPlain(b[1..]);
    }
  }

  lemma {:induction false} HexInjective(a: Bytes, b: Bytes)
    requires Hex(a) == Hex(b)
    ensures a == b
  {
    HexUnhexed(a);
    HexUnhexed(b);
  }
}
