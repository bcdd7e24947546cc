/**
  Version-1 canonical bytes of a generic value tree: tag/length/value frames, minimal signed
  integers, strict UTF-8 strings, byte-sorted maps and versioned records.

  The encoder is generic in its record schemas. `None` stands for the `ValueError` the encoder
  raises when a payload has more than 2^64-1 bytes or a map repeats a key.
  */
module Canonical {
  import opened Wrappers
  import opened Ordering
  import opened Utf8
  import opened Integers
  import opened Kinds

  datatype Value =
    | Null
    | Boolean(b: bool)
    | Integer(i: int)
    | Text(s: string)
    | List(items: seq<Value>)
    | Dict(keys: seq<string>, values: seq<Value>)
    | Record(kind: Kind, fields: seq<Value>)

  datatype Schema = Schema(wire: Kind -> string, names: Kind -> seq<string>)

  /** Every key has its value, and every record has the fields its schema names. */
  predicate WellFormed(sc: Schema, v: Value) {
    match v
    case List(items) => forall i :: 0 <= i < |items| ==> WellFormed(sc, items[i])
    case Dict(keys, values) =>
      |keys| == |values| && forall i :: 0 <= i < |values| ==> WellFormed(sc, values[i])
    case Record(k, fields) =>
      |sc.names(k)| == |fields| && forall i :: 0 <= i < |fields| ==> WellFormed(sc, fields[i])
    case _ => true
  }

  // ----- Frames

  const MAX_PAYLOAD_LENGTH := 0xFFFF_FFFF_FFFF_FFFF

  function Frame(tag: Byte, payload: Bytes): Option<Bytes> {
    if |payload| > MAX_PAYLOAD_LENGTH then None
    else Some([tag] + BigEndian(|payload|, 8) + payload)
  }

  /** A byte sequence whose header announces exactly the bytes that follow it. */
  ghost predicate IsFrame(b: Bytes) {
    |b| >= 9 && |b| == 9 + FromBytes(b[1..9])
  }

  lemma {:induction false} FrameShape(tag: Byte, payload: Bytes)
    requires Frame(tag, payload).Some?
    ensures var f := Frame(tag, payload).value;
            IsFrame(f) && f[0] == tag && f[9..] == payload
  {
    assert Power256(8) == MAX_PAYLOAD_LENGTH + 1 by {
      assert Power256(4) == 0x1_0000_0000;
      assert Power256(8) == 256 * (256 * (256 * (256 * Power256(4))));
    }
    FromToBytes(|payload|, 8);
    var f := Frame(tag, payload).value;
    assert f[1..9] == BigEndian(|payload|, 8);
  }

  lemma {:induction false} FrameInjective(t: Byte, p: Bytes, u: Byte, q: Bytes)
    requires Frame(t, p).Some? && Frame(t, p) == Frame(u, q)
    ensures t == u && p == q
  {
    FrameShape(t, p);
    FrameShape(u, q);
  }

  /** Frames are self-delimiting: whatever follows, the first frame is determined. */
  lemma {:induction false} FrameSplit(a: Bytes, b: Bytes, r: Bytes, s: Bytes)
    requires IsFrame(a) && IsFrame(b) && a + r == b + s
    ensures a == b && r == s
  {
    assert a[1..9] == (a + r)[1..9] && b[1..9] == (b + s)[1..9];
    assert |a| == |b|;
    assert a == (a + r)[..|a|] && b == (b + s)[..|b|];
    assert r == (a + r)[|a|..] && s == (b + s)[|b|..];
  }

  lemma {:induction false} FrameSplitTwice(k: Bytes, l: Bytes, a: Bytes, b: Bytes, r: Bytes, s: Bytes)
    requires IsFrame(k) && IsFrame(l) && IsFrame(a) && IsFrame(b)
    requires k + a + r == l + b + s
    ensures k == l && a == b && r == s
  {
    assert k + a + r == k + (a + r) && l + b + s == l + (b + s);
    FrameSplit(k, l, a + r, b + s);
    FrameSplit(a, b, r, s);
  }

  function Concat(parts: seq<Bytes>): Bytes {
    if parts == [] then [] else parts[0] + Concat(parts[1..])
  }

  ghost predicate AllFrames(parts: seq<Bytes>) {
    forall i :: 0 <= i < |parts| ==> IsFrame(parts[i])
  }

  lemma {:induction false} ConcatInjective(ps: seq<Bytes>, qs: seq<Bytes>)
    requires AllFrames(ps) && AllFrames(qs) && Concat(ps) == Concat(qs)
    ensures ps == qs
  {
    if ps != [] && qs != [] {
      FrameSplit(ps[0], qs[0], Concat(ps[1..]), Concat(qs[1..]));
      ConcatInjective(ps[1..], qs[1..]);
      assert ps == [ps[0]] + ps[1..] && qs == [qs[0]] + qs[1..];
    }
  }

  // ----- Scalars

  const NULL_TAG: Byte := 0x4E
  const BOOLEAN_TAG: Byte := 0x42
  const INTEGER_TAG: Byte := 0x49
  const TEXT_TAG: Byte := 0x53
  const LIST_TAG: Byte := 0x4C
  const DICT_TAG: Byte := 0x4D
  const RECORD_TAG: Byte := 0x52

  function Magnitude(i: int): nat {
    if i < 0 then -i else i
  }

  /** One sign byte, then the minimal big-endian magnitude. */
  function IntegerPayload(i: int): Option<Bytes> {
    var m := Magnitude(i);
    var bytes :- if m == 0 then Some([]) else ToBytes(m, MagnitudeLength(m));
    Some([if i < 0 then 1 else 0] + bytes)
  }

  function EncodeText(s: string): Option<Bytes> {
    Frame(TEXT_TAG, EncodeString(s))
  }

  /** `to_bytes` never raises here, the sign is single even for zero, and the payload gives the integer back. */
  lemma {:induction false} IntegerPayloadExact(i: int)
    ensures IntegerPayload(i).Some?
    ensures var p := IntegerPayload(i).value;
            |p| >= 1 && i == (if p[0] == 1 then -1 else 1) * FromBytes(p[1..])
            && (p[0] == 1 <==> i < 0) && p[0] <= 1 && (i == 0 <==> |p| == 1)
            && (|p| > 1 ==> p[1] != 0)
  {
    var m := Magnitude(i);
    MagnitudeExact(m);
    var p := IntegerPayload(i).value;
    assert p[1..] == BigEndian(m, MagnitudeLength(m));
  }

  lemma {:induction false} IntegerPayloadInjective(i: int, j: int)
    requires IntegerPayload(i) == IntegerPayload(j)
    ensures i == j
  {
    IntegerPayloadExact(i);
    IntegerPayloadExact(j);
  }

  lemma {:induction false} EncodeTextInjective(s: string, t: string)
    requires EncodeText(s).Some? && EncodeText(s) == EncodeText(t)
    ensures s == t
  {
    FrameInjective(TEXT_TAG, EncodeString(s), TEXT_TAG, EncodeString(t));
    StringInjective(s, t);
  }

  // ----- Maps

  predicate KeyLess<T>(p: (string, T), q: (string, T)) {
    BytesLess(p.0, q.0)
  }

  predicate UniqueKeys<T>(es: seq<(string, T)>) {
    forall i, j :: 0 <= i < j < |es| ==> es[i].0 != es[j].0
  }

  function Zip<T>(keys: seq<string>, xs: seq<T>): (r: seq<(string, T)>)
    requires |keys| == |xs|
    ensures |r| == |xs| && forall i :: 0 <= i < |r| ==> r[i] == (keys[i], xs[i])
  {
    seq(|xs|, i requires 0 <= i < |xs| => (keys[i], xs[i]))
  }

  function EncodePairs(es: seq<(string, Bytes)>): Option<Bytes> {
    if es == [] then Some([])
    else
      var key :- EncodeText(es[0].0);
      var rest :- EncodePairs(es[1..]);
      Some(key + es[0].1 + rest)
  }

  /** A map of already encoded values: entries sorted by the UTF-8 bytes of their keys. */
  function EncodeDict(es: seq<(string, Bytes)>): Option<Bytes> {
    if !UniqueKeys(es) then None
    else
      var payload :- EncodePairs(Sort(KeyLess<Bytes>, es));
      Frame(DICT_TAG, payload)
  }

  lemma {:induction false} KeyLessStrict<T(!new)>()
    ensures StrictOrder(KeyLess<T>)
  {
    BytesLessStrict();
    forall p: (string, T) ensures !KeyLess(p, p) {
    }
    forall p: (string, T), q: (string, T), r: (string, T) | KeyLess(p, q) && KeyLess(q, r)
      ensures KeyLess(p, r)
    {
    }
  }

  lemma {:induction false} UniqueKeysComparable<T>(es: seq<(string, T)>)
    requires UniqueKeys(es)
    ensures Comparable(KeyLess<T>, es)
  {
    forall i, j | 0 <= i < j < |es| ensures KeyLess(es[i], es[j]) || KeyLess(es[j], es[i]) {
      BytesLessTotal(es[i].0, es[j].0);
    }
  }

  lemma {:induction false} PairsInjective(ps: seq<(string, Bytes)>, qs: seq<(string, Bytes)>)
    requires forall i :: 0 <= i < |ps| ==> IsFrame(ps[i].1)
    requires forall i :: 0 <= i < |qs| ==> IsFrame(qs[i].1)
    requires EncodePairs(ps).Some? && EncodePairs(ps) == EncodePairs(qs)
    ensures ps == qs
  {
    if ps != [] && qs != [] {
      PairSplit(ps, qs);
      PairsInjective(ps[1..], qs[1..]);
      assert ps == [ps[0]] + ps[1..] && qs == [qs[0]] + qs[1..];
    } else {
      EmptyPairs(ps);
      EmptyPairs(qs);
    }
  }

  lemma {:induction false} PairSplit(ps: seq<(string, Bytes)>, qs: seq<(string, Bytes)>)
    requires ps != [] && qs != [] && IsFrame(ps[0].1) && IsFrame(qs[0].1)
    requires EncodePairs(ps).Some? && EncodePairs(ps) == EncodePairs(qs)
    ensures ps[0] == qs[0] && EncodePairs(ps[1..]).Some? && EncodePairs(ps[1..]) == EncodePairs(qs[1..])
  {
    var k, l := EncodeText(ps[0].0).value, EncodeText(qs[0].0).value;
    var r, s := EncodePairs(ps[1..]).value, EncodePairs(qs[1..]).value;
    FrameShape(TEXT_TAG, EncodeString(ps[0].0));
    FrameShape(TEXT_TAG, EncodeString(qs[0].0));
    FrameSplitTwice(k, l, ps[0].1, qs[0].1, r, s);
    EncodeTextInjective(ps[0].0, qs[0].0);
  }

  lemma {:induction false} EmptyPairs(ps: seq<(string, Bytes)>)
    requires EncodePairs(ps) == Some([])
    ensures ps == []
  {
    if ps != [] {
      FrameShape(TEXT_TAG, EncodeString(ps[0].0));
    }
  }

  /** Equal map encodings have equal sorted entries. */
  lemma {:induction false} EncodeDictInjective(ps: seq<(string, Bytes)>, qs: seq<(string, Bytes)>)
    requires forall i :: 0 <= i < |ps| ==> IsFrame(ps[i].1)
    requires forall i :: 0 <= i < |qs| ==> IsFrame(qs[i].1)
    requires EncodeDict(ps).Some? && EncodeDict(ps) == EncodeDict(qs)
    ensures UniqueKeys(ps) && UniqueKeys(qs)
    ensures Sort(KeyLess<Bytes>, ps) == Sort(KeyLess<Bytes>, qs)
  {
    var s, t := Sort(KeyLess<Bytes>, ps), Sort(KeyLess<Bytes>, qs);
    FrameInjective(DICT_TAG, EncodePairs(s).value, DICT_TAG, EncodePairs(t).value);
    SortMembers(KeyLess<Bytes>, ps);
    SortMembers(KeyLess<Bytes>, qs);
    forall i | 0 <= i < |s| ensures IsFrame(s[i].1) {
      assert s[i] in s && s[i] in ps;
    }
    forall i | 0 <= i < |t| ensures IsFrame(t[i].1) {
      assert t[i] in t && t[i] in qs;
    }
    PairsInjective(s, t);
  }

  /** The order in which a caller supplies the entries of a map cannot reach the bytes. */
  lemma {:induction false} EncodeDictOrderFree(ps: seq<(string, Bytes)>, qs: seq<(string, Bytes)>)
    requires multiset(ps) == multiset(qs)
    ensures EncodeDict(ps) == EncodeDict(qs)
  {
    if UniqueKeys(ps) {
      UniquePermuted(ps, qs);
      KeyLessStrict<Bytes>();
      UniqueKeysComparable(ps);
      SortPermuted(KeyLess<Bytes>, ps, qs);
    } else if UniqueKeys(qs) {
      UniquePermuted(qs, ps);
    }
  }

  lemma {:induction false} UniquePermuted<T(!new)>(ps: seq<(string, T)>, qs: seq<(string, T)>)
    requires UniqueKeys(ps) && multiset(ps) == multiset(qs)
    ensures UniqueKeys(qs)
  {
    KeyLessStrict<T>();
    UniqueKeysComparable(ps);
    ComparablePermuted(KeyLess<T>, ps, qs);
    forall i, j | 0 <= i < j < |qs| ensures qs[i].0 != qs[j].0 {
      assert KeyLess(qs[i], qs[j]) || KeyLess(qs[j], qs[i]);
      LexIrreflexive(EncodeString(qs[i].0));
    }
  }

  // ----- Values

  function Tag(v: Value): Byte {
    match v
    case Null => NULL_TAG
    case Boolean(_) => BOOLEAN_TAG
    case Integer(_) => INTEGER_TAG
    case Text(_) => TEXT_TAG
    case List(_) => LIST_TAG
    case Dict(_, _) => DICT_TAG
    case Record(_, _) => RECORD_TAG
  }

  function EncodeAll(sc: Schema, vs: seq<Value>): (r: Option<seq<Bytes>>)
    requires forall i :: 0 <= i < |vs| ==> WellFormed(sc, vs[i])
    ensures r.Some? ==>
              && |r.value| == |vs|
              && forall i :: 0 <= i < |vs| ==> Encode(sc, vs[i]) == Some(r.value[i])
    decreases vs, 0
  {
    if vs == [] then Some([])
    else
      var first :- Encode(sc, vs[0]);
      var rest :- EncodeAll(sc, vs[1..]);
      Some([first] + rest)
  }

  function Encode(sc: Schema, v: Value): Option<Bytes>
    requires WellFormed(sc, v)
    decreases v, 0
  {
    match v
    case Null => Frame(NULL_TAG, [])
    case Boolean(b) => Frame(BOOLEAN_TAG, [if b then 1 else 0])
    case Integer(i) =>
      var payload :- IntegerPayload(i);
      Frame(INTEGER_TAG, payload)
    case Text(s) => EncodeText(s)
    case List(items) =>
      var parts :- EncodeAll(sc, items);
      Frame(LIST_TAG, Concat(parts))
    case Dict(keys, values) =>
      var parts :- EncodeAll(sc, values);
      EncodeDict(Zip(keys, parts))
    case Record(k, fields) =>
      var parts :- EncodeAll(sc, fields);
      var wire :- EncodeText(sc.wire(k));
      var dict :- EncodeDict(Zip(sc.names(k), parts));
      Frame(RECORD_TAG, wire + dict)
  }

  /** The tree with the entries of every map in canonical order: what a value means. */
  function Normalize(v: Value): Value
    decreases v
  {
    match v
    case List(items) => List(NormalizeAll(items))
    case Dict(keys, values) =>
      if |keys| != |values| then v
      else
        var sorted := Sort(KeyLess<Value>, Zip(keys, NormalizeAll(values)));
        Dict(Map(FirstOf, sorted), Map(SecondOf, sorted))
    case Record(k, fields) => Record(k, NormalizeAll(fields))
    case _ => v
  }

  function NormalizeAll(vs: seq<Value>): (r: seq<Value>)
    ensures |r| == |vs| && forall i :: 0 <= i < |vs| ==> r[i] == Normalize(vs[i])
    decreases vs
  {
    if vs == [] then [] else [Normalize(vs[0])] + NormalizeAll(vs[1..])
  }

  function FirstOf(p: (string, Value)): string { p.0 }

  function SecondOf(p: (string, Value)): Value { p.1 }
}
