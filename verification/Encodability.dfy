/**
  Which values have canonical bytes, and how many: the only payloads refused are those longer than
  their length field can say (canonical.py:107-174).
  */
module Encodability {
  import opened Ordering
  import opened Utf8
  import opened Integers
  import opened Kinds
  import opened FieldNaming
  import opened Canonical
  import opened CanonicalTheorems
  import opened Domain
  import opened Schemas

  // ----- Sizes, without encoding anything

  function TextSize(s: string): nat { 9 + |EncodeString(s)| }

  function KeysSize(keys: seq<string>): nat {
    if keys == [] then 0 else TextSize(keys[0]) + KeysSize(keys[1..])
  }

  /** The length of the payload a value needs, were length fields unbounded. */
  function PayloadSize(sc: Schema, v: Value): nat
    requires WellFormed(sc, v)
    decreases v, 0
  {
    match v
    case Null => 0
    case Boolean(_) => 1
    case Integer(i) => 1 + MagnitudeLength(Magnitude(i))
    case Text(s) => |EncodeString(s)|
    case List(items) => SizeAll(sc, items)
    case Dict(keys, values) => KeysSize(keys) + SizeAll(sc, values)
    case Record(k, fields) => TextSize(sc.wire(k)) + 9 + KeysSize(sc.names(k)) + SizeAll(sc, fields)
  }

  /** The frames of several values: nine bytes of header each. */
  function SizeAll(sc: Schema, vs: seq<Value>): nat
    requires forall i :: 0 <= i < |vs| ==> WellFormed(sc, vs[i])
    decreases vs, 0
  {
    if vs == [] then 0 else 9 + PayloadSize(sc, vs[0]) + SizeAll(sc, vs[1..])
  }

  /** No map repeats a key, and no schema in use repeats a field. */
  predicate Unambiguous(sc: Schema, v: Value) {
    match v
    case List(items) => forall i :: 0 <= i < |items| ==> Unambiguous(sc, items[i])
    case Dict(keys, values) => DistinctNames(keys) && forall i :: 0 <= i < |values| ==> Unambiguous(sc, values[i])
    case Record(k, fields) => DistinctNames(sc.names(k)) && forall i :: 0 <= i < |fields| ==> Unambiguous(sc, fields[i])
    case _ => true
  }

  lemma {:induction false} PartBelow(sc: Schema, vs: seq<Value>, i: nat)
    requires forall k :: 0 <= k < |vs| ==> WellFormed(sc, vs[k])
    requires i < |vs|
    ensures PayloadSize(sc, vs[i]) < SizeAll(sc, vs)
  {
    if i > 0 {
      PartBelow(sc, vs[1..], i - 1);
    }
  }

  // ----- Maps

  function PairsSize(es: seq<(string, Bytes)>): nat {
    if es == [] then 0 else TextSize(es[0].0) + |es[0].1| + PairsSize(es[1..])
  }

  lemma {:induction false} InsertSize(x: (string, Bytes), es: seq<(string, Bytes)>)
    ensures PairsSize(Insert(KeyLess<Bytes>, x, es)) == PairsSize([x]) + PairsSize(es)
  {
    hide KeyLess, EncodeString;
    if es == [] || !KeyLess(es[0], x) {
      assert ([x] + es)[1..] == es;
    } else {
      InsertSize(x, es[1..]);
      assert ([es[0]] + Insert(KeyLess<Bytes>, x, es[1..]))[1..] == Insert(KeyLess<Bytes>, x, es[1..]);
    }
  }

  lemma {:induction false} SortSize(es: seq<(string, Bytes)>)
    ensures PairsSize(Sort(KeyLess<Bytes>, es)) == PairsSize(es)
  {
    hide KeyLess, EncodeString;
    if es != [] {
      SortSize(es[1..]);
      InsertSize(es[0], Sort(KeyLess<Bytes>, es[1..]));
    }
  }

  lemma {:induction false} PairsExact(es: seq<(string, Bytes)>)
    requires PairsSize(es) <= MAX_PAYLOAD_LENGTH
    ensures EncodePairs(es).Some?
  {
    if es != [] {
      PairsExact(es[1..]);
    }
  }

  lemma {:induction false} PairsLength(es: seq<(string, Bytes)>)
    requires EncodePairs(es).Some?
    ensures |EncodePairs(es).value| == PairsSize(es)
  {
    if es != [] {
      PairsLength(es[1..]);
    }
  }

  lemma {:induction false} DictExact(es: seq<(string, Bytes)>)
    ensures EncodeDict(es).Some? <==> UniqueKeys(es) && PairsSize(es) <= MAX_PAYLOAD_LENGTH
    ensures EncodeDict(es).Some? ==> |EncodeDict(es).value| == 9 + PairsSize(es)
  {
    hide UniqueKeys, EncodePairs, Sort;
    var sorted := Sort(KeyLess<Bytes>, es);
    SortSize(es);
    if PairsSize(es) <= MAX_PAYLOAD_LENGTH {
      PairsExact(sorted);
    }
    if EncodePairs(sorted).Some? {
      PairsLength(sorted);
    }
  }

  function TotalLength(parts: seq<Bytes>): nat {
    if parts == [] then 0 else |parts[0]| + TotalLength(parts[1..])
  }

  lemma {:induction false} ConcatLength(parts: seq<Bytes>)
    ensures |Concat(parts)| == TotalLength(parts)
  {
    if parts != [] {
      ConcatLength(parts[1..]);
    }
  }

  lemma {:induction false} ZipSize(keys: seq<string>, parts: seq<Bytes>)
    requires |keys| == |parts|
    ensures PairsSize(Zip(keys, parts)) == KeysSize(keys) + TotalLength(parts)
    ensures UniqueKeys(Zip(keys, parts)) <==> DistinctNames(keys)
  {
    hide EncodeString;
    var es := Zip(keys, parts);
    if keys != [] {
      ZipSize(keys[1..], parts[1..]);
      assert es[1..] == Zip(keys[1..], parts[1..]);
    }
    assert forall i :: 0 <= i < |keys| ==> es[i].0 == keys[i];
  }

  // ----- Values

  /**
    A value has canonical bytes exactly when no map of it repeats a key and the payload it needs is
    within the length field; then its frame has exactly that payload's length and nine bytes.
    */
  lemma {:induction false} EncodableExactly(sc: Schema, v: Value)
    requires WellFormed(sc, v)
    ensures Encode(sc, v).Some? <==> Unambiguous(sc, v) && PayloadSize(sc, v) <= MAX_PAYLOAD_LENGTH
    ensures Encode(sc, v).Some? ==> |Encode(sc, v).value| == 9 + PayloadSize(sc, v)
    decreases v, 1
  {
    hide EncodeString, EncodeDict, Zip, DistinctNames;
    match v
    case Null =>
    case Boolean(_) =>
    case Integer(i) => IntegerLength(i);
    case Text(_) =>
    case List(items) =>
      AllEncodable(sc, items);
      if EncodeAll(sc, items).Some? {
        ConcatLength(EncodeAll(sc, items).value);
      }
    case Dict(keys, values) =>
      AllEncodable(sc, values);
      if EncodeAll(sc, values).Some? {
        ZipSize(keys, EncodeAll(sc, values).value);
        DictExact(Zip(keys, EncodeAll(sc, values).value));
      }
    case Record(k, fields) =>
      AllEncodable(sc, fields);
      if EncodeAll(sc, fields).Some? {
        ZipSize(sc.names(k), EncodeAll(sc, fields).value);
        DictExact(Zip(sc.names(k), EncodeAll(sc, fields).value));
      }
  }

  lemma {:induction false} IntegerLength(i: int)
    ensures IntegerPayload(i).Some? && |IntegerPayload(i).value| == 1 + MagnitudeLength(Magnitude(i))
  {
    MagnitudeExact(Magnitude(i));
  }

  lemma {:induction false} AllEncodable(sc: Schema, vs: seq<Value>)
    requires forall i :: 0 <= i < |vs| ==> WellFormed(sc, vs[i])
    ensures EncodeAll(sc, vs).Some?
            <==> forall i :: 0 <= i < |vs| ==> Unambiguous(sc, vs[i]) && PayloadSize(sc, vs[i]) <= MAX_PAYLOAD_LENGTH
    ensures EncodeAll(sc, vs).Some? ==> TotalLength(EncodeAll(sc, vs).value) == SizeAll(sc, vs)
    ensures forall i :: 0 <= i < |vs| ==> PayloadSize(sc, vs[i]) < SizeAll(sc, vs)
    decreases vs, 0
  {
    hide Encode, Unambiguous, PayloadSize, WellFormed;
    if vs != [] {
      EncodableExactly(sc, vs[0]);
      AllEncodable(sc, vs[1..]);
      assert forall i :: 0 < i < |vs| ==> vs[i] == vs[1..][i - 1];
    }
    forall i | 0 <= i < |vs| ensures PayloadSize(sc, vs[i]) < SizeAll(sc, vs) {
      PartBelow(sc, vs, i);
    }
  }

  // ----- The modelled values

  lemma {:induction false} ProperIsUnambiguous(v: Value)
    requires Proper(v)
    ensures Unambiguous(TABLE, v)
    decreases v
  {
    hide FieldNames, EncodeString;
    match v
    case List(items) =>
      forall i | 0 <= i < |items| ensures Unambiguous(TABLE, items[i]) {
        ProperIsUnambiguous(items[i]);
      }
    case Dict(keys, values) =>
      forall i, j | 0 <= i < j < |keys| ensures keys[i] != keys[j] {
        LexIrreflexive(EncodeString(keys[i]));
      }
      forall i | 0 <= i < |values| ensures Unambiguous(TABLE, values[i]) {
        ProperIsUnambiguous(values[i]);
      }
    case Record(k, fields) =>
      NamesDistinct(k);
      forall i | 0 <= i < |fields| ensures Unambiguous(TABLE, fields[i]) {
        ProperIsUnambiguous(fields[i]);
      }
    case _ =>
  }

  /** Whether the outermost payload, which contains all others, fits its length field. */
  predicate FitsLengthField(x: DomainValue) {
    ProperIsWellFormed(ToValue(x));
    PayloadSize(TABLE, ToValue(x)) <= MAX_PAYLOAD_LENGTH
  }

  /** A domain value lacks canonical bytes only when it is too long: a repeated key is never the reason. */
  lemma {:induction false} BytesExactly(x: DomainValue)
    ensures BytesOf(x).Some? <==> FitsLengthField(x)
    ensures WellFormed(TABLE, ToValue(x))
    ensures BytesOf(x).Some? ==> |BytesOf(x).value| == |PREAMBLE| + 9 + PayloadSize(TABLE, ToValue(x))
  {
    hide ToValue, Proper, Unambiguous, WellFormed, PayloadSize, Encode;
    ProperIsWellFormed(ToValue(x));
    ProperIsUnambiguous(ToValue(x));
    EncodableExactly(TABLE, ToValue(x));
  }
}
