/** What the canonical bytes identify: exactly the value, with the order of map entries forgotten. */
module CanonicalTheorems {
  import opened Wrappers
  import opened Ordering
  import opened Utf8
  import opened Canonical

  ghost predicate DistinctWires(sc: Schema) {
    forall k, l :: sc.wire(k) == sc.wire(l) ==> k == l
  }

  /** Both values have canonical bytes, and they are the same bytes. */
  ghost predicate SameBytes(sc: Schema, v: Value, w: Value)
    requires WellFormed(sc, v) && WellFormed(sc, w)
  {
    Encode(sc, v).Some? && Encode(sc, v) == Encode(sc, w)
  }

  lemma {:induction false} EncodeIsFrame(sc: Schema, v: Value)
    requires WellFormed(sc, v) && Encode(sc, v).Some?
    ensures IsFrame(Encode(sc, v).value) && Encode(sc, v).value[0] == Tag(v)
  {
    match v
    case Null => FrameShape(NULL_TAG, []);
    case Boolean(b) => FrameShape(BOOLEAN_TAG, [if b then 1 else 0]);
    case Integer(i) => FrameShape(INTEGER_TAG, IntegerPayload(i).value);
    case Text(s) => FrameShape(TEXT_TAG, EncodeString(s));
    case List(items) => FrameShape(LIST_TAG, Concat(EncodeAll(sc, items).value));
    case Dict(keys, values) =>
      DictIsFrame(Zip(keys, EncodeAll(sc, values).value));
    case Record(k, fields) =>
      var dict := EncodeDict(Zip(sc.names(k), EncodeAll(sc, fields).value)).value;
      FrameShape(RECORD_TAG, EncodeText(sc.wire(k)).value + dict);
  }

  lemma {:induction false} DictIsFrame(es: seq<(string, Bytes)>)
    requires EncodeDict(es).Some?
    ensures IsFrame(EncodeDict(es).value) && EncodeDict(es).value[0] == DICT_TAG
  {
    FrameShape(DICT_TAG, EncodePairs(Sort(KeyLess<Bytes>, es)).value);
  }

  lemma {:induction false} PartsAreFrames(sc: Schema, vs: seq<Value>)
    requires forall i :: 0 <= i < |vs| ==> WellFormed(sc, vs[i])
    requires EncodeAll(sc, vs).Some?
    ensures AllFrames(EncodeAll(sc, vs).value)
  {
    var parts := EncodeAll(sc, vs).value;
    forall i | 0 <= i < |vs| ensures IsFrame(parts[i]) {
      EncodeIsFrame(sc, vs[i]);
    }
  }

  lemma {:induction false} MemberOfZip<T>(keys: seq<string>, xs: seq<T>, p: (string, T)) returns (i: nat)
    requires |keys| == |xs| && p in Zip(keys, xs)
    ensures i < |xs| && keys[i] == p.0 && xs[i] == p.1
  {
    i :| 0 <= i < |xs| && Zip(keys, xs)[i] == p;
  }

  lemma {:induction false} ZipMember<T>(keys: seq<string>, xs: seq<T>, i: nat)
    requires |keys| == |xs| && i < |xs|
    ensures (keys[i], xs[i]) in Zip(keys, xs)
  {
    assert Zip(keys, xs)[i] == (keys[i], xs[i]);
  }

  /** With unique keys, the sorted entries are determined by the entries as a finite map. */
  lemma {:induction false} SortedEntriesAreTheMap<T(!new)>(es: seq<(string, T)>, fs: seq<(string, T)>)
    requires UniqueKeys(es) && UniqueKeys(fs)
    ensures Sort(KeyLess<T>, es) == Sort(KeyLess<T>, fs) <==> (forall p :: p in es <==> p in fs)
  {
    SortMembers(KeyLess<T>, es);
    SortMembers(KeyLess<T>, fs);
    if forall p :: p in es <==> p in fs {
      KeyLessStrict<T>();
      UniqueKeysComparable(es);
      UniqueKeysComparable(fs);
      SortAscending(KeyLess<T>, es);
      SortAscending(KeyLess<T>, fs);
      AscendingUnique(KeyLess<T>, Sort(KeyLess<T>, es), Sort(KeyLess<T>, fs));
    }
  }

  /** Under one list of unique keys, equal sorted entries have equal values at every position. */
  lemma {:induction false} SameKeysSameValues<T(!new)>(keys: seq<string>, xs: seq<T>, ys: seq<T>)
    requires |keys| == |xs| == |ys| && UniqueKeys(Zip(keys, xs))
    requires Sort(KeyLess<T>, Zip(keys, xs)) == Sort(KeyLess<T>, Zip(keys, ys))
    ensures xs == ys
  {
    SortMembers(KeyLess<T>, Zip(keys, xs));
    SortMembers(KeyLess<T>, Zip(keys, ys));
    forall i | 0 <= i < |xs| ensures xs[i] == ys[i] {
      ZipMember(keys, xs, i);
      var j := MemberOfZip(keys, ys, (keys[i], xs[i]));
      assert Zip(keys, xs)[i].0 == keys[i] && Zip(keys, xs)[j].0 == keys[j];
    }
  }

  // ----- Equal bytes, equal values

  lemma {:induction false} EncodeInjective(sc: Schema, v: Value, w: Value)
    requires DistinctWires(sc) && WellFormed(sc, v) && WellFormed(sc, w) && SameBytes(sc, v, w)
    ensures Normalize(v) == Normalize(w)
    decreases v, 1
  {
    EncodeIsFrame(sc, v);
    EncodeIsFrame(sc, w);
    assert Tag(v) == Tag(w);
    match v
    case Null =>
    case Boolean(b) => FrameInjective(BOOLEAN_TAG, [if b then 1 else 0], BOOLEAN_TAG, [if w.b then 1 else 0]);
    case Integer(i) =>
      FrameInjective(INTEGER_TAG, IntegerPayload(i).value, INTEGER_TAG, IntegerPayload(w.i).value);
      IntegerPayloadInjective(i, w.i);
    case Text(s) => EncodeTextInjective(s, w.s);
    case List(items) =>
      var p, q := EncodeAll(sc, items).value, EncodeAll(sc, w.items).value;
      FrameInjective(LIST_TAG, Concat(p), LIST_TAG, Concat(q));
      PartsAreFrames(sc, items);
      PartsAreFrames(sc, w.items);
      ConcatInjective(p, q);
      AllInjective(sc, items, w.items);
    case Dict(keys, values) => DictInjective(sc, keys, values, w.keys, w.values);
    case Record(k, fields) =>
      RecordParts(sc, v, w);
      AllInjective(sc, fields, w.fields);
  }

  lemma {:induction false} AllInjective(sc: Schema, vs: seq<Value>, ws: seq<Value>)
    requires DistinctWires(sc)
    requires forall i :: 0 <= i < |vs| ==> WellFormed(sc, vs[i])
    requires forall i :: 0 <= i < |ws| ==> WellFormed(sc, ws[i])
    requires EncodeAll(sc, vs).Some? && EncodeAll(sc, vs) == EncodeAll(sc, ws)
    ensures NormalizeAll(vs) == NormalizeAll(ws)
    decreases vs, 0
  {
    forall i | 0 <= i < |vs| ensures Normalize(vs[i]) == Normalize(ws[i]) {
      EncodeInjective(sc, vs[i], ws[i]);
    }
  }

  lemma {:induction false} RecordParts(sc: Schema, v: Value, w: Value)
    requires DistinctWires(sc) && WellFormed(sc, v) && WellFormed(sc, w) && SameBytes(sc, v, w)
    requires v.Record? && w.Record?
    ensures v.kind == w.kind && EncodeAll(sc, v.fields).Some?
    ensures EncodeAll(sc, v.fields) == EncodeAll(sc, w.fields)
  {
    var p, q := EncodeAll(sc, v.fields).value, EncodeAll(sc, w.fields).value;
    var a, b := EncodeText(sc.wire(v.kind)).value, EncodeText(sc.wire(w.kind)).value;
    var c := EncodeDict(Zip(sc.names(v.kind), p)).value;
    var d := EncodeDict(Zip(sc.names(w.kind), q)).value;
    FrameInjective(RECORD_TAG, a + c, RECORD_TAG, b + d);
    FrameShape(TEXT_TAG, EncodeString(sc.wire(v.kind)));
    FrameShape(TEXT_TAG, EncodeString(sc.wire(w.kind)));
    FrameSplit(a, b, c, d);
    EncodeTextInjective(sc.wire(v.kind), sc.wire(w.kind));
    PartsAreFrames(sc, v.fields);
    PartsAreFrames(sc, w.fields);
    EncodeDictInjective(Zip(sc.names(v.kind), p), Zip(sc.names(v.kind), q));
    SameKeysSameValues(sc.names(v.kind), p, q);
  }

  lemma {:induction false} DictInjective(sc: Schema, ks: seq<string>, vs: seq<Value>, ls: seq<string>, ws: seq<Value>)
    requires DistinctWires(sc) && WellFormed(sc, Dict(ks, vs)) && WellFormed(sc, Dict(ls, ws))
    requires SameBytes(sc, Dict(ks, vs), Dict(ls, ws))
    ensures Normalize(Dict(ks, vs)) == Normalize(Dict(ls, ws))
    decreases vs, 1
  {
    var p, q := EncodeAll(sc, vs).value, EncodeAll(sc, ws).value;
    PartsAreFrames(sc, vs);
    PartsAreFrames(sc, ws);
    EncodeDictInjective(Zip(ks, p), Zip(ls, q));
    SortedEntriesAreTheMap(Zip(ks, p), Zip(ls, q));
    forall i: nat, j: nat | i < |vs| && j < |ws| && p[i] == q[j] ensures Normalize(vs[i]) == Normalize(ws[j]) {
      EncodeInjective(sc, vs[i], ws[j]);
    }
    MapsTransfer(ks, p, NormalizeAll(vs), ls, q, NormalizeAll(ws));
    UniqueTransfer(ks, p, NormalizeAll(vs));
    UniqueTransfer(ls, q, NormalizeAll(ws));
    SortedEntriesAreTheMap(Zip(ks, NormalizeAll(vs)), Zip(ls, NormalizeAll(ws)));
  }

  lemma {:induction false} UniqueTransfer<T, U>(ks: seq<string>, xs: seq<T>, ys: seq<U>)
    requires |ks| == |xs| == |ys| && UniqueKeys(Zip(ks, xs))
    ensures UniqueKeys(Zip(ks, ys))
  {
    forall i, j | 0 <= i < j < |ys| ensures Zip(ks, ys)[i].0 != Zip(ks, ys)[j].0 {
      assert Zip(ks, xs)[i].0 != Zip(ks, xs)[j].0;
    }
  }

  /** If two maps agree on `xs`/`ys`, they agree on whatever `xs`/`ys` determine. */
  lemma {:induction false} MapsTransfer<T(!new), U(!new)>(
    ks: seq<string>, xs: seq<T>, fx: seq<U>, ls: seq<string>, ys: seq<T>, fy: seq<U>)
    requires |ks| == |xs| == |fx| && |ls| == |ys| == |fy|
    requires forall p :: p in Zip(ks, xs) <==> p in Zip(ls, ys)
    requires forall i, j :: 0 <= i < |xs| && 0 <= j < |ys| && xs[i] == ys[j] ==> fx[i] == fy[j]
    ensures forall p :: p in Zip(ks, fx) <==> p in Zip(ls, fy)
  {
    forall p | p in Zip(ks, fx) ensures p in Zip(ls, fy) {
      var i := MemberOfZip(ks, fx, p);
      ZipMember(ks, xs, i);
      var j := MemberOfZip(ls, ys, (ks[i], xs[i]));
      ZipMember(ls, fy, j);
    }
    forall p | p in Zip(ls, fy) ensures p in Zip(ks, fx) {
      var j := MemberOfZip(ls, fy, p);
      ZipMember(ls, ys, j);
      var i := MemberOfZip(ks, xs, (ls[j], ys[j]));
      ZipMember(ks, fx, i);
    }
  }

  // ----- Equal values, equal bytes

  lemma {:induction false} EqualValuesEqualBytes(sc: Schema, v: Value, w: Value)
    requires WellFormed(sc, v) && WellFormed(sc, w)
    requires Encode(sc, v).Some? && Encode(sc, w).Some? && Normalize(v) == Normalize(w)
    ensures Encode(sc, v) == Encode(sc, w)
    decreases v, 1
  {
    match v
    case List(items) => EqualValuesAll(sc, items, w.items);
    case Dict(keys, values) => EqualDicts(sc, keys, values, w.keys, w.values);
    case Record(k, fields) => EqualValuesAll(sc, fields, w.fields);
    case _ =>
  }

  lemma {:induction false} EqualValuesAll(sc: Schema, vs: seq<Value>, ws: seq<Value>)
    requires forall i :: 0 <= i < |vs| ==> WellFormed(sc, vs[i])
    requires forall i :: 0 <= i < |ws| ==> WellFormed(sc, ws[i])
    requires EncodeAll(sc, vs).Some? && EncodeAll(sc, ws).Some? && NormalizeAll(vs) == NormalizeAll(ws)
    ensures EncodeAll(sc, vs) == EncodeAll(sc, ws)
    decreases vs, 0
  {
    assert |vs| == |NormalizeAll(vs)| == |ws|;
    forall i | 0 <= i < |vs| ensures EncodeAll(sc, vs).value[i] == EncodeAll(sc, ws).value[i] {
      assert NormalizeAll(vs)[i] == Normalize(vs[i]) && NormalizeAll(ws)[i] == Normalize(ws[i]);
      EqualValuesEqualBytes(sc, vs[i], ws[i]);
    }
    assert EncodeAll(sc, vs).value == EncodeAll(sc, ws).value;
  }

  lemma {:induction false} EqualDicts(sc: Schema, ks: seq<string>, vs: seq<Value>, ls: seq<string>, ws: seq<Value>)
    requires WellFormed(sc, Dict(ks, vs)) && WellFormed(sc, Dict(ls, ws))
    requires Encode(sc, Dict(ks, vs)).Some? && Encode(sc, Dict(ls, ws)).Some?
    requires Normalize(Dict(ks, vs)) == Normalize(Dict(ls, ws))
    ensures Encode(sc, Dict(ks, vs)) == Encode(sc, Dict(ls, ws))
    decreases vs, 1
  {
    hide Sort, EncodePairs, UniqueKeys, Frame;
    var p, q := EncodeAll(sc, vs).value, EncodeAll(sc, ws).value;
    var nv, nw := NormalizeAll(vs), NormalizeAll(ws);
    SameUnzipped(Sort(KeyLess<Value>, Zip(ks, nv)), Sort(KeyLess<Value>, Zip(ls, nw)));
    UniqueTransfer(ks, p, nv);
    UniqueTransfer(ls, q, nw);
    SortedEntriesAreTheMap(Zip(ks, nv), Zip(ls, nw));
    forall i: nat, j: nat | i < |vs| && j < |ws| && nv[i] == nw[j] ensures p[i] == q[j] {
      EqualValuesEqualBytes(sc, vs[i], ws[j]);
    }
    MapsTransfer(ks, nv, p, ls, nw, q);
    SortedEntriesAreTheMap(Zip(ks, p), Zip(ls, q));
  }

  lemma {:induction false} SameUnzipped(s: seq<(string, Value)>, t: seq<(string, Value)>)
    requires Map(FirstOf, s) == Map(FirstOf, t) && Map(SecondOf, s) == Map(SecondOf, t)
    ensures s == t
  {
    assert |s| == |Map(FirstOf, s)| == |t|;
    forall i | 0 <= i < |s| ensures s[i] == t[i] {
      assert Map(FirstOf, s)[i] == Map(FirstOf, t)[i] && Map(SecondOf, s)[i] == Map(SecondOf, t)[i];
    }
  }

  // ----- The canonical bytes

  /** ASCII "NEST-AUTHZ-CANONICAL", a zero byte, and the format version. */
  const PREAMBLE: Bytes := EncodeString("NEST-AUTHZ-CANONICAL") + [0, 1]

  function CanonicalBytes(sc: Schema, v: Value): Option<Bytes>
    requires WellFormed(sc, v)
  {
    var body :- Encode(sc, v);
    Some(PREAMBLE + body)
  }

  lemma {:induction false} StripPrefix(p: Bytes, a: Bytes, b: Bytes)
    requires p + a == p + b
    ensures a == b
  {
    assert a == (p + a)[|p|..] && b == (p + b)[|p|..];
  }

  /** Whatever follows them, the canonical bytes of a value determine the value. */
  lemma {:induction false} CanonicalBytesPrefixFree(sc: Schema, v: Value, w: Value, r: Bytes, s: Bytes)
    requires DistinctWires(sc) && WellFormed(sc, v) && WellFormed(sc, w)
    requires CanonicalBytes(sc, v).Some? && CanonicalBytes(sc, w).Some?
    requires CanonicalBytes(sc, v).value + r == CanonicalBytes(sc, w).value + s
    ensures Normalize(v) == Normalize(w) && r == s
  {
    PrefixFreeBodies(PREAMBLE, sc, v, w, r, s);
  }

  lemma {:induction false} PrefixFreeBodies(p: Bytes, sc: Schema, v: Value, w: Value, r: Bytes, s: Bytes)
    requires DistinctWires(sc) && WellFormed(sc, v) && WellFormed(sc, w)
    requires Encode(sc, v).Some? && Encode(sc, w).Some?
    requires p + Encode(sc, v).value + r == p + Encode(sc, w).value + s
    ensures Normalize(v) == Normalize(w) && r == s
  {
    EncodeIsFrame(sc, v);
    EncodeIsFrame(sc, w);
    BodySplit(p, Encode(sc, v).value, Encode(sc, w).value, r, s);
    EncodeInjective(sc, v, w);
  }

  lemma {:induction false} BodySplit(p: Bytes, a: Bytes, b: Bytes, r: Bytes, s: Bytes)
    requires IsFrame(a) && IsFrame(b) && p + a + r == p + b + s
    ensures a == b && r == s
  {
    assert p + a + r == p + (a + r) && p + b + s == p + (b + s);
    StripPrefix(p, a + r, b + s);
    FrameSplit(a, b, r, s);
  }

  /**
    Canonical bytes identify values: two encodable values have the same bytes exactly when they
    are the same value, maps compared as finite maps and sequences in order.
    */
  lemma {:induction false} CanonicalBytesIdentify(sc: Schema, v: Value, w: Value)
    requires DistinctWires(sc) && WellFormed(sc, v) && WellFormed(sc, w)
    requires CanonicalBytes(sc, v).Some? && CanonicalBytes(sc, w).Some?
    ensures CanonicalBytes(sc, v) == CanonicalBytes(sc, w) <==> Normalize(v) == Normalize(w)
  {
    if CanonicalBytes(sc, v) == CanonicalBytes(sc, w) {
      CanonicalBytesPrefixFree(sc, v, w, [], []);
    }
    if Normalize(v) == Normalize(w) {
      EqualValuesEqualBytes(sc, v, w);
    }
  }

  /** Every map is already in canonical order. */
  predicate InOrder(v: Value) {
    match v
    case List(items) => forall i :: 0 <= i < |items| ==> InOrder(items[i])
    case Dict(keys, values) =>
      && |keys| == |values|
      && (forall i, j :: 0 <= i < j < |keys| ==> BytesLess(keys[i], keys[j]))
      && forall i :: 0 <= i < |values| ==> InOrder(values[i])
    case Record(_, fields) => forall i :: 0 <= i < |fields| ==> InOrder(fields[i])
    case _ => true
  }

  /** A value whose maps are in order is its own normal form. */
  lemma {:induction false} InOrderIsNormal(v: Value)
    requires InOrder(v)
    ensures Normalize(v) == v
    decreases v, 1
  {
    match v
    case List(items) => AllInOrder(items);
    case Dict(keys, values) =>
      AllInOrder(values);
      var es := Zip(keys, values);
      forall i, j | 0 <= i < j < |es| ensures KeyLess(es[i], es[j]) && !KeyLess(es[j], es[i]) {
        LexAsymmetric(EncodeString(keys[i]), EncodeString(keys[j]));
      }
      SortFixed(KeyLess<Value>, es);
      assert Map(FirstOf, es) == keys && Map(SecondOf, es) == values;
    case Record(_, fields) => AllInOrder(fields);
    case _ =>
  }

  lemma {:induction false} AllInOrder(vs: seq<Value>)
    requires forall i :: 0 <= i < |vs| ==> InOrder(vs[i])
    ensures NormalizeAll(vs) == vs
    decreases vs, 0
  {
    forall i | 0 <= i < |vs| ensures NormalizeAll(vs)[i] == vs[i] {
      InOrderIsNormal(vs[i]);
    }
  }
}
