/**
  Reading canonical bytes back: the format from the reader's side, and that every encoding is read
  as the tree it was made of (canonical.py:91-174).
  */
module Decoder {
  import opened Wrappers
  import opened Ordering
  import opened Utf8
  import opened StrictUtf8
  import opened Integers
  import opened Canonical
  import opened CanonicalTheorems

  /** What a reader sees: maps and records as entries in the order they are written. */
  datatype Tree =
    | NullTree
    | BooleanTree(b: bool)
    | IntegerTree(i: int)
    | TextTree(s: string)
    | ListTree(items: seq<Tree>)
    | MapTree(entries: seq<(string, Tree)>)
    | RecordTree(wire: string, entries: seq<(string, Tree)>)

  // ----- The reader

  datatype Framed = Framed(tag: Byte, payload: Bytes, rest: Bytes)

  /** A tag, eight bytes of length, and that many bytes of payload. */
  function ReadFrame(b: Bytes): (r: Option<Framed>)
    ensures r.Some? ==> |r.value.payload| + |r.value.rest| + 9 == |b|
  {
    if |b| < 9 then None
    else
      var end := 9 + FromBytes(b[1..9]);
      if |b| < end then None else Some(Framed(b[0], b[9..end], b[end..]))
  }

  function ReadText(payload: Bytes): Option<string> {
    if Strict(payload) then Some(DecodeString(payload)) else None
  }

  /** A sign byte, one for negative, and a magnitude without leading zeros; there is no negative zero. */
  function ReadInteger(payload: Bytes): Option<int> {
    if payload == [] || payload[0] > 1 then None
    else if |payload| == 1 then (if payload[0] == 0 then Some(0) else None)
    else if payload[1] == 0 then None
    else
      var magnitude: int := FromBytes(payload[1..]);
      Some(if payload[0] == 1 then -magnitude else magnitude)
  }

  /** The value a byte sequence starts with, and what follows it. */
  function Decode(b: Bytes): (r: Option<(Tree, Bytes)>)
    ensures r.Some? ==> |r.value.1| < |b|
    decreases |b|, 0
  {
    var f :- ReadFrame(b);
    var tree :- DecodePayload(f.tag, f.payload);
    Some((tree, f.rest))
  }

  function DecodePayload(tag: Byte, payload: Bytes): Option<Tree>
    decreases |payload|, 3
  {
    if tag == 'N' as int then
      if payload == [] then Some(NullTree) else None
    else if tag == 'B' as int then
      if payload == [0] then Some(BooleanTree(false)) else if payload == [1] then Some(BooleanTree(true)) else None
    else if tag == 'I' as int then
      var i :- ReadInteger(payload);
      Some(IntegerTree(i))
    else if tag == 'S' as int then
      var s :- ReadText(payload);
      Some(TextTree(s))
    else if tag == 'L' as int then
      var items :- DecodeAll(payload);
      Some(ListTree(items))
    else if tag == 'M' as int then
      var entries :- DecodeEntries(payload);
      Some(MapTree(entries))
    else if tag == 'R' as int then DecodeRecord(payload)
    else None
  }

  /** A text frame with the wire type, then a map frame with the fields, and nothing more. */
  function DecodeRecord(payload: Bytes): Option<Tree>
    decreases |payload|, 2
  {
    var w :- ReadFrame(payload);
    var m :- ReadFrame(w.rest);
    if w.tag != 'S' as int || m.tag != 'M' as int || m.rest != [] then None
    else
      var wire :- ReadText(w.payload);
      var entries :- DecodeEntries(m.payload);
      Some(RecordTree(wire, entries))
  }

  function DecodeAll(b: Bytes): Option<seq<Tree>>
    decreases |b|, 1
  {
    if b == [] then Some([])
    else
      var (first, rest) :- Decode(b);
      var others :- DecodeAll(rest);
      Some([first] + others)
  }

  /** Keys, framed as text, each followed by its value. */
  function DecodeEntries(b: Bytes): Option<seq<(string, Tree)>>
    decreases |b|, 1
  {
    if b == [] then Some([])
    else
      var k :- ReadFrame(b);
      if k.tag != 'S' as int then None
      else
        var key :- ReadText(k.payload);
        var (value, rest) :- Decode(k.rest);
        var others :- DecodeEntries(rest);
        Some([(key, value)] + others)
  }

  // ----- The tree of a value

  /** The tree of a value: maps and fields in byte order of their names. */
  function TreeOf(sc: Schema, v: Value): Tree
    requires WellFormed(sc, v)
    decreases v, 0
  {
    match v
    case Null => NullTree
    case Boolean(b) => BooleanTree(b)
    case Integer(i) => IntegerTree(i)
    case Text(s) => TextTree(s)
    case List(items) => ListTree(TreesOf(sc, items))
    case Dict(keys, values) => MapTree(Sort(KeyLess<Tree>, Zip(keys, TreesOf(sc, values))))
    case Record(k, fields) => RecordTree(sc.wire(k), Sort(KeyLess<Tree>, Zip(sc.names(k), TreesOf(sc, fields))))
  }

  function TreesOf(sc: Schema, vs: seq<Value>): (r: seq<Tree>)
    requires forall i :: 0 <= i < |vs| ==> WellFormed(sc, vs[i])
    ensures |r| == |vs| && forall i :: 0 <= i < |vs| ==> r[i] == TreeOf(sc, vs[i])
    decreases vs, 0
  {
    if vs == [] then [] else [TreeOf(sc, vs[0])] + TreesOf(sc, vs[1..])
  }

  // ----- Reading what was written

  lemma {:induction false} FrameRead(tag: Byte, payload: Bytes, rest: Bytes)
    requires Frame(tag, payload).Some?
    ensures ReadFrame(Frame(tag, payload).value + rest) == Some(Framed(tag, payload, rest))
  {
    FrameShape(tag, payload);
    var f := Frame(tag, payload).value;
    var b := f + rest;
    assert b[1..9] == f[1..9] && b[9..|f|] == f[9..] && b[|f|..] == rest;
  }

  lemma {:induction false} TextRead(s: string)
    ensures ReadText(EncodeString(s)) == Some(s)
  {
    EncodedIsStrict(s);
    StringDecoded(EncodeString(s));
    StringInjective(s, DecodeString(EncodeString(s)));
  }

  lemma {:induction false} IntegerRead(i: int)
    ensures IntegerPayload(i).Some? && ReadInteger(IntegerPayload(i).value) == Some(i)
  {
    IntegerPayloadExact(i);
  }

  /** The bytes are read as this tree, whatever follows them. */
  ghost predicate ReadsAs(bytes: Bytes, tree: Tree) {
    forall rest :: Decode(bytes + rest) == Some((tree, rest))
  }

  lemma {:induction false} PayloadReads(tag: Byte, payload: Bytes, tree: Tree)
    requires Frame(tag, payload).Some? && DecodePayload(tag, payload) == Some(tree)
    ensures ReadsAs(Frame(tag, payload).value, tree)
  {
    hide DecodePayload, Frame;
    forall rest ensures Decode(Frame(tag, payload).value + rest) == Some((tree, rest)) {
      FrameRead(tag, payload, rest);
    }
  }

  lemma {:induction false} ReadsSome(bytes: Bytes, tree: Tree, rest: Bytes)
    requires ReadsAs(bytes, tree)
    ensures Decode(bytes + rest) == Some((tree, rest)) && bytes != []
  {
    hide Decode;
    assert Decode(bytes + rest) == Some((tree, rest));
    assert bytes + rest == rest ==> |bytes| == 0;
    ReadsNonempty(bytes, tree);
  }

  lemma {:induction false} ReadsNonempty(bytes: Bytes, tree: Tree)
    requires ReadsAs(bytes, tree)
    ensures bytes != []
  {
    assert Decode(bytes + []) == Some((tree, []));
    hide Decode;
  }

  lemma {:induction false} AllRead(parts: seq<Bytes>, trees: seq<Tree>)
    requires |parts| == |trees| && forall i :: 0 <= i < |parts| ==> ReadsAs(parts[i], trees[i])
    ensures DecodeAll(Concat(parts)) == Some(trees)
  {
    hide Decode, ReadsAs;
    if parts != [] {
      AllRead(parts[1..], trees[1..]);
      ReadsSome(parts[0], trees[0], Concat(parts[1..]));
      assert trees == [trees[0]] + trees[1..];
    }
  }

  // ----- Maps

  /** A key, the bytes of its value, and the tree they are read as. */
  type Entry = (string, Bytes, Tree)

  predicate EntryLess(a: Entry, b: Entry) {
    BytesLess(a.0, b.0)
  }

  function WrittenAs(e: Entry): (string, Bytes) { (e.0, e.1) }

  function SeenAs(e: Entry): (string, Tree) { (e.0, e.2) }

  lemma {:induction false} EntriesRead(es: seq<Entry>)
    requires forall i :: 0 <= i < |es| ==> ReadsAs(es[i].1, es[i].2)
    requires EncodePairs(Map(WrittenAs, es)).Some?
    ensures DecodeEntries(EncodePairs(Map(WrittenAs, es)).value) == Some(Map(SeenAs, es))
  {
    hide Decode, ReadsAs, ReadFrame, ReadText, EncodeString, Frame;
    if es != [] {
      var e := es[0];
      assert Map(WrittenAs, es)[1..] == Map(WrittenAs, es[1..]);
      var rest := EncodePairs(Map(WrittenAs, es[1..])).value;
      EntriesRead(es[1..]);
      var payload := EncodePairs(Map(WrittenAs, es)).value;
      var k := EncodeText(e.0).value;
      assert payload == k + (e.1 + rest);
      FrameRead(TEXT_TAG, EncodeString(e.0), e.1 + rest);
      TextRead(e.0);
      ReadsSome(e.1, e.2, rest);
      assert Map(SeenAs, es) == [SeenAs(e)] + Map(SeenAs, es[1..]);
    }
  }

  function Entries(keys: seq<string>, parts: seq<Bytes>, trees: seq<Tree>): (r: seq<Entry>)
    requires |keys| == |parts| == |trees|
    ensures |r| == |keys| && forall i :: 0 <= i < |r| ==> r[i] == (keys[i], parts[i], trees[i])
  {
    seq(|keys|, i requires 0 <= i < |keys| => (keys[i], parts[i], trees[i]))
  }

  lemma {:induction false} SortedTogether(keys: seq<string>, parts: seq<Bytes>, trees: seq<Tree>)
    requires |keys| == |parts| == |trees|
    ensures var sorted := Sort(EntryLess, Entries(keys, parts, trees));
            && Sort(KeyLess<Bytes>, Zip(keys, parts)) == Map(WrittenAs, sorted)
            && Sort(KeyLess<Tree>, Zip(keys, trees)) == Map(SeenAs, sorted)
  {
    hide Sort, EncodeString, LexLess;
    var es := Entries(keys, parts, trees);
    assert Map(WrittenAs, es) == Zip(keys, parts) && Map(SeenAs, es) == Zip(keys, trees);
    SortMap(EntryLess, KeyLess<Bytes>, WrittenAs, es);
    SortMap(EntryLess, KeyLess<Tree>, SeenAs, es);
  }

  lemma {:induction false} DictRead(keys: seq<string>, parts: seq<Bytes>, trees: seq<Tree>)
    requires |keys| == |parts| == |trees| && forall i :: 0 <= i < |parts| ==> ReadsAs(parts[i], trees[i])
    requires EncodeDict(Zip(keys, parts)).Some?
    ensures var payload := EncodePairs(Sort(KeyLess<Bytes>, Zip(keys, parts)));
            && payload.Some? && EncodeDict(Zip(keys, parts)) == Frame(DICT_TAG, payload.value)
            && DecodeEntries(payload.value) == Some(Sort(KeyLess<Tree>, Zip(keys, trees)))
  {
    hide ReadsAs, Frame, UniqueKeys, DecodeEntries, EncodePairs, Sort, EntryLess;
    var es := Entries(keys, parts, trees);
    SortedTogether(keys, parts, trees);
    SortMembers(EntryLess, es);
    var sorted := Sort(EntryLess, es);
    forall i | 0 <= i < |sorted| ensures ReadsAs(sorted[i].1, sorted[i].2) {
      assert sorted[i] in es;
    }
    EntriesRead(sorted);
  }

  // ----- Values

  /** Every encoding is read back as the tree of its value, and what follows it is left over. */
  lemma {:induction false} EncodingRead(sc: Schema, v: Value)
    requires WellFormed(sc, v) && Encode(sc, v).Some?
    ensures ReadsAs(Encode(sc, v).value, TreeOf(sc, v))
    decreases v, 1
  {
    hide ReadsAs, EncodeString, ReadText, Frame, ReadInteger, IntegerPayload, EncodeDict, EncodePairs, Zip;
    hide DecodeAll, DecodeEntries, DecodeRecord, Sort, EncodeAll, ReadFrame;
    match v
    case Null => PayloadReads(NULL_TAG, [], NullTree);
    case Boolean(b) => PayloadReads(BOOLEAN_TAG, [if b then 1 else 0], BooleanTree(b));
    case Integer(i) =>
      IntegerRead(i);
      PayloadReads(INTEGER_TAG, IntegerPayload(i).value, IntegerTree(i));
    case Text(s) =>
      TextRead(s);
      PayloadReads(TEXT_TAG, EncodeString(s), TextTree(s));
    case List(items) =>
      PartsRead(sc, items);
      AllRead(EncodeAll(sc, items).value, TreesOf(sc, items));
      PayloadReads(LIST_TAG, Concat(EncodeAll(sc, items).value), TreeOf(sc, v));
    case Dict(keys, values) =>
      PartsRead(sc, values);
      DictRead(keys, EncodeAll(sc, values).value, TreesOf(sc, values));
      PayloadReads(DICT_TAG, EncodePairs(Sort(KeyLess<Bytes>, Zip(keys, EncodeAll(sc, values).value))).value, TreeOf(sc, v));
    case Record(k, fields) =>
      PartsRead(sc, fields);
      RecordRead(sc.wire(k), sc.names(k), EncodeAll(sc, fields).value, TreesOf(sc, fields));
      var dict := EncodeDict(Zip(sc.names(k), EncodeAll(sc, fields).value)).value;
      PayloadReads(RECORD_TAG, EncodeText(sc.wire(k)).value + dict, TreeOf(sc, v));
  }

  lemma {:induction false} PartsRead(sc: Schema, vs: seq<Value>)
    requires (forall i :: 0 <= i < |vs| ==> WellFormed(sc, vs[i])) && EncodeAll(sc, vs).Some?
    ensures forall i :: 0 <= i < |vs| ==> ReadsAs(EncodeAll(sc, vs).value[i], TreesOf(sc, vs)[i])
    decreases vs, 0
  {
    hide ReadsAs;
    forall i | 0 <= i < |vs| ensures ReadsAs(EncodeAll(sc, vs).value[i], TreesOf(sc, vs)[i]) {
      EncodingRead(sc, vs[i]);
    }
  }

  lemma {:induction false} RecordRead(wire: string, names: seq<string>, parts: seq<Bytes>, trees: seq<Tree>)
    requires |names| == |parts| == |trees| && forall i :: 0 <= i < |parts| ==> ReadsAs(parts[i], trees[i])
    requires EncodeText(wire).Some? && EncodeDict(Zip(names, parts)).Some?
    ensures DecodeRecord(EncodeText(wire).value + EncodeDict(Zip(names, parts)).value)
            == Some(RecordTree(wire, Sort(KeyLess<Tree>, Zip(names, trees))))
  {
    DictRead(names, parts, trees);
    hide ReadsAs, EncodeString, ReadText, Frame, EncodeDict, EncodePairs, Zip, Sort, ReadFrame, DecodeEntries;
    var payload := EncodePairs(Sort(KeyLess<Bytes>, Zip(names, parts))).value;
    var dict := Frame(DICT_TAG, payload).value;
    FrameRead(TEXT_TAG, EncodeString(wire), dict);
    FrameRead(DICT_TAG, payload, []);
    assert dict + [] == dict;
    TextRead(wire);
  }

  // ----- Canonical bytes

  /** The preamble as the format fixes it: NEST-AUTHZ-CANONICAL in ASCII, zero, version one. */
  const MAGIC: Bytes := [
    0x4E, 0x45, 0x53, 0x54, 0x2D, 0x41, 0x55, 0x54, 0x48, 0x5A, 0x2D,
    0x43, 0x41, 0x4E, 0x4F, 0x4E, 0x49, 0x43, 0x41, 0x4C, 0x00, 0x01]

  function ReadCanonical(b: Bytes): Option<Tree> {
    if |b| < |MAGIC| || b[..|MAGIC|] != MAGIC then None
    else
      var (tree, rest) :- Decode(b[|MAGIC|..]);
      if rest == [] then Some(tree) else None
  }

  lemma {:induction false} PreambleIsMagic()
    ensures PREAMBLE == MAGIC
  {
    hide EncodeString;
    AsciiEncoded("NEST-AUTHZ-CANONICAL");
  }

  /** Canonical bytes are read back as the tree of their value. */
  lemma {:induction false} CanonicalRead(sc: Schema, v: Value)
    requires WellFormed(sc, v) && CanonicalBytes(sc, v).Some?
    ensures ReadCanonical(CanonicalBytes(sc, v).value) == Some(TreeOf(sc, v))
  {
    hide ReadsAs, Encode, Decode, TreeOf, EncodeString;
    PreambleIsMagic();
    EncodingRead(sc, v);
    var body := Encode(sc, v).value;
    ReadsSome(body, TreeOf(sc, v), []);
    assert body + [] == body;
    var b := CanonicalBytes(sc, v).value;
    assert b[..|MAGIC|] == MAGIC && b[|MAGIC|..] == body;
  }
}
