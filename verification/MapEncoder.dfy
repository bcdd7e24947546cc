/** The map encoder as the program runs it (canonical.py, `_encode_map`), against `EncodeDict`. */
module MapEncoder {
  import opened Wrappers
  import opened Ordering
  import opened Utf8
  import opened Canonical

  /** Key bytes, framed key, encoded value. */
  type Entry = (Bytes, Bytes, Bytes)

  predicate EntryLess(a: Entry, b: Entry) {
    LexLess(a.0, b.0)
  }

  function EntryOf(e: (string, Bytes)): Entry {
    (EncodeString(e.0), EncodeText(e.0).GetOr([]), e.1)
  }

  function Joined(es: seq<Entry>): Bytes {
    if es == [] then [] else es[0].1 + es[0].2 + Joined(es[1..])
  }

  lemma {:induction false} JoinedSnoc(es: seq<Entry>, e: Entry)
    ensures Joined(es + [e]) == Joined(es) + (e.1 + e.2)
  {
    if es == [] {
      assert [e][1..] == [];
      assert e.1 + e.2 + Joined([]) == e.1 + e.2;
    } else {
      JoinedSnoc(es[1..], e);
      assert (es + [e])[1..] == es[1..] + [e];
    }
  }

  lemma {:induction false} JoinedIsEncodePairs(ps: seq<(string, Bytes)>)
    requires forall i :: 0 <= i < |ps| ==> EncodeText(ps[i].0).Some?
    ensures EncodePairs(ps) == Some(Joined(Map(EntryOf, ps)))
  {
    if ps != [] {
      JoinedIsEncodePairs(ps[1..]);
      assert Map(EntryOf, ps)[1..] == Map(EntryOf, ps[1..]);
    }
  }

  lemma {:induction false} UnencodableKey(ps: seq<(string, Bytes)>, i: nat)
    requires i < |ps| && EncodeText(ps[i].0).None?
    ensures EncodePairs(ps).None?
  {
    if i > 0 {
      UnencodableKey(ps[1..], i - 1);
    }
  }

  lemma {:induction false} UnencodableMap(es: seq<(string, Bytes)>, i: nat)
    requires i < |es| && EncodeText(es[i].0).None?
    ensures EncodeDict(es).None?
  {
    var sorted := Sort(KeyLess<Bytes>, es);
    SortMembers(KeyLess<Bytes>, es);
    assert es[i] in sorted;
    var k :| 0 <= k < |sorted| && sorted[k] == es[i];
    UnencodableKey(sorted, k);
  }

  lemma {:induction false} SortedEntries(es: seq<(string, Bytes)>)
    requires forall i :: 0 <= i < |es| ==> EncodeText(es[i].0).Some?
    ensures EncodePairs(Sort(KeyLess<Bytes>, es)) == Some(Joined(Sort(EntryLess, Map(EntryOf, es))))
  {
    SortMap(KeyLess<Bytes>, EntryLess, EntryOf, es);
    SortMembers(KeyLess<Bytes>, es);
    var sorted := Sort(KeyLess<Bytes>, es);
    assert forall p :: p in es ==> EncodeText(p.0).Some?;
    assert forall i :: 0 <= i < |sorted| ==> sorted[i] in es;
    JoinedIsEncodePairs(sorted);
  }

  /** The first loop: collect the entries, refusing repeated and unencodable keys. */
  method CollectEntries(entries: seq<(string, Bytes)>) returns (r: Option<seq<Entry>>)
    ensures r.None? ==> EncodeDict(entries).None?
    ensures r.Some? ==> r.value == Map(EntryOf, entries) && UniqueKeys(entries)
    ensures r.Some? ==> forall j :: 0 <= j < |entries| ==> EncodeText(entries[j].0).Some?
  {
    hide EncodeText, EncodeString, EncodePairs, Sort;
    var canonical: seq<Entry> := [];
    var seen: set<string> := {};
    for i := 0 to |entries|
      invariant canonical == Map(EntryOf, entries[..i])
      invariant seen == set j | 0 <= j < i :: entries[j].0
      invariant UniqueKeys(entries[..i])
      invariant forall j :: 0 <= j < i ==> EncodeText(entries[j].0).Some?
    {
      var (key, encoded) := entries[i];
      if key in seen {
        return None;
      }
      seen := seen + {key};
      var encodedKey := EncodeText(key);
      if encodedKey.None? {
        UnencodableMap(entries, i);
        return None;
      }
      canonical := canonical + [(EncodeString(key), encodedKey.value, encoded)];
      assert entries[..i + 1] == entries[..i] + [entries[i]];
    }
    assert entries[..|entries|] == entries;
    return Some(canonical);
  }

  method EncodeMap(entries: seq<(string, Bytes)>) returns (r: Option<Bytes>)
    ensures r == EncodeDict(entries)
  {
    hide EncodePairs, EncodeText, Sort, Insert, UniqueKeys, EntryLess, Frame, EntryOf;
    var collected := CollectEntries(entries);
    if collected.None? {
      return None;
    }
    SortedEntries(entries);
    var canonical := Sort(EntryLess, collected.value);
    var payload: Bytes := [];
    for i := 0 to |canonical|
      invariant payload == Joined(canonical[..i])
    {
      JoinedSnoc(canonical[..i], canonical[i]);
      assert canonical[..i + 1] == canonical[..i] + [canonical[i]];
      payload := payload + (canonical[i].1 + canonical[i].2);
    }
    assert canonical[..|canonical|] == canonical;
    r := Frame(DICT_TAG, payload);
  }
}
