/**
 * `LocalisedStrings`: a map from language code to text that the service sends
 * either as one object or as an array of objects, with a lookup that can fall
 * back to any present value.
 */
module LocalisedString {
  import opened Wrappers
  import opened Json

  /** Held by value inside the attribute structs; `values` is the wrapped map. */
  datatype LocalisedStrings = LocalisedStrings(values: map<string, string>) {

    /**
     * Looks up a language code. An exact match wins, even when its text is
     * empty. Otherwise, with fallback on, some present value is returned; which
     * one follows Go's map iteration order and is left open. Otherwise "".
     */
    method GetLocalString(langCode: string, fallback: bool) returns (s: string)
      ensures langCode in values ==> s == values[langCode]
      ensures langCode !in values && fallback && values != map[] ==> s in values.Values
      ensures langCode !in values && (!fallback || values == map[]) ==> s == ""
      ensures s in Choices(values, langCode, fallback)
    {
      if langCode in values {
        return values[langCode];
      }
      if fallback && values != map[] {
        var key :| key in values;
        return values[key];
      }
      return "";
    }

    /** `UnmarshalJSON`: whatever the receiver held, reset the map, try the flat form, else the array form, merging its entries in place. */
    method UnmarshalJSON(data: Json) returns (l: LocalisedStrings, err: Option<string>)
      ensures (l, err) == Decoded(data)
    {
      var merged: map<string, string> := map[];
      var flat, flatError := FlatDecode(data).0, FlatDecode(data).1;
      merged := flat;
      if flatError.None? {
        return LocalisedStrings(merged), None;
      }
      var locals, arrayError := ArrayDecode(data).0, ArrayDecode(data).1;
      if arrayError.Some? {
        return LocalisedStrings(merged), Some(DecodeErrorPrefix + CauseText(arrayError.value));
      }
      assert merged == map[];
      var i := 0;
      while i < |locals|
        invariant 0 <= i <= |locals|
        invariant merged == Flatten(locals[..i])
      {
        merged := MergeEntry(merged, locals[i]);
        assert locals[..i + 1][..i] == locals[..i];
        i := i + 1;
      }
      assert locals[..i] == locals;
      return LocalisedStrings(merged), None;
    }
  }

  /** The inner loop of `UnmarshalJSON`: writes each key of one entry into the map, in Go's map order. */
  method MergeEntry(merged: map<string, string>, entry: map<string, string>) returns (r: map<string, string>)
    ensures r == merged + entry
  {
    r := merged;
    var pending := entry.Keys;
    while pending != {}
      invariant pending <= entry.Keys
      invariant r.Keys == merged.Keys + (entry.Keys - pending)
      invariant forall k :: k in r ==> r[k] == if k in entry && k !in pending then entry[k] else merged[k]
      decreases pending
    {
      var key :| key in pending;
      r := r[key := entry[key]];
      pending := pending - {key};
    }
  }

  /** Every text `GetLocalString` may return for these arguments. */
  function Choices(values: map<string, string>, langCode: string, fallback: bool): set<string>
  {
    if langCode in values then {values[langCode]}
    else if fallback && values != map[] then values.Values
    else {""}
  }

  /** The lookup has one possible outcome unless it falls back on a map holding several texts. */
  lemma ChoicesUnique(values: map<string, string>, langCode: string, fallback: bool)
    requires langCode in values || !fallback || |values.Values| <= 1
    ensures |Choices(values, langCode, fallback)| == 1
  {
    if langCode !in values && fallback && values != map[] {
      var k :| k in values;
      assert values[k] in values.Values;
      forall v | v in values.Values
        ensures v == values[k]
      {
        if v != values[k] {
          TwoMembers(values.Values, v, values[k]);
        }
      }
      assert values.Values == {values[k]};
    }
  }

  lemma TwoMembers<T>(s: set<T>, a: T, b: T)
    requires a in s && b in s && a != b
    ensures |s| >= 2
  {
    var pair := {a, b};
    assert s == pair + (s - pair);
  }

  /** The lookup yields "" exactly when the matched text is "", or when nothing matches and it cannot fall back on a non-empty text. */
  lemma EmptyChoice(values: map<string, string>, langCode: string, fallback: bool)
    ensures "" in Choices(values, langCode, fallback) <==>
      if langCode in values then values[langCode] == ""
      else !fallback || values == map[] || "" in values.Values
  {
  }

  /** The message prefix of a failed decode. */
  const DecodeErrorPrefix := "error unmarshalling localisedstring: "

  /** Decoding one JSON value into a Go `string` map element: null leaves "", other kinds are a mismatch. */
  function StringElement(j: Json): (r: (string, Option<Cause>))
    ensures r.1.None? <==> (j.JString? || j.JNull?)
    ensures j.JString? ==> r.0 == j.s
    ensures !j.JString? ==> r.0 == ""
  {
    match j
    case JString(s) => (s, None)
    case JNull => ("", None)
    case _ => ("", Some(TypeMismatch(KindName(j), "string")))
  }

  /** The map the members of an object decode to: each key set in order, so a repeated key keeps its last value. */
  function MembersMap(ms: seq<Member>): map<string, string>
    decreases |ms|
  {
    if ms == [] then map[]
    else MembersMap(ms[..|ms| - 1])[ms[|ms| - 1].key := StringElement(ms[|ms| - 1].value).0]
  }

  /** The first mismatch met while decoding the members, as `encoding/json` keeps the first error. */
  function MembersError(ms: seq<Member>): (e: Option<Cause>)
    ensures e.None? <==> forall i :: 0 <= i < |ms| ==> StringElement(ms[i].value).1.None?
    decreases |ms|
  {
    if ms == [] then None
    else if StringElement(ms[0].value).1.Some? then StringElement(ms[0].value).1
    else MembersError(ms[1..])
  }

  /** Go's `json.Unmarshal(data, &l.Values)` on a map that was just reset to empty. */
  function FlatDecode(j: Json): (map<string, string>, Option<Cause>)
  {
    match j
    case JObject(ms) => (MembersMap(ms), MembersError(ms))
    case JNull => (map[], None)
    case _ => (map[], Some(TypeMismatch(KindName(j), "map[string]string")))
  }

  /** One element of the array form: an object of strings, or null for an empty entry. */
  function EntryDecode(j: Json): (map<string, string>, Option<Cause>)
  {
    match j
    case JObject(ms) => (MembersMap(ms), MembersError(ms))
    case JNull => (map[], None)
    case _ => (map[], Some(TypeMismatch(KindName(j), "map[string]string")))
  }

  function Entries(es: seq<Json>): (r: seq<map<string, string>>)
    ensures |r| == |es|
    ensures forall i :: 0 <= i < |es| ==> r[i] == EntryDecode(es[i]).0
  {
    seq(|es|, i requires 0 <= i < |es| => EntryDecode(es[i]).0)
  }

  function EntriesError(es: seq<Json>): (e: Option<Cause>)
    ensures e.None? <==> forall i :: 0 <= i < |es| ==> EntryDecode(es[i]).1.None?
    decreases |es|
  {
    if es == [] then None
    else if EntryDecode(es[0]).1.Some? then EntryDecode(es[0]).1
    else EntriesError(es[1..])
  }

  /** Go's `json.Unmarshal(data, &locals)` into a nil `[]map[string]string`. */
  function ArrayDecode(j: Json): (seq<map<string, string>>, Option<Cause>)
  {
    match j
    case JArray(es) => (Entries(es), EntriesError(es))
    case JNull => ([], None)
    case _ => ([], Some(TypeMismatch(KindName(j), "[]map[string]string")))
  }

  /** All entries merged into one map, a later entry overwriting an earlier one. */
  function Flatten(entries: seq<map<string, string>>): map<string, string>
    decreases |entries|
  {
    if entries == [] then map[]
    else Flatten(entries[..|entries| - 1]) + entries[|entries| - 1]
  }

  /**
   * What `UnmarshalJSON` leaves in the receiver, and the error it returns. The
   * receiver is reset first, so its earlier contents never matter. When both
   * attempts fail, the receiver keeps what the first attempt wrote.
   */
  function Decoded(data: Json): (LocalisedStrings, Option<string>)
  {
    var (flat, flatError) := FlatDecode(data);
    if flatError.None? then (LocalisedStrings(flat), None)
    else
      var (locals, arrayError) := ArrayDecode(data);
      if arrayError.Some? then (LocalisedStrings(flat), Some(DecodeErrorPrefix + CauseText(arrayError.value)))
      else (LocalisedStrings(Flatten(locals)), None)
  }

  // ---- Properties of the decoding ----

  /** The value of the last member with a given key: the one `MembersMap` keeps. */
  lemma {:induction false} MembersMapLast(ms: seq<Member>, i: nat)
    requires i < |ms|
    requires forall j :: i < j < |ms| ==> ms[j].key != ms[i].key
    ensures ms[i].key in MembersMap(ms)
    ensures MembersMap(ms)[ms[i].key] == StringElement(ms[i].value).0
    decreases |ms|
  {
    if i < |ms| - 1 {
      MembersMapLast(ms[..|ms| - 1], i);
    }
  }

  /** The keys of `MembersMap` are exactly the keys of the members. */
  lemma {:induction false} MembersMapKeys(ms: seq<Member>, k: string)
    ensures k in MembersMap(ms) <==> exists i :: 0 <= i < |ms| && ms[i].key == k
    decreases |ms|
  {
    if ms != [] {
      MembersMapKeys(ms[..|ms| - 1], k);
      if k in MembersMap(ms[..|ms| - 1]) {
        var i :| 0 <= i < |ms| - 1 && ms[..|ms| - 1][i].key == k;
        assert ms[i].key == k;
      }
      if exists i :: 0 <= i < |ms| && ms[i].key == k {
        var i :| 0 <= i < |ms| && ms[i].key == k;
        if i < |ms| - 1 {
          assert ms[..|ms| - 1][i].key == k;
        }
      }
    }
  }

  /** A key belongs to the merged map exactly when some entry has it. */
  lemma {:induction false} FlattenKeys(entries: seq<map<string, string>>, k: string)
    ensures k in Flatten(entries) <==> exists i :: 0 <= i < |entries| && k in entries[i]
    decreases |entries|
  {
    if entries != [] {
      var init := entries[..|entries| - 1];
      FlattenKeys(init, k);
      if exists i :: 0 <= i < |init| && k in init[i] {
        var i :| 0 <= i < |init| && k in init[i];
        assert k in entries[i];
      }
      if exists i :: 0 <= i < |entries| && k in entries[i] {
        var i :| 0 <= i < |entries| && k in entries[i];
        if i < |init| {
          assert k in init[i];
        }
      }
    }
  }

  /** A key takes its text from the last entry that has it. */
  lemma {:induction false} FlattenLastWins(entries: seq<map<string, string>>, i: nat, k: string)
    requires i < |entries| && k in entries[i]
    requires forall j :: i < j < |entries| ==> k !in entries[j]
    ensures k in Flatten(entries) && Flatten(entries)[k] == entries[i][k]
    decreases |entries|
  {
    if i < |entries| - 1 {
      FlattenLastWins(entries[..|entries| - 1], i, k);
    }
  }

  /** An object whose members are all strings (or null) decodes to exactly its key/value map. */
  lemma ObjectForm(ms: seq<Member>)
    requires forall i :: 0 <= i < |ms| ==> ms[i].value.JString? || ms[i].value.JNull?
    ensures Decoded(JObject(ms)) == (LocalisedStrings(MembersMap(ms)), None)
  {
  }

  /** An array whose entries are objects of strings (or null) decodes to the merge of its entries. */
  lemma ArrayForm(es: seq<Json>)
    requires forall i :: 0 <= i < |es| ==> EntryDecode(es[i]).1.None?
    ensures Decoded(JArray(es)) == (LocalisedStrings(Flatten(Entries(es))), None)
  {
  }

  /** The empty array decodes to the empty map without error. */
  lemma EmptyArray()
    ensures Decoded(JArray([])) == (LocalisedStrings(map[]), None)
  {
    assert Entries([]) == [];
  }

  /** Decoding fails exactly when the input fits neither form, and the message names the decoder. */
  lemma FailureExactly(data: Json)
    ensures Decoded(data).1.Some? <==>
      match data
      case JNull => false
      case JObject(ms) => exists i :: 0 <= i < |ms| && StringElement(ms[i].value).1.Some?
      case JArray(es) => exists i :: 0 <= i < |es| && EntryDecode(es[i]).1.Some?
      case _ => true
    ensures Decoded(data).1.Some? ==> DecodeErrorPrefix <= Decoded(data).1.value
  {
  }
}
