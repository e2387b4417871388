/**
 * How Go's `encoding/json` fills a Go value from a JSON value, for the kinds
 * of fields the client's structs use. A struct is a Record: a map from JSON
 * field name to field value, laid out by a Schema.
 *
 * The rules followed are those of `encoding/json`: a value of the wrong kind
 * is a type mismatch that is remembered (the first one wins) while decoding
 * goes on; an error returned by a type's own `UnmarshalJSON` stops decoding at
 * once; null leaves a non-pointer field as it was and sets a pointer, slice or
 * map to nil; a value is decoded into what the field already holds, so a
 * repeated key updates the same struct or map.
 */
module Decode {
  import opened Wrappers
  import opened Json
  import opened LocalisedString

  datatype Kind =
    | Text                  // string
    | Uuid                  // uuid.UUID, kept as its text
    | Int                   // int
    | Flag                  // bool
    | Localised             // LocalisedStrings, decoded by its own UnmarshalJSON
    | Raw                   // json.RawMessage
    | Ptr(target: Kind)     // *T
    | ListOf(elem: Kind)    // []T
    | MapOf(elem: Kind)     // map[string]T
    | Struct(schema: Schema)

  datatype Field = Field(name: string, kind: Kind)

  datatype Schema = Schema(typeName: string, fields: seq<Field>)

  datatype Value =
    | TextV(text: string)
    | IntV(number: int)
    | FlagV(flag: bool)
    | LocalisedV(local: LocalisedStrings)
    | RawV(raw: Option<Json>)             // None: no bytes captured
    | PtrV(ptr: Option<Value>)            // None: nil
    | ListV(items: seq<Value>)
    | MapV(entries: map<string, Value>)
    | StructV(record: map<string, Value>)

  type Record = map<string, Value>

  /** The text of the zero `uuid.UUID`. */
  const NilUuid := "00000000-0000-0000-0000-000000000000"

  /** The Go type name `encoding/json` puts in a type-mismatch error. */
  function GoTypeName(k: Kind): string
  {
    match k
    case Text => "string"
    case Uuid => "uuid.UUID"
    case Int => "int"
    case Flag => "bool"
    case Localised => "mangodex.LocalisedStrings"
    case Raw => "json.RawMessage"
    case Ptr(t) => "*" + GoTypeName(t)
    case ListOf(e) => "[]" + GoTypeName(e)
    case MapOf(e) => "map[string]" + GoTypeName(e)
    case Struct(s) => s.typeName
  }

  /** Go's zero value of each kind. A field missing from a Record holds its zero value. */
  function Zero(k: Kind): Value
  {
    match k
    case Text => TextV("")
    case Uuid => TextV(NilUuid)
    case Int => IntV(0)
    case Flag => FlagV(false)
    case Localised => LocalisedV(LocalisedStrings(map[]))
    case Raw => RawV(None)
    case Ptr(_) => PtrV(None)
    case ListOf(_) => ListV([])
    case MapOf(_) => MapV(map[])
    case Struct(_) => StructV(map[])
  }

  /** Decoding either runs to the end (remembering the first mismatch) or is stopped by an `UnmarshalJSON` error. */
  datatype Outcome = Decoded(value: Value, saved: Option<Cause>) | Aborted(cause: Cause)

  predicate Fails(o: Outcome) { o.Aborted? || o.saved.Some? }

  function Keep(saved: Option<Cause>, next: Option<Cause>): Option<Cause>
  {
    if saved.Some? then saved else next
  }

  function Mismatch(j: Json, k: Kind, cur: Value): Outcome
  {
    Decoded(cur, Some(TypeMismatch(KindName(j), GoTypeName(k))))
  }

  /** The index of the field a JSON key selects, if any. */
  function FieldIndex(fields: seq<Field>, key: string): (r: Option<nat>)
    ensures r.Some? ==> r.value < |fields| && fields[r.value].name == key
    ensures r.None? ==> forall i :: 0 <= i < |fields| ==> fields[i].name != key
  {
    if fields == [] then None
    else if fields[0].name == key then Some(0)
    else match FieldIndex(fields[1..], key)
      case None => None
      case Some(i) => Some(i + 1)
  }

  /** Decodes `j` into `cur`, a value of kind `k`. */
  function DecodeInto(k: Kind, cur: Value, j: Json): Outcome
    decreases j, k
  {
    match k
    case Text => if j.JNull? then Decoded(cur, None) else TextInto(k, cur, j)
    case Uuid => if j.JNull? then Decoded(cur, None) else TextInto(k, cur, j)
    case Int =>
      if j.JNull? then Decoded(cur, None)
      else if !j.JNumber? then Mismatch(j, k, cur)
      else if j.n.Integer? && MinInt <= j.n.value <= MaxInt then Decoded(IntV(j.n.value), None)
      else Decoded(cur, Some(TypeMismatch("number " + NumberText(j.n), GoTypeName(k))))
    case Flag =>
      if j.JNull? then Decoded(cur, None)
      else if j.JBool? then Decoded(FlagV(j.b), None)
      else Mismatch(j, k, cur)
    case Localised =>
      var (l, err) := LocalisedString.Decoded(j);
      if err.Some? then Aborted(Custom(err.value)) else Decoded(LocalisedV(l), None)
    case Raw => Decoded(RawV(Some(j)), None)
    case Ptr(t) =>
      if j.JNull? then Decoded(PtrV(None), None)
      else
        var inner := if cur.PtrV? && cur.ptr.Some? then cur.ptr.value else Zero(t);
        (match DecodeInto(t, inner, j)
         case Aborted(c) => Aborted(c)
         case Decoded(v, e) => Decoded(PtrV(Some(v)), e))
    case ListOf(e) =>
      if j.JNull? then Decoded(ListV([]), None)
      else if j.JArray? then ElementsInto(e, if cur.ListV? then cur.items else [], j.elems, [], None)
      else Mismatch(j, k, cur)
    case MapOf(e) =>
      if j.JNull? then Decoded(MapV(map[]), None)
      else if j.JObject? then EntriesInto(e, if cur.MapV? then cur.entries else map[], j.members, None)
      else Mismatch(j, k, cur)
    case Struct(sch) =>
      if j.JNull? then Decoded(cur, None)
      else if j.JObject? then MembersInto(sch.fields, if cur.StructV? then cur.record else map[], j.members, None)
      else Mismatch(j, k, cur)
  }

  function TextInto(k: Kind, cur: Value, j: Json): Outcome
  {
    match j
    case JString(s) => Decoded(TextV(s), None)
    case _ => Mismatch(j, k, cur)
  }

  /** Array elements, each decoded into the element already at its index (or a zero one). */
  function ElementsInto(e: Kind, prior: seq<Value>, es: seq<Json>, done: seq<Value>, saved: Option<Cause>): Outcome
    decreases es
  {
    if es == [] then Decoded(ListV(done), saved)
    else
      var i := |done|;
      var into := if i < |prior| then prior[i] else Zero(e);
      match DecodeInto(e, into, es[0])
      case Aborted(c) => Aborted(c)
      case Decoded(v, err) => ElementsInto(e, prior, es[1..], done + [v], Keep(saved, err))
  }

  /** Object members into a map: each decoded into a fresh zero element, then stored under its key. */
  function EntriesInto(e: Kind, entries: map<string, Value>, ms: seq<Member>, saved: Option<Cause>): Outcome
    decreases ms
  {
    if ms == [] then Decoded(MapV(entries), saved)
    else match DecodeInto(e, Zero(e), ms[0].value)
      case Aborted(c) => Aborted(c)
      case Decoded(v, err) => EntriesInto(e, entries[ms[0].key := v], ms[1..], Keep(saved, err))
  }

  /** Object members into a struct: a key that names no field is ignored. */
  function MembersInto(fields: seq<Field>, record: Record, ms: seq<Member>, saved: Option<Cause>): Outcome
    decreases ms
  {
    if ms == [] then Decoded(StructV(record), saved)
    else match FieldIndex(fields, ms[0].key)
      case None => MembersInto(fields, record, ms[1..], saved)
      case Some(i) =>
        var f := fields[i];
        var into := if f.name in record then record[f.name] else Zero(f.kind);
        match DecodeInto(f.kind, into, ms[0].value)
        case Aborted(c) => Aborted(c)
        case Decoded(v, err) => MembersInto(fields, record[f.name := v], ms[1..], Keep(saved, err))
  }

  /** Go's `json.Unmarshal(data, &v)`: the decoded value, or the error it returns. */
  function Unmarshal(k: Kind, cur: Value, j: Json): Result<Value>
  {
    match DecodeInto(k, cur, j)
    case Aborted(c) => Failure(CauseText(c))
    case Decoded(v, None) => Success(v)
    case Decoded(_, Some(c)) => Failure(CauseText(c))
  }

  // ---- Reading fields of a decoded record ----

  function TextField(r: Record, name: string): string
  {
    if name in r && r[name].TextV? then r[name].text else ""
  }

  function IntField(r: Record, name: string): int
  {
    if name in r && r[name].IntV? then r[name].number else 0
  }

  function OptTextField(r: Record, name: string): Option<string>
  {
    if name in r && r[name].PtrV? && r[name].ptr.Some? && r[name].ptr.value.TextV?
    then Some(r[name].ptr.value.text) else None
  }

  function LocalisedField(r: Record, name: string): LocalisedStrings
  {
    if name in r && r[name].LocalisedV? then r[name].local else LocalisedStrings(map[])
  }

  function TextListField(r: Record, name: string): seq<string>
  {
    if name in r && r[name].ListV? then
      seq(|r[name].items|, i requires 0 <= i < |r[name].items| =>
        if r[name].items[i].TextV? then r[name].items[i].text else "")
    else []
  }

  function RawField(r: Record, name: string): Option<Json>
  {
    if name in r && r[name].RawV? then r[name].raw else None
  }

  // ---- Properties of the decoder ----

  /** The JSON kind a Go kind accepts, for values other than null. */
  predicate Accepts(k: Kind, j: Json)
  {
    match k
    case Text => j.JString?
    case Uuid => j.JString?
    case Int => j.JNumber?
    case Flag => j.JBool?
    case Localised => true
    case Raw => true
    case Ptr(t) => j.JNull? || Accepts(t, j)
    case ListOf(_) => j.JArray?
    case MapOf(_) => j.JObject?
    case Struct(_) => j.JObject?
  }

  /** A non-null value of a kind the Go type does not accept always fails, whatever it is decoded into. */
  lemma {:induction false} WrongKindFails(k: Kind, cur: Value, j: Json)
    requires !j.JNull? && !Accepts(k, j)
    ensures Fails(DecodeInto(k, cur, j))
    decreases k
  {
    if k.Ptr? {
      var inner := if cur.PtrV? && cur.ptr.Some? then cur.ptr.value else Zero(k.target);
      WrongKindFails(k.target, inner, j);
    }
  }

  lemma {:induction false} ElementsKeepError(e: Kind, prior: seq<Value>, es: seq<Json>, done: seq<Value>, saved: Option<Cause>)
    requires saved.Some?
    ensures Fails(ElementsInto(e, prior, es, done, saved))
    decreases es
  {
    if es != [] {
      var i := |done|;
      var into := if i < |prior| then prior[i] else Zero(e);
      match DecodeInto(e, into, es[0])
      case Aborted(c) =>
      case Decoded(v, err) => ElementsKeepError(e, prior, es[1..], done + [v], Keep(saved, err));
    }
  }

  /** An array fails to decode as soon as one element is of a kind its element type does not accept. */
  lemma {:induction false} ElementsFail(e: Kind, prior: seq<Value>, es: seq<Json>, done: seq<Value>, saved: Option<Cause>, bad: nat)
    requires bad < |es| && !es[bad].JNull? && !Accepts(e, es[bad])
    ensures Fails(ElementsInto(e, prior, es, done, saved))
    decreases es
  {
    var i := |done|;
    var into := if i < |prior| then prior[i] else Zero(e);
    match DecodeInto(e, into, es[0])
    case Aborted(c) =>
    case Decoded(v, err) =>
      if bad == 0 {
        WrongKindFails(e, into, es[0]);
        ElementsKeepError(e, prior, es[1..], done + [v], Keep(saved, err));
      } else {
        ElementsFail(e, prior, es[1..], done + [v], Keep(saved, err), bad - 1);
      }
  }

  lemma {:induction false} EntriesKeepError(e: Kind, entries: map<string, Value>, ms: seq<Member>, saved: Option<Cause>)
    requires saved.Some?
    ensures Fails(EntriesInto(e, entries, ms, saved))
    decreases ms
  {
    if ms != [] {
      match DecodeInto(e, Zero(e), ms[0].value)
      case Aborted(c) =>
      case Decoded(v, err) => EntriesKeepError(e, entries[ms[0].key := v], ms[1..], Keep(saved, err));
    }
  }

  /** A map fails to decode when one member's value fails to decode as an element. */
  lemma {:induction false} EntriesFail(e: Kind, entries: map<string, Value>, ms: seq<Member>, saved: Option<Cause>, bad: nat)
    requires bad < |ms| && Fails(DecodeInto(e, Zero(e), ms[bad].value))
    ensures Fails(EntriesInto(e, entries, ms, saved))
    decreases ms
  {
    match DecodeInto(e, Zero(e), ms[0].value)
    case Aborted(c) =>
    case Decoded(v, err) =>
      if bad == 0 {
        EntriesKeepError(e, entries[ms[0].key := v], ms[1..], Keep(saved, err));
      } else {
        EntriesFail(e, entries[ms[0].key := v], ms[1..], Keep(saved, err), bad - 1);
      }
  }

  lemma {:induction false} MembersKeepError(fields: seq<Field>, record: Record, ms: seq<Member>, saved: Option<Cause>)
    requires saved.Some?
    ensures Fails(MembersInto(fields, record, ms, saved))
    decreases ms
  {
    if ms != [] {
      match FieldIndex(fields, ms[0].key)
      case None => MembersKeepError(fields, record, ms[1..], saved);
      case Some(i) =>
        var f := fields[i];
        var into := if f.name in record then record[f.name] else Zero(f.kind);
        match DecodeInto(f.kind, into, ms[0].value)
        case Aborted(c) =>
        case Decoded(v, err) => MembersKeepError(fields, record[f.name := v], ms[1..], Keep(saved, err));
    }
  }

  /** A struct fails to decode when a member names a field whose kind does not accept the member's value. */
  lemma {:induction false} MembersFail(fields: seq<Field>, record: Record, ms: seq<Member>, saved: Option<Cause>, bad: nat, f: nat)
    requires bad < |ms| && f < |fields|
    requires FieldIndex(fields, ms[bad].key) == Some(f)
    requires !ms[bad].value.JNull? && !Accepts(fields[f].kind, ms[bad].value)
    ensures Fails(MembersInto(fields, record, ms, saved))
    decreases ms
  {
    match FieldIndex(fields, ms[0].key)
    case None => MembersFail(fields, record, ms[1..], saved, bad - 1, f);
    case Some(i) =>
      var fi := fields[i];
      var into := if fi.name in record then record[fi.name] else Zero(fi.kind);
      match DecodeInto(fi.kind, into, ms[0].value)
      case Aborted(c) =>
      case Decoded(v, err) =>
        if bad == 0 {
          WrongKindFails(fi.kind, into, ms[0].value);
          MembersKeepError(fields, record[fi.name := v], ms[1..], Keep(saved, err));
        } else {
          MembersFail(fields, record[fi.name := v], ms[1..], Keep(saved, err), bad - 1, f);
        }
  }

  /** Null decodes to a struct's current value unchanged; raw capture never fails. */
  lemma NullAndRaw(s: Schema, cur: Value, j: Json)
    ensures Unmarshal(Struct(s), cur, JNull) == Success(cur)
    ensures Unmarshal(Raw, cur, j) == Success(RawV(Some(j)))
  {
  }

  // ---- Inputs that fit ----

  /** No later member repeats member i's key, so member i is the one a map or struct keeps. */
  predicate LastWithKey(ms: seq<Member>, i: int)
    requires 0 <= i < |ms|
  {
    forall j :: i < j < |ms| ==> ms[j].key != ms[i].key
  }

  /** A map decodes without error when every member's value does, and each key holds the decoding of its last member. */
  lemma {:induction false} EntriesFit(e: Kind, entries: map<string, Value>, ms: seq<Member>, saved: Option<Cause>)
    requires forall i :: 0 <= i < |ms| ==> !Fails(DecodeInto(e, Zero(e), ms[i].value))
    ensures EntriesInto(e, entries, ms, saved).Decoded?
    ensures EntriesInto(e, entries, ms, saved).saved == saved
    ensures EntriesInto(e, entries, ms, saved).value.MapV?
    ensures forall k :: k in entries && (forall j :: 0 <= j < |ms| ==> ms[j].key != k) ==>
      k in EntriesInto(e, entries, ms, saved).value.entries && EntriesInto(e, entries, ms, saved).value.entries[k] == entries[k]
    ensures forall i :: 0 <= i < |ms| && LastWithKey(ms, i) && DecodeInto(e, Zero(e), ms[i].value).Decoded? ==>
      ms[i].key in EntriesInto(e, entries, ms, saved).value.entries &&
      EntriesInto(e, entries, ms, saved).value.entries[ms[i].key] == DecodeInto(e, Zero(e), ms[i].value).value
    decreases ms
  {
    if ms != [] {
      var v := DecodeInto(e, Zero(e), ms[0].value).value;
      TailDecodes(e, ms);
      EntriesFit(e, entries[ms[0].key := v], ms[1..], saved);
      var o := EntriesInto(e, entries[ms[0].key := v], ms[1..], saved);
      assert EntriesInto(e, entries, ms, saved) == o;
      EntriesStep(e, entries, ms, v, o.value.entries);
    }
  }

  /** The step of `EntriesFit`: what the tail leaves in the map, given the first member's value stored first. */
  lemma EntriesStep(e: Kind, entries: map<string, Value>, ms: seq<Member>, v: Value, result: map<string, Value>)
    requires ms != [] && DecodeInto(e, Zero(e), ms[0].value) == Decoded(v, None)
    requires forall k :: k in entries[ms[0].key := v] && (forall j :: 0 <= j < |ms[1..]| ==> ms[1..][j].key != k) ==>
      k in result && result[k] == entries[ms[0].key := v][k]
    requires forall i :: 0 <= i < |ms[1..]| && LastWithKey(ms[1..], i) && DecodeInto(e, Zero(e), ms[1..][i].value).Decoded? ==>
      ms[1..][i].key in result && result[ms[1..][i].key] == DecodeInto(e, Zero(e), ms[1..][i].value).value
    ensures forall k :: k in entries && (forall j :: 0 <= j < |ms| ==> ms[j].key != k) ==>
      k in result && result[k] == entries[k]
    ensures forall i :: 0 <= i < |ms| && LastWithKey(ms, i) && DecodeInto(e, Zero(e), ms[i].value).Decoded? ==>
      ms[i].key in result && result[ms[i].key] == DecodeInto(e, Zero(e), ms[i].value).value
  {
    forall i | 0 <= i < |ms| && LastWithKey(ms, i) && DecodeInto(e, Zero(e), ms[i].value).Decoded?
      ensures ms[i].key in result && result[ms[i].key] == DecodeInto(e, Zero(e), ms[i].value).value
    {
      if i == 0 {
        KeyNotInTail(ms, ms[0].key);
      } else {
        LastWithKeyTail(ms, i);
      }
    }
    forall k | k in entries && (forall j :: 0 <= j < |ms| ==> ms[j].key != k)
      ensures k in result && result[k] == entries[k]
    {
      KeyNotInTail(ms, k);
    }
  }

  lemma TailDecodes(e: Kind, ms: seq<Member>)
    requires ms != [] && forall i :: 0 <= i < |ms| ==> !Fails(DecodeInto(e, Zero(e), ms[i].value))
    ensures forall i :: 0 <= i < |ms[1..]| ==> !Fails(DecodeInto(e, Zero(e), ms[1..][i].value))
  {
    forall i | 0 <= i < |ms[1..]|
      ensures !Fails(DecodeInto(e, Zero(e), ms[1..][i].value))
    {
      assert ms[1..][i] == ms[i + 1];
    }
  }

  /** A key no later member names is named by no member of the tail. */
  lemma KeyNotInTail(ms: seq<Member>, k: string)
    requires ms != [] && forall j :: 0 < j < |ms| ==> ms[j].key != k
    ensures forall j :: 0 <= j < |ms[1..]| ==> ms[1..][j].key != k
  {
    forall j | 0 <= j < |ms[1..]|
      ensures ms[1..][j].key != k
    {
      assert ms[1..][j] == ms[j + 1];
    }
  }

  lemma LastWithKeyTail(ms: seq<Member>, i: int)
    requires 0 < i < |ms| && LastWithKey(ms, i)
    ensures ms[1..][i - 1] == ms[i] && LastWithKey(ms[1..], i - 1)
  {
    forall j | i - 1 < j < |ms[1..]|
      ensures ms[1..][j].key != ms[1..][i - 1].key
    {
      assert ms[1..][j] == ms[j + 1];
    }
  }

  predicate DistinctKeys(ms: seq<Member>)
  {
    forall i, j :: 0 <= i < j < |ms| ==> ms[i].key != ms[j].key
  }

  /** What a field holds before a member names it: its current value, or its zero value. */
  function Start(record: Record, f: Field): Value
  {
    if f.name in record then record[f.name] else Zero(f.kind)
  }

  /** The value a member decodes to in the field it names; None for a member naming no field, or one that aborts. */
  function MemberValue(fields: seq<Field>, record: Record, m: Member): Option<Value>
  {
    match FieldIndex(fields, m.key)
    case None => None
    case Some(f) =>
      match DecodeInto(fields[f].kind, Start(record, fields[f]), m.value)
      case Aborted(_) => None
      case Decoded(v, _) => Some(v)
  }

  /** Every member that names a field decodes into that field without error. */
  predicate MembersFit(fields: seq<Field>, record: Record, ms: seq<Member>)
  {
    forall i :: 0 <= i < |ms| ==>
      match FieldIndex(fields, ms[i].key)
      case None => true
      case Some(f) => !Fails(DecodeInto(fields[f].kind, Start(record, fields[f]), ms[i].value))
  }

  /**
   * An object with distinct keys whose members fit decodes without error: a
   * member naming a field sets it to the member's decoded value, other fields
   * keep their value, and members naming no field are ignored.
   */
  lemma {:induction false} MembersFitDecode(fields: seq<Field>, record: Record, ms: seq<Member>, saved: Option<Cause>)
    requires DistinctKeys(ms) && MembersFit(fields, record, ms)
    ensures MembersInto(fields, record, ms, saved).Decoded?
    ensures MembersInto(fields, record, ms, saved).saved == saved
    ensures MembersInto(fields, record, ms, saved).value.StructV?
    ensures forall k :: k in record && (forall j :: 0 <= j < |ms| ==> ms[j].key != k) ==>
      k in MembersInto(fields, record, ms, saved).value.record &&
      MembersInto(fields, record, ms, saved).value.record[k] == record[k]
    ensures forall i :: 0 <= i < |ms| && MemberValue(fields, record, ms[i]).Some? ==>
      ms[i].key in MembersInto(fields, record, ms, saved).value.record &&
      MembersInto(fields, record, ms, saved).value.record[ms[i].key] == MemberValue(fields, record, ms[i]).value
    ensures forall k :: k in MembersInto(fields, record, ms, saved).value.record ==>
      k in record || exists i :: 0 <= i < |ms| && ms[i].key == k && MemberValue(fields, record, ms[i]).Some?
    decreases ms
  {
    if ms != [] {
      var tail := ms[1..];
      DistinctTail(ms);
      var next := match MemberValue(fields, record, ms[0])
        case None => record
        case Some(v) => record[ms[0].key := v];
      match FieldIndex(fields, ms[0].key) {
        case None =>
          FitTail(fields, record, ms);
        case Some(f) =>
          FitTailAfterFirst(fields, record, ms, f, MemberValue(fields, record, ms[0]).value);
      }
      assert MembersInto(fields, record, ms, saved) == MembersInto(fields, next, tail, saved);
      MembersFitDecode(fields, next, tail, saved);
      MembersStep(fields, record, ms, next, MembersInto(fields, next, tail, saved).value.record);
    }
  }

  /** The step of `MembersFitDecode`: what the tail leaves in the record, given the first member's field set first. */
  lemma MembersStep(fields: seq<Field>, record: Record, ms: seq<Member>, next: Record, result: Record)
    requires ms != [] && DistinctKeys(ms)
    requires next == match MemberValue(fields, record, ms[0])
      case None => record
      case Some(v) => record[ms[0].key := v]
    requires forall j :: 0 <= j < |ms[1..]| ==> MemberValue(fields, next, ms[1..][j]) == MemberValue(fields, record, ms[1..][j])
    requires forall k :: k in next && (forall j :: 0 <= j < |ms[1..]| ==> ms[1..][j].key != k) ==>
      k in result && result[k] == next[k]
    requires forall i :: 0 <= i < |ms[1..]| && MemberValue(fields, next, ms[1..][i]).Some? ==>
      ms[1..][i].key in result && result[ms[1..][i].key] == MemberValue(fields, next, ms[1..][i]).value
    requires forall k :: k in result ==>
      k in next || exists i :: 0 <= i < |ms[1..]| && ms[1..][i].key == k && MemberValue(fields, next, ms[1..][i]).Some?
    ensures forall k :: k in record && (forall j :: 0 <= j < |ms| ==> ms[j].key != k) ==>
      k in result && result[k] == record[k]
    ensures forall i :: 0 <= i < |ms| && MemberValue(fields, record, ms[i]).Some? ==>
      ms[i].key in result && result[ms[i].key] == MemberValue(fields, record, ms[i]).value
    ensures forall k :: k in result ==>
      k in record || exists i :: 0 <= i < |ms| && ms[i].key == k && MemberValue(fields, record, ms[i]).Some?
  {
    var tail := ms[1..];
    DistinctTail(ms);
    forall k | k in record && (forall j :: 0 <= j < |ms| ==> ms[j].key != k)
      ensures k in result && result[k] == record[k]
    {
      KeyNotInTail(ms, k);
    }
    forall i | 0 <= i < |ms| && MemberValue(fields, record, ms[i]).Some?
      ensures ms[i].key in result && result[ms[i].key] == MemberValue(fields, record, ms[i]).value
    {
      if i > 0 {
        assert tail[i - 1] == ms[i];
      }
    }
    forall k | k in result
      ensures k in record || exists i :: 0 <= i < |ms| && ms[i].key == k && MemberValue(fields, record, ms[i]).Some?
    {
      if k !in next {
        var i :| 0 <= i < |tail| && tail[i].key == k && MemberValue(fields, next, tail[i]).Some?;
        assert ms[i + 1] == tail[i];
      }
    }
  }

  lemma DistinctTail(ms: seq<Member>)
    requires ms != [] && DistinctKeys(ms)
    ensures DistinctKeys(ms[1..])
    ensures forall j :: 0 <= j < |ms[1..]| ==> ms[1..][j] == ms[j + 1] && ms[1..][j].key != ms[0].key
  {
    var tail := ms[1..];
    forall i, j | 0 <= i < j < |tail|
      ensures tail[i].key != tail[j].key
    {
      assert tail[i] == ms[i + 1] && tail[j] == ms[j + 1];
    }
  }

  lemma FitTail(fields: seq<Field>, record: Record, ms: seq<Member>)
    requires ms != [] && MembersFit(fields, record, ms)
    ensures MembersFit(fields, record, ms[1..])
  {
    var tail := ms[1..];
    forall j | 0 <= j < |tail|
      ensures match FieldIndex(fields, tail[j].key)
        case None => true
        case Some(f) => !Fails(DecodeInto(fields[f].kind, Start(record, fields[f]), tail[j].value))
    {
      assert tail[j] == ms[j + 1];
    }
  }

  /** Setting the first member's field changes nothing the later members, all with other keys, decode into. */
  lemma FitTailAfterFirst(fields: seq<Field>, record: Record, ms: seq<Member>, f: nat, v: Value)
    requires ms != [] && DistinctKeys(ms) && MembersFit(fields, record, ms)
    requires FieldIndex(fields, ms[0].key) == Some(f)
    ensures MembersFit(fields, record[fields[f].name := v], ms[1..])
    ensures forall j :: 0 <= j < |ms[1..]| ==>
      MemberValue(fields, record[fields[f].name := v], ms[1..][j]) == MemberValue(fields, record, ms[1..][j])
  {
    var tail := ms[1..];
    var next := record[fields[f].name := v];
    DistinctTail(ms);
    FitTail(fields, record, ms);
    forall j | 0 <= j < |tail|
      ensures MemberValue(fields, next, tail[j]) == MemberValue(fields, record, tail[j])
      ensures match FieldIndex(fields, tail[j].key)
        case None => true
        case Some(g) => !Fails(DecodeInto(fields[g].kind, Start(next, fields[g]), tail[j].value))
    {
      match FieldIndex(fields, tail[j].key)
      case None =>
      case Some(g) =>
        assert Start(next, fields[g]) == Start(record, fields[g]);
    }
  }

  /** One member that names field `f` and decodes cleanly: the field is set and decoding moves on. */
  lemma MemberSets(fields: seq<Field>, record: Record, ms: seq<Member>, saved: Option<Cause>, f: nat, v: Value)
    requires ms != [] && FieldIndex(fields, ms[0].key) == Some(f)
    requires DecodeInto(fields[f].kind, Start(record, fields[f]), ms[0].value) == Decoded(v, None)
    ensures MembersInto(fields, record, ms, saved) == MembersInto(fields, record[ms[0].key := v], ms[1..], saved)
  {
  }

  /** A string member naming a string field sets it. */
  lemma TextMemberSets(fields: seq<Field>, record: Record, ms: seq<Member>, saved: Option<Cause>, f: nat)
    requires ms != [] && FieldIndex(fields, ms[0].key) == Some(f) && fields[f].kind == Text && ms[0].value.JString?
    ensures MembersInto(fields, record, ms, saved) == MembersInto(fields, record[ms[0].key := TextV(ms[0].value.s)], ms[1..], saved)
  {
  }

  /** An integer member within Go's int range naming an int field sets it. */
  lemma IntMemberSets(fields: seq<Field>, record: Record, ms: seq<Member>, saved: Option<Cause>, f: nat, n: int)
    requires ms != [] && FieldIndex(fields, ms[0].key) == Some(f) && fields[f].kind == Int
    requires ms[0].value == JNumber(Integer(n)) && MinInt <= n <= MaxInt
    ensures MembersInto(fields, record, ms, saved) == MembersInto(fields, record[ms[0].key := IntV(n)], ms[1..], saved)
  {
  }

  /** Any member naming a raw field is kept as given. */
  lemma RawMemberSets(fields: seq<Field>, record: Record, ms: seq<Member>, saved: Option<Cause>, f: nat)
    requires ms != [] && FieldIndex(fields, ms[0].key) == Some(f) && fields[f].kind == Raw
    ensures MembersInto(fields, record, ms, saved) == MembersInto(fields, record[ms[0].key := RawV(Some(ms[0].value))], ms[1..], saved)
  {
  }

  // ---- Arrays of strings ----

  /** A list of texts as JSON strings. */
  function JStrings(ss: seq<string>): seq<Json>
  {
    if ss == [] then [] else [JString(ss[0])] + JStrings(ss[1..])
  }

  /** A list of texts as decoded string values. */
  function TextVs(ss: seq<string>): seq<Value>
  {
    seq(|ss|, i requires 0 <= i < |ss| => TextV(ss[i]))
  }

  /** An array of strings decodes element by element to those texts, without error. */
  lemma {:induction false} TextElements(prior: seq<Value>, ss: seq<string>, done: seq<Value>, saved: Option<Cause>)
    ensures ElementsInto(Text, prior, JStrings(ss), done, saved) == Decoded(ListV(done + TextVs(ss)), saved)
    decreases ss
  {
    if ss == [] {
      assert done + TextVs(ss) == done;
    } else {
      TextElements(prior, ss[1..], done + [TextV(ss[0])], saved);
      assert done + [TextV(ss[0])] + TextVs(ss[1..]) == done + TextVs(ss);
    }
  }

  /** A `[]string` decoded from an array of strings holds exactly those strings. */
  lemma TextArrayDecodes(ss: seq<string>)
    ensures DecodeInto(ListOf(Text), Zero(ListOf(Text)), JArray(JStrings(ss))) == Decoded(ListV(TextVs(ss)), None)
  {
    TextElements([], ss, [], None);
    assert [] + TextVs(ss) == TextVs(ss);
  }

  /** A `[]string` field decoded from an array of strings reads back as those strings. */
  lemma TextListFieldOf(r: Record, name: string, ss: seq<string>)
    requires name in r && r[name] == ListV(TextVs(ss))
    ensures TextListField(r, name) == ss
  {
  }
}
