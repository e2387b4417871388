/**
 * A relationship: a reference to another entity whose `attributes` payload
 * takes the shape its `type` tag names. Decoding reads the id, the tag and the
 * raw attributes first, picks the attributes variant from the tag, then
 * decodes the raw attributes into it.
 */
module Relationship {
  import opened Wrappers
  import opened Json
  import opened Decode
  import opened Schemas

  // The relationship type tags.
  const TypeManga := "manga"
  const TypeChapter := "chapter"
  const TypeCoverArt := "cover_art"
  const TypeAuthor := "author"
  const TypeArtist := "artist"
  const TypeScanlationGroup := "scanlation_group"
  const TypeTag := "tag"
  const TypeUser := "user"
  const TypeCustomList := "custom_list"

  const RelationshipTypes := [TypeManga, TypeChapter, TypeCoverArt, TypeAuthor, TypeArtist,
                              TypeScanlationGroup, TypeTag, TypeUser, TypeCustomList]

  /** The tags whose attributes decode into a typed struct. */
  predicate Typed(t: string)
  {
    t == TypeManga || t == TypeAuthor || t == TypeScanlationGroup || t == TypeCoverArt
  }

  /** What a relationship's `Attributes` holds: nothing yet, one of the typed structs, or raw bytes. */
  datatype Attributes =
    | Unset
    | MangaAttrs(manga: Record)
    | AuthorAttrs(author: Record)
    | ScanlationGroupAttrs(group: Record)
    | CoverAttrs(cover: Record)
    | RawAttrs(raw: Option<Json>)

  predicate SameVariant(a: Attributes, b: Attributes)
  {
    (a.Unset? && b.Unset?) || (a.MangaAttrs? && b.MangaAttrs?) || (a.AuthorAttrs? && b.AuthorAttrs?)
    || (a.ScanlationGroupAttrs? && b.ScanlationGroupAttrs?) || (a.CoverAttrs? && b.CoverAttrs?)
    || (a.RawAttrs? && b.RawAttrs?)
  }

  /** The empty attributes value a tag selects. */
  function Select(t: string): (a: Attributes)
    ensures a.MangaAttrs? <==> t == TypeManga
    ensures a.AuthorAttrs? <==> t == TypeAuthor
    ensures a.ScanlationGroupAttrs? <==> t == TypeScanlationGroup
    ensures a.CoverAttrs? <==> t == TypeCoverArt
    ensures a.RawAttrs? <==> !Typed(t)
    ensures a.RawAttrs? ==> a.raw.None?
  {
    if t == TypeManga then MangaAttrs(map[])
    else if t == TypeAuthor then AuthorAttrs(map[])
    else if t == TypeScanlationGroup then ScanlationGroupAttrs(map[])
    else if t == TypeCoverArt then CoverAttrs(map[])
    else RawAttrs(None)
  }

  /** The struct type a typed variant decodes into; None for the raw variant and for unset attributes. */
  function SchemaFor(a: Attributes): Option<Schema>
  {
    match a
    case MangaAttrs(_) => Some(MangaAttributesSchema)
    case AuthorAttrs(_) => Some(AuthorAttributesSchema)
    case ScanlationGroupAttrs(_) => Some(ScanlationGroupAttributesSchema)
    case CoverAttrs(_) => Some(CoverAttributesSchema)
    case _ => None
  }

  /** The record a typed variant holds. */
  function Payload(a: Attributes): Record
  {
    match a
    case MangaAttrs(r) => r
    case AuthorAttrs(r) => r
    case ScanlationGroupAttrs(r) => r
    case CoverAttrs(r) => r
    case _ => map[]
  }

  function RecordOf(v: Value): Record
  {
    if v.StructV? then v.record else map[]
  }

  /**
   * Decodes raw attributes into the selected variant, as `json.Unmarshal(raw, a.Attributes)`
   * does: a typed variant succeeds exactly when its struct decodes, and then
   * holds the decoded record; the raw variant keeps the bytes.
   */
  function DecodeAttributes(selected: Attributes, raw: Json): (r: Result<Attributes>)
    ensures r.Success? ==> SameVariant(r.value, selected)
    ensures selected.RawAttrs? ==> r == Success(RawAttrs(Some(raw)))
    ensures SchemaFor(selected).Some? ==>
      var decoded := Unmarshal(Struct(SchemaFor(selected).value), StructV(Payload(selected)), raw);
      (r.Success? <==> decoded.Success?) &&
      (r.Success? ==> Payload(r.value) == RecordOf(decoded.value)) &&
      (r.Failure? ==> r.error == decoded.error)
  {
    match selected
    case MangaAttrs(r) => Rewrap(Unmarshal(Struct(MangaAttributesSchema), StructV(r), raw), selected)
    case AuthorAttrs(r) => Rewrap(Unmarshal(Struct(AuthorAttributesSchema), StructV(r), raw), selected)
    case ScanlationGroupAttrs(r) => Rewrap(Unmarshal(Struct(ScanlationGroupAttributesSchema), StructV(r), raw), selected)
    case CoverAttrs(r) => Rewrap(Unmarshal(Struct(CoverAttributesSchema), StructV(r), raw), selected)
    case RawAttrs(_) => Success(RawAttrs(Some(raw)))
    case Unset => Success(Unset)
  }

  /** Puts a decoded struct back into the variant it was decoded for. */
  function Rewrap(decoded: Result<Value>, variant: Attributes): (r: Result<Attributes>)
    ensures r.Success? <==> decoded.Success?
    ensures r.Success? ==> SameVariant(r.value, variant)
    ensures r.Success? && SchemaFor(variant).Some? ==> Payload(r.value) == RecordOf(decoded.value)
    ensures r.Failure? ==> r.error == decoded.error
  {
    match decoded
    case Failure(e) => Failure(e)
    case Success(v) =>
      var rec := RecordOf(v);
      Success(match variant
        case MangaAttrs(_) => MangaAttrs(rec)
        case AuthorAttrs(_) => AuthorAttrs(rec)
        case ScanlationGroupAttrs(_) => ScanlationGroupAttrs(rec)
        case CoverAttrs(_) => CoverAttrs(rec)
        case RawAttrs(raw) => RawAttrs(raw)
        case Unset => Unset)
  }

  /**
   * Under a typed tag, an object with distinct keys whose members fit the
   * struct decodes: each member naming a field sets that field to its decoded
   * value, and nothing else is set.
   */
  lemma TypedAttributesFit(t: string, ms: seq<Member>)
    requires Typed(t) && DistinctKeys(ms)
    requires MembersFit(SchemaFor(Select(t)).value.fields, map[], ms)
    ensures DecodeAttributes(Select(t), JObject(ms)).Success?
    ensures var fields := SchemaFor(Select(t)).value.fields;
      var p := Payload(DecodeAttributes(Select(t), JObject(ms)).value);
      (forall i :: 0 <= i < |ms| && MemberValue(fields, map[], ms[i]).Some? ==>
        ms[i].key in p && p[ms[i].key] == MemberValue(fields, map[], ms[i]).value) &&
      (forall k :: k in p ==> exists i :: 0 <= i < |ms| && ms[i].key == k && MemberValue(fields, map[], ms[i]).Some?)
  {
    MembersFitDecode(SchemaFor(Select(t)).value.fields, map[], ms, None);
  }

  /** A cover relationship's file name reaches its attributes. */
  lemma CoverFileName(fileName: string)
    ensures DecodeAttributes(Select(TypeCoverArt), JObject([Member("fileName", JString(fileName))])) ==
      Success(CoverAttrs(map["fileName" := TextV(fileName)]))
  {
    var fields := CoverAttributesSchema.fields;
    assert FieldIndex(fields[1..], "fileName") == Some(0);
    assert FieldIndex(fields, "fileName") == Some(1);
    var ms := [Member("fileName", JString(fileName))];
    assert MembersInto(fields, map[], ms, None) == MembersInto(fields, map["fileName" := TextV(fileName)], ms[1..], None);
  }

  /** The fields the first stage reads: the id, the tag, and the attributes left undecoded. */
  datatype Header = Header(id: string, relType: string, attributes: Option<Json>)

  const HeaderSchema := Schema("struct { ID uuid.UUID; Type mangodex.RelationshipType; Attributes json.RawMessage }", [
    Field("id", Uuid),
    Field("type", Text),
    Field("attributes", Raw)
  ])

  function DecodeHeader(j: Json): (r: Result<Header>)
    ensures (j.JArray? || j.JString? || j.JNumber? || j.JBool?) ==> r.Failure?
    ensures j.JNull? ==> r == Success(Header(NilUuid, "", None))
  {
    match Unmarshal(Struct(HeaderSchema), Zero(Struct(HeaderSchema)), j)
    case Failure(e) => Failure(e)
    case Success(v) =>
      var rec := if v.StructV? then v.record else map[];
      Success(Header(
        IdOf(rec),
        TextField(rec, "type"),
        RawField(rec, "attributes")))
  }

  /** The id a decoded header record holds: the nil UUID until a string sets it. */
  function IdOf(rec: Record): string
  {
    if "id" in rec && rec["id"].TextV? then rec["id"].text else NilUuid
  }

  function Or(o: Option<string>, default: string): string
  {
    if o.Some? then o.value else default
  }

  /** The value of the last member named `key`. */
  function LastMember(ms: seq<Member>, key: string): Option<Json>
  {
    if ms == [] then None
    else if LastMember(ms[1..], key).Some? then LastMember(ms[1..], key)
    else if ms[0].key == key then Some(ms[0].value)
    else None
  }

  /** The text of the last string member named `key`; a null member leaves the field as it was. */
  function LastText(ms: seq<Member>, key: string): Option<string>
  {
    if ms == [] then None
    else if LastText(ms[1..], key).Some? then LastText(ms[1..], key)
    else if ms[0].key == key && ms[0].value.JString? then Some(ms[0].value.s)
    else None
  }

  /** Every member naming the id or the tag is a string or null. */
  predicate HeaderFits(ms: seq<Member>)
  {
    forall i :: 0 <= i < |ms| && (ms[i].key == "id" || ms[i].key == "type") ==>
      ms[i].value.JString? || ms[i].value.JNull?
  }

  lemma HeaderFieldIndex(key: string)
    ensures FieldIndex(HeaderSchema.fields, key) ==
      if key == "id" then Some(0) else if key == "type" then Some(1)
      else if key == "attributes" then Some(2) else None
  {
    var fields := HeaderSchema.fields;
    assert fields[1..][1..][1..] == [];
  }

  /** Decoding members into a header record: the last string id and tag, and the last attributes member, win. */
  lemma {:induction false} HeaderMembers(record: Record, ms: seq<Member>, saved: Option<Cause>)
    requires HeaderFits(ms)
    ensures var o := MembersInto(HeaderSchema.fields, record, ms, saved);
      o.Decoded? && o.saved == saved && o.value.StructV? &&
      IdOf(o.value.record) == Or(LastText(ms, "id"), IdOf(record)) &&
      TextField(o.value.record, "type") == Or(LastText(ms, "type"), TextField(record, "type")) &&
      RawField(o.value.record, "attributes") ==
        (if LastMember(ms, "attributes").Some? then LastMember(ms, "attributes") else RawField(record, "attributes"))
    decreases ms
  {
    if ms != [] {
      HeaderFitsTail(ms);
      HeaderStep(record, ms, saved);
      NextHeaderFields(record, ms[0]);
      HeaderMembers(NextHeader(record, ms[0]), ms[1..], saved);
    }
  }

  /** The header record after one member: the field the member names, if any, decoded from it. */
  function NextHeader(record: Record, m: Member): Record
    requires m.key == "id" || m.key == "type" ==> m.value.JString? || m.value.JNull?
  {
    if m.key == "id" || m.key == "type" then
      record[m.key := if m.value.JString? then TextV(m.value.s) else Start(record, Field(m.key, if m.key == "id" then Uuid else Text))]
    else if m.key == "attributes" then record[m.key := RawV(Some(m.value))]
    else record
  }

  lemma NextHeaderFields(record: Record, m: Member)
    requires m.key == "id" || m.key == "type" ==> m.value.JString? || m.value.JNull?
    ensures IdOf(NextHeader(record, m)) == if m.key == "id" && m.value.JString? then m.value.s else IdOf(record)
    ensures TextField(NextHeader(record, m), "type") ==
      if m.key == "type" && m.value.JString? then m.value.s else TextField(record, "type")
    ensures RawField(NextHeader(record, m), "attributes") ==
      if m.key == "attributes" then Some(m.value) else RawField(record, "attributes")
  {
  }

  lemma HeaderStep(record: Record, ms: seq<Member>, saved: Option<Cause>)
    requires ms != [] && (ms[0].key == "id" || ms[0].key == "type" ==> ms[0].value.JString? || ms[0].value.JNull?)
    ensures MembersInto(HeaderSchema.fields, record, ms, saved) == MembersInto(HeaderSchema.fields, NextHeader(record, ms[0]), ms[1..], saved)
  {
    HeaderFieldIndex(ms[0].key);
  }

  lemma HeaderFitsTail(ms: seq<Member>)
    requires ms != [] && HeaderFits(ms)
    ensures HeaderFits(ms[1..]) && (ms[0].key == "id" || ms[0].key == "type" ==> ms[0].value.JString? || ms[0].value.JNull?)
  {
    forall i | 0 <= i < |ms[1..]| && (ms[1..][i].key == "id" || ms[1..][i].key == "type")
      ensures ms[1..][i].value.JString? || ms[1..][i].value.JNull?
    {
      assert ms[1..][i] == ms[i + 1];
    }
  }

  /**
   * An object decodes as a header exactly when its id and type members are
   * strings or null; the header then holds the last string id (else the nil
   * UUID), the last string tag (else empty) and the last attributes member.
   */
  lemma HeaderOfObject(ms: seq<Member>)
    ensures DecodeHeader(JObject(ms)).Success? <==> HeaderFits(ms)
    ensures HeaderFits(ms) ==>
      DecodeHeader(JObject(ms)) ==
        Success(Header(Or(LastText(ms, "id"), NilUuid), Or(LastText(ms, "type"), ""), LastMember(ms, "attributes")))
  {
    if HeaderFits(ms) {
      HeaderMembers(map[], ms, None);
    } else {
      var bad :| 0 <= bad < |ms| && (ms[bad].key == "id" || ms[bad].key == "type") &&
        !(ms[bad].value.JString? || ms[bad].value.JNull?);
      HeaderFieldIndex(ms[bad].key);
      MembersFail(HeaderSchema.fields, map[], ms, None, bad, if ms[bad].key == "id" then 0 else 1);
    }
  }

  const WrapPrefix := "error unmarshalling relationship of type "

  /** The error for attributes that do not fit: the tag, the cause, and the whole input. */
  function WrapError(relType: string, cause: string, data: string): string
  {
    WrapPrefix + relType + ": " + cause + ", " + data
  }

  predicate At(s: string, part: string, i: int)
  {
    0 <= i <= |s| - |part| && s[i..i + |part|] == part
  }

  ghost predicate Contains(s: string, part: string)
  {
    exists i :: At(s, part, i)
  }

  /** The wrapped message contains the tag, the cause and the raw input, and starts with the fixed prefix. */
  lemma WrapErrorContains(relType: string, cause: string, data: string)
    ensures WrapPrefix <= WrapError(relType, cause, data)
    ensures Contains(WrapError(relType, cause, data), relType)
    ensures Contains(WrapError(relType, cause, data), cause)
    ensures Contains(WrapError(relType, cause, data), data)
  {
    var m := WrapError(relType, cause, data);
    var t0 := |WrapPrefix|;
    var c0 := t0 + |relType| + 2;
    var d0 := c0 + |cause| + 2;
    assert At(m, relType, t0);
    assert At(m, cause, c0);
    assert At(m, data, d0);
  }

  /** A tag outside the four typed ones, known or not, never fails: the attributes are kept raw. */
  lemma UntypedTagKeepsRaw(t: string, raw: Json)
    requires !Typed(t)
    ensures DecodeAttributes(Select(t), raw) == Success(RawAttrs(Some(raw)))
  {
  }

  /** The tags of the closed set that are not typed select the raw payload. */
  lemma KnownUntypedTags()
    ensures forall t :: t in [TypeChapter, TypeArtist, TypeTag, TypeUser, TypeCustomList] ==> Select(t).RawAttrs?
  {
  }

  /** `"attributes": null` gives a typed variant its zero struct, and the raw variant the literal null. */
  lemma NullAttributes(t: string)
    ensures Typed(t) ==> DecodeAttributes(Select(t), JNull) == Success(Select(t))
    ensures !Typed(t) ==> DecodeAttributes(Select(t), JNull) == Success(RawAttrs(Some(JNull)))
  {
  }

  /** Typed attributes that are an array, a string, a number or a bool do not fit and fail. */
  lemma WrongShapeFails(t: string, raw: Json)
    requires Typed(t)
    requires raw.JArray? || raw.JString? || raw.JNumber? || raw.JBool?
    ensures DecodeAttributes(Select(t), raw).Failure?
  {
  }

  class Relationship {
    var id: string
    var relType: string
    var attributes: Attributes

    /** A zero `Relationship`: the nil UUID, an empty tag, no attributes. */
    constructor ()
      ensures id == NilUuid && relType == "" && attributes == Unset
    {
      id := NilUuid;
      relType := "";
      attributes := Unset;
    }

    /**
     * `Relationship.UnmarshalJSON`. A failed first stage returns its error and
     * leaves the receiver alone; after it, the variant, id and tag are stored
     * before the attributes are decoded, so a failure there comes after them.
     */
    method UnmarshalJSON(data: Document) returns (err: Option<string>)
      modifies this
      ensures DecodeHeader(data.value).Failure? ==>
        err == Some(DecodeHeader(data.value).error) && unchanged(this)
      ensures DecodeHeader(data.value).Success? ==>
        var h := DecodeHeader(data.value).value;
        && id == h.id && relType == h.relType
        && (h.attributes.None? ==> err.None? && attributes == Select(h.relType))
        && (h.attributes.Some? ==>
              match DecodeAttributes(Select(h.relType), h.attributes.value)
              case Success(a) => err.None? && attributes == a
              case Failure(cause) =>
                err == Some(WrapError(h.relType, cause, data.text)) && SameVariant(attributes, Select(h.relType)))
    {
      var header := DecodeHeader(data.value);
      if header.Failure? {
        return Some(header.error);
      }
      var typ := header.value;
      attributes := Select(typ.relType);
      id := typ.id;
      relType := typ.relType;
      err := None;
      if typ.attributes.Some? {
        var decoded := DecodeAttributes(attributes, typ.attributes.value);
        if decoded.Failure? {
          return Some(WrapError(typ.relType, decoded.error, data.text));
        }
        attributes := decoded.value;
      }
    }
  }
}
