/**
 * The aggregate endpoint's `volumes` value: an array when the manga has no
 * volumes, an object keyed by volume name otherwise. The client classifies
 * the value by its JSON kind before decoding it.
 */
module Volume {
  import opened Wrappers
  import opened Json
  import opened Decode

  datatype VolumeChapter = VolumeChapter(chapter: string, id: string, others: seq<string>, count: int)

  datatype Volume = Volume(volume: string, count: int, chapters: map<string, VolumeChapter>)

  const VolumeChapterSchema := Schema("mangodex.VolumeChapter", [
    Field("chapter", Text),
    Field("id", Text),
    Field("others", ListOf(Text)),
    Field("count", Int)
  ])

  /** A volume's chapters are a `map[string]VolumeChapter`: only the keyed object form is accepted. */
  const VolumeSchema := Schema("mangodex.Volume", [
    Field("volume", Text),
    Field("count", Int),
    Field("chapters", MapOf(Struct(VolumeChapterSchema)))
  ])

  /** `map[string]*Volume`, the type the object form is decoded into. */
  const VolumeListKind := MapOf(Ptr(Struct(VolumeSchema)))

  const UnexpectedVolumesType := "unexpected volumes response type"

  function ChapterOf(v: Value): VolumeChapter
  {
    var r := if v.StructV? then v.record else map[];
    VolumeChapter(TextField(r, "chapter"), TextField(r, "id"), TextListField(r, "others"), IntField(r, "count"))
  }

  function VolumeOf(v: Value): Volume
  {
    var r := if v.StructV? then v.record else map[];
    var chapters := if "chapters" in r && r["chapters"].MapV? then r["chapters"].entries else map[];
    Volume(TextField(r, "volume"), IntField(r, "count"), map name | name in chapters :: ChapterOf(chapters[name]))
  }

  /** The decoded `map[string]*Volume`; a nil pointer is None. */
  function VolumeListOf(v: Value): map<string, Option<Volume>>
  {
    var entries := if v.MapV? then v.entries else map[];
    map name | name in entries ::
      if entries[name].PtrV? && entries[name].ptr.Some? then Some(VolumeOf(entries[name].ptr.value)) else None
  }

  /**
   * `VolumeService.List` after the request: the raw `volumes` bytes are parsed
   * (bytes that do not parse, or no bytes at all when the field was missing,
   * are an error before any classification), then classified by kind. An
   * array of any length gives a nil map and no error; an object is decoded as
   * `map[string]*Volume`; anything else is an error.
   */
  function ListVolumes(volumes: Body): (r: Result<Option<map<string, Option<Volume>>>>)
    ensures volumes.Unparsable? ==> r == Failure(CauseText(volumes.cause))
    ensures volumes.Parsed? && volumes.value.JArray? ==> r == Success(None)
    ensures volumes.Parsed? && !volumes.value.JArray? && !volumes.value.JObject? ==> r == Failure(UnexpectedVolumesType)
    ensures r.Success? && r.value.Some? ==> volumes.Parsed? && volumes.value.JObject?
  {
    match volumes
    case Unparsable(c) => Failure(CauseText(c))
    case Parsed(j) =>
      match j
      case JArray(_) => Success(None)
      case JObject(_) =>
        (match Unmarshal(VolumeListKind, Zero(VolumeListKind), j)
         case Failure(e) => Failure(e)
         case Success(v) => Success(Some(VolumeListOf(v))))
      case _ => Failure(UnexpectedVolumesType)
  }

  /** Every name of the object is a key of the decoded map, and nothing else is. */
  lemma {:induction false} EntriesKeys(e: Kind, entries: map<string, Value>, ms: seq<Member>, saved: Option<Cause>)
    requires EntriesInto(e, entries, ms, saved).Decoded?
    ensures EntriesInto(e, entries, ms, saved).value.MapV?
    ensures EntriesInto(e, entries, ms, saved).value.entries.Keys ==
      entries.Keys + set i | 0 <= i < |ms| :: ms[i].key
    decreases ms
  {
    if ms != [] {
      match DecodeInto(e, Zero(e), ms[0].value)
      case Aborted(c) =>
      case Decoded(v, err) =>
        EntriesKeys(e, entries[ms[0].key := v], ms[1..], Keep(saved, err));
        assert (set i | 0 <= i < |ms| :: ms[i].key) == {ms[0].key} + set i | 0 <= i < |ms[1..]| :: ms[1..][i].key;
    }
  }

  /** A successful object decode lists exactly the object's labels. */
  lemma ObjectLabels(ms: seq<Member>)
    requires ListVolumes(Parsed(JObject(ms))).Success?
    ensures ListVolumes(Parsed(JObject(ms))).value.Some?
    ensures ListVolumes(Parsed(JObject(ms))).value.value.Keys == set i | 0 <= i < |ms| :: ms[i].key
  {
    EntriesKeys(Ptr(Struct(VolumeSchema)), map[], ms, None);
  }

  /** A name whose value is an array, a string, a number or a bool makes the whole decode fail. */
  lemma BadVolumeFails(ms: seq<Member>, bad: nat)
    requires bad < |ms|
    requires ms[bad].value.JArray? || ms[bad].value.JString? || ms[bad].value.JNumber? || ms[bad].value.JBool?
    ensures ListVolumes(Parsed(JObject(ms))).Failure?
  {
    WrongKindFails(Ptr(Struct(VolumeSchema)), Zero(Ptr(Struct(VolumeSchema))), ms[bad].value);
    EntriesFail(Ptr(Struct(VolumeSchema)), map[], ms, None, bad);
  }

  /**
   * Chapters in array form are not normalised: a volume whose `chapters` is
   * an array, even of exactly one chapter, makes the whole decode fail.
   */
  lemma ChaptersArrayFails(ms: seq<Member>, bad: nat, vs: seq<Member>, c: nat)
    requires bad < |ms| && ms[bad].value == JObject(vs)
    requires c < |vs| && vs[c].key == "chapters" && vs[c].value.JArray?
    ensures ListVolumes(Parsed(JObject(ms))).Failure?
  {
    VolumeFieldIndexes();
    MembersFail(VolumeSchema.fields, map[], vs, None, c, 2);
    EntriesFail(Ptr(Struct(VolumeSchema)), map[], ms, None, bad);
  }

  /** The element type of the list: `*Volume`. */
  const VolumeEntryKind := Ptr(Struct(VolumeSchema))

  /** A label's value decodes into a `*Volume` without error. */
  predicate VolumeFits(j: Json)
  {
    !Fails(DecodeInto(VolumeEntryKind, Zero(VolumeEntryKind), j))
  }

  /** The volume one label's value decodes to on its own; None for null. */
  function VolumeEntry(j: Json): Option<Volume>
  {
    var o := DecodeInto(VolumeEntryKind, Zero(VolumeEntryKind), j);
    if o.Decoded? && o.value.PtrV? && o.value.ptr.Some? then Some(VolumeOf(o.value.ptr.value)) else None
  }

  /**
   * An object gives a map exactly when every label's value fits `*Volume`;
   * each label then maps to what its last value decodes to on its own.
   */
  lemma ObjectOutcome(ms: seq<Member>)
    ensures ListVolumes(Parsed(JObject(ms))).Success? <==> forall i :: 0 <= i < |ms| ==> VolumeFits(ms[i].value)
    ensures ListVolumes(Parsed(JObject(ms))).Success? ==>
      var list := ListVolumes(Parsed(JObject(ms))).value;
      list.Some? && forall i :: 0 <= i < |ms| && LastWithKey(ms, i) ==>
        ms[i].key in list.value && list.value[ms[i].key] == VolumeEntry(ms[i].value)
  {
    if forall i :: 0 <= i < |ms| ==> VolumeFits(ms[i].value) {
      EntriesFit(VolumeEntryKind, map[], ms, None);
    } else {
      var bad :| 0 <= bad < |ms| && !VolumeFits(ms[bad].value);
      EntriesFail(VolumeEntryKind, map[], ms, None, bad);
    }
  }

  /** A null label decodes to a nil volume. */
  lemma NullVolumeFits()
    ensures VolumeFits(JNull) && VolumeEntry(JNull) == None
  {
  }

  /** A chapter entry of the volume list as sent: its number, id, other ids and count. */
  function ChapterJson(c: string, id: string, others: seq<string>, count: int): Json
  {
    JObject([Member("chapter", JString(c)), Member("id", JString(id)),
      Member("others", JArray(JStrings(others))), Member("count", JNumber(Integer(count)))])
  }

  /** A volume as sent, with one chapter under the label `key`. */
  function VolumeJson(name: string, count: int, key: string, chapter: Json): Json
  {
    JObject([Member("volume", JString(name)), Member("count", JNumber(Integer(count))),
      Member("chapters", JObject([Member(key, chapter)]))])
  }

  /**
   * A volume object with a name, an int count and a chapter map holding one
   * chapter fits, and decodes to exactly those values: the chapter's number,
   * id, other ids and count reach the volume under the chapter's label.
   */
  lemma VolumeObjectFits(name: string, count: int, key: string, c: string, id: string, others: seq<string>, n: int)
    requires MinInt <= count <= MaxInt && MinInt <= n <= MaxInt
    ensures var j := VolumeJson(name, count, key, ChapterJson(c, id, others, n));
      VolumeFits(j) && VolumeEntry(j) == Some(Volume(name, count, map[key := VolumeChapter(c, id, others, n)]))
  {
    var chRec := ChapterRecord(c, id, others, n);
    var chapters := MapV(map[key := StructV(chRec)]);
    ChaptersDecode(key, c, id, others, n);
    VolumeMembers(name, count, JObject([Member(key, ChapterJson(c, id, others, n))]), chapters);
    var r3 := map["volume" := TextV(name), "count" := IntV(count), "chapters" := chapters];
    var j := VolumeJson(name, count, key, ChapterJson(c, id, others, n));
    assert DecodeInto(Struct(VolumeSchema), StructV(map[]), j) == Decoded(StructV(r3), None);
    assert DecodeInto(VolumeEntryKind, Zero(VolumeEntryKind), j) == Decoded(PtrV(Some(StructV(r3))), None);
    VolumeOfFields(name, count, key, chRec);
    ChapterReadBack(c, id, others, n);
  }

  /** A chapter map with one entry decodes to that entry's record under its label. */
  lemma ChaptersDecode(key: string, c: string, id: string, others: seq<string>, n: int)
    requires MinInt <= n <= MaxInt
    ensures DecodeInto(MapOf(Struct(VolumeChapterSchema)), Zero(MapOf(Struct(VolumeChapterSchema))),
      JObject([Member(key, ChapterJson(c, id, others, n))])) == Decoded(MapV(map[key := StructV(ChapterRecord(c, id, others, n))]), None)
  {
    var entry := [Member(key, ChapterJson(c, id, others, n))];
    ChapterDecodes(c, id, others, n);
    assert EntriesInto(Struct(VolumeChapterSchema), map[], entry, None) ==
      EntriesInto(Struct(VolumeChapterSchema), map[key := StructV(ChapterRecord(c, id, others, n))], entry[1..], None);
  }

  /** The volume's own members: name, count, and a chapter map that decodes to `chapters`. */
  lemma VolumeMembers(name: string, count: int, chaptersJson: Json, chapters: Value)
    requires MinInt <= count <= MaxInt
    requires DecodeInto(MapOf(Struct(VolumeChapterSchema)), Zero(MapOf(Struct(VolumeChapterSchema))), chaptersJson) == Decoded(chapters, None)
    ensures MembersInto(VolumeSchema.fields, map[],
      [Member("volume", JString(name)), Member("count", JNumber(Integer(count))), Member("chapters", chaptersJson)], None) ==
      Decoded(StructV(map["volume" := TextV(name), "count" := IntV(count), "chapters" := chapters]), None)
  {
    var ms := [Member("volume", JString(name)), Member("count", JNumber(Integer(count))), Member("chapters", chaptersJson)];
    var fields := VolumeSchema.fields;
    VolumeFieldIndexes();
    var r1 := map["volume" := TextV(name)];
    var r2 := r1["count" := IntV(count)];
    MemberSets(fields, map[], ms, None, 0, TextV(name));
    MemberSets(fields, r1, ms[1..], None, 1, IntV(count));
    MemberSets(fields, r2, ms[2..], None, 2, chapters);
    assert ms[3..] == [];
  }

  function ChapterRecord(c: string, id: string, others: seq<string>, n: int): Record
  {
    map["chapter" := TextV(c), "id" := TextV(id), "others" := ListV(TextVs(others)), "count" := IntV(n)]
  }

  /** One chapter entry decodes to its record. */
  lemma ChapterDecodes(c: string, id: string, others: seq<string>, n: int)
    requires MinInt <= n <= MaxInt
    ensures DecodeInto(Struct(VolumeChapterSchema), StructV(map[]), ChapterJson(c, id, others, n)) ==
      Decoded(StructV(ChapterRecord(c, id, others, n)), None)
  {
    var head := [Member("chapter", JString(c)), Member("id", JString(id))];
    var tail := [Member("others", JArray(JStrings(others))), Member("count", JNumber(Integer(n)))];
    assert ChapterJson(c, id, others, n) == JObject(head + tail);
    ChapterMembers(c, id, others, n);
  }

  lemma ChapterMembers(c: string, id: string, others: seq<string>, n: int)
    requires MinInt <= n <= MaxInt
    ensures MembersInto(VolumeChapterSchema.fields, map[],
      [Member("chapter", JString(c)), Member("id", JString(id))] + [Member("others", JArray(JStrings(others))), Member("count", JNumber(Integer(n)))], None) ==
      Decoded(StructV(ChapterRecord(c, id, others, n)), None)
  {
    var tail := [Member("others", JArray(JStrings(others))), Member("count", JNumber(Integer(n)))];
    ChapterHead(c, id, tail);
    ChapterTail(map["chapter" := TextV(c), "id" := TextV(id)], others, n);
    RecordLayout(c, id, others, n);
  }

  lemma RecordLayout(c: string, id: string, others: seq<string>, n: int)
    ensures map["chapter" := TextV(c), "id" := TextV(id)]["others" := ListV(TextVs(others))]["count" := IntV(n)] ==
      ChapterRecord(c, id, others, n)
  {
  }

  lemma ChapterHead(c: string, id: string, rest: seq<Member>)
    ensures MembersInto(VolumeChapterSchema.fields, map[], [Member("chapter", JString(c)), Member("id", JString(id))] + rest, None) ==
      MembersInto(VolumeChapterSchema.fields, map["chapter" := TextV(c), "id" := TextV(id)], rest, None)
  {
    var fields := VolumeChapterSchema.fields;
    var ms := [Member("chapter", JString(c)), Member("id", JString(id))] + rest;
    ChapterFieldIndexes();
    MemberSets(fields, map[], ms, None, 0, TextV(c));
    assert ms[1..][1..] == rest;
    MemberSets(fields, map["chapter" := TextV(c)], ms[1..], None, 1, TextV(id));
  }

  lemma ChapterTail(r: Record, others: seq<string>, n: int)
    requires MinInt <= n <= MaxInt && "others" !in r
    ensures MembersInto(VolumeChapterSchema.fields, r, [Member("others", JArray(JStrings(others))), Member("count", JNumber(Integer(n)))], None) ==
      Decoded(StructV(r["others" := ListV(TextVs(others))]["count" := IntV(n)]), None)
  {
    var fields := VolumeChapterSchema.fields;
    var ms := [Member("others", JArray(JStrings(others))), Member("count", JNumber(Integer(n)))];
    ChapterFieldIndexes();
    TextArrayDecodes(others);
    MemberSets(fields, r, ms, None, 2, ListV(TextVs(others)));
    MemberSets(fields, r["others" := ListV(TextVs(others))], ms[1..], None, 3, IntV(n));
  }

  /** That record reads back as the chapter sent. */
  lemma ChapterReadBack(c: string, id: string, others: seq<string>, n: int)
    ensures ChapterOf(StructV(ChapterRecord(c, id, others, n))) == VolumeChapter(c, id, others, n)
  {
    TextListFieldOf(ChapterRecord(c, id, others, n), "others", others);
  }

  lemma ChapterFieldIndexes()
    ensures FieldIndex(VolumeChapterSchema.fields, "chapter") == Some(0)
    ensures FieldIndex(VolumeChapterSchema.fields, "id") == Some(1)
    ensures FieldIndex(VolumeChapterSchema.fields, "others") == Some(2)
    ensures FieldIndex(VolumeChapterSchema.fields, "count") == Some(3)
  {
    var fields := VolumeChapterSchema.fields;
    assert FieldIndex(fields[3..], "count") == Some(0);
    assert FieldIndex(fields[2..], "others") == Some(0);
    assert FieldIndex(fields[1..], "id") == Some(0);
  }


  lemma VolumeFieldIndexes()
    ensures FieldIndex(VolumeSchema.fields, "volume") == Some(0)
    ensures FieldIndex(VolumeSchema.fields, "count") == Some(1)
    ensures FieldIndex(VolumeSchema.fields, "chapters") == Some(2)
  {
    var fields := VolumeSchema.fields;
    assert "count"[1] != "chapters"[1];
    assert FieldIndex(fields[2..], "chapters") == Some(0);
    assert FieldIndex(fields[1..], "chapters") == Some(1);
  }

  lemma VolumeOfFields(name: string, count: int, key: string, chRec: Record)
    ensures VolumeOf(StructV(map["volume" := TextV(name), "count" := IntV(count), "chapters" := MapV(map[key := StructV(chRec)])])) ==
      Volume(name, count, map[key := ChapterOf(StructV(chRec))])
  {
    var r := map["volume" := TextV(name), "count" := IntV(count), "chapters" := MapV(map[key := StructV(chRec)])];
    var chapters := map[key := StructV(chRec)];
    assert (map k | k in chapters :: ChapterOf(chapters[k])) == map[key := ChapterOf(StructV(chRec))];
  }
}
