/** A chapter as the service describes it, with its title and chapter-number getters. */
module Chapter {
  import opened Wrappers
  import opened Json
  import opened Decode
  import opened Schemas
  import Relationship

  /** `attributes` is the decoded `ChapterAttributes` record. */
  datatype Chapter = Chapter(id: string, chapterType: string, attributes: Record, relationships: seq<Relationship.Relationship?>) {

    /** The title as stored, "" included. */
    function GetTitle(): (t: string)
      ensures "title" !in attributes ==> t == ""
      ensures "title" in attributes && attributes["title"].TextV? ==> t == attributes["title"].text
    {
      TextField(attributes, "title")
    }

    /** The chapter number when one is set, even an empty one; "-" when it is nil. */
    function GetChapterNum(): (n: string)
      ensures OptTextField(attributes, "chapter").None? ==> n == "-"
      ensures OptTextField(attributes, "chapter").Some? ==> n == OptTextField(attributes, "chapter").value
    {
      match OptTextField(attributes, "chapter")
      case None => "-"
      case Some(num) => num
    }
  }

  /** The attributes a JSON object decodes to, or the decoding error. */
  function DecodeAttributes(j: Json): Result<Record>
  {
    match Unmarshal(Struct(ChapterAttributesSchema), Zero(Struct(ChapterAttributesSchema)), j)
    case Failure(e) => Failure(e)
    case Success(v) => Success(if v.StructV? then v.record else map[])
  }

  /** Attributes holding only a chapter number. */
  function OnlyChapter(num: Json): Json
  {
    JObject([Member("chapter", num)])
  }

  /** A chapter number sent as a string is returned as is, even ""; sent as null or left out, it reads "-". */
  lemma ChapterNumFromJson(id: string, num: string)
    ensures DecodeAttributes(OnlyChapter(JString(num))).Success?
    ensures Chapter(id, "chapter", DecodeAttributes(OnlyChapter(JString(num))).value, []).GetChapterNum() == num
    ensures DecodeAttributes(OnlyChapter(JNull)).Success?
    ensures Chapter(id, "chapter", DecodeAttributes(OnlyChapter(JNull)).value, []).GetChapterNum() == "-"
    ensures DecodeAttributes(JObject([])).Success?
    ensures Chapter(id, "chapter", DecodeAttributes(JObject([])).value, []).GetChapterNum() == "-"
  {
    ChapterNumString(num);
    ChapterNumNull();
  }

  lemma ChapterNumString(num: string)
    ensures DecodeAttributes(OnlyChapter(JString(num))) == Success(map["chapter" := PtrV(Some(TextV(num)))])
  {
    var fields := ChapterAttributesSchema.fields;
    assert FieldIndex(fields, "chapter") == Some(2);
    assert fields[2] == Field("chapter", Ptr(Text));
    assert DecodeInto(Ptr(Text), Zero(Ptr(Text)), JString(num)) == Decoded(PtrV(Some(TextV(num))), None);
    var ms := [Member("chapter", JString(num))];
    assert MembersInto(fields, map[], ms, None) == MembersInto(fields, map["chapter" := PtrV(Some(TextV(num)))], ms[1..], None);
  }

  lemma ChapterNumNull()
    ensures DecodeAttributes(OnlyChapter(JNull)) == Success(map["chapter" := PtrV(None)])
  {
    var fields := ChapterAttributesSchema.fields;
    assert FieldIndex(fields, "chapter") == Some(2);
    assert fields[2] == Field("chapter", Ptr(Text));
    assert DecodeInto(Ptr(Text), Zero(Ptr(Text)), JNull) == Decoded(PtrV(None), None);
    var nulls := [Member("chapter", JNull)];
    assert MembersInto(fields, map[], nulls, None) == MembersInto(fields, map["chapter" := PtrV(None)], nulls[1..], None);
  }

  /** A title sent as "" reads as "", the same as one left out. */
  lemma TitleFromJson(id: string, title: string)
    ensures DecodeAttributes(JObject([Member("title", JString(title))])).Success?
    ensures Chapter(id, "chapter", DecodeAttributes(JObject([Member("title", JString(title))])).value, []).GetTitle() == title
    ensures DecodeAttributes(JObject([])).Success?
    ensures Chapter(id, "chapter", DecodeAttributes(JObject([])).value, []).GetTitle() == ""
  {
    var fields := ChapterAttributesSchema.fields;
    assert FieldIndex(fields, "title") == Some(0);
    var ms := [Member("title", JString(title))];
    assert MembersInto(fields, map[], ms, None) == MembersInto(fields, map["title" := TextV(title)], ms[1..], None);
  }
}
