/** A manga as the service describes it, with its localised title and description lookups. */
module Manga {
  import opened LocalisedString
  import opened Decode
  import Relationship

  const MangaListPath := "/manga"
  const MangaPathPrefix := "/manga/"

  /** The request path for one manga: `MangaPath` with the id in place of its `%s`. */
  function MangaPath(id: string): (p: string)
    ensures MangaPathPrefix <= p && p[|MangaPathPrefix|..] == id
  {
    MangaPathPrefix + id
  }

  /** Distinct ids give distinct paths. */
  lemma MangaPathInjective(a: string, b: string)
    requires MangaPath(a) == MangaPath(b)
    ensures a == b
  {
    assert a == MangaPath(a)[|MangaPathPrefix|..];
  }

  /** `attributes` is the decoded `MangaAttributes` record. */
  datatype Manga = Manga(id: string, relType: string, attributes: Record, relationships: seq<Relationship.Relationship?>) {

    function Title(): LocalisedStrings { LocalisedField(attributes, "title") }
    function AltTitles(): LocalisedStrings { LocalisedField(attributes, "altTitles") }
    function Description(): LocalisedStrings { LocalisedField(attributes, "description") }

    /**
     * The title lookup, and when that gives "" (whether no title matched or the
     * matched title is empty) the alternative titles with the same arguments.
     */
    method GetTitle(langCode: string, fallback: bool) returns (s: string)
      ensures s in TitleChoices(Title().values, AltTitles().values, langCode, fallback)
      ensures langCode in Title().values && Title().values[langCode] != "" ==> s == Title().values[langCode]
      ensures langCode in Title().values && Title().values[langCode] == "" ==>
        s in Choices(AltTitles().values, langCode, fallback)
      ensures !fallback && langCode !in Title().values && langCode !in AltTitles().values ==> s == ""
    {
      var title := Title().GetLocalString(langCode, fallback);
      if title != "" {
        return title;
      }
      s := AltTitles().GetLocalString(langCode, fallback);
    }

    /** The description lookup with the same arguments. */
    method GetDescription(langCode: string, fallback: bool) returns (s: string)
      ensures s in Choices(Description().values, langCode, fallback)
      ensures langCode in Description().values ==> s == Description().values[langCode]
      ensures langCode !in Description().values && !fallback ==> s == ""
    {
      s := Description().GetLocalString(langCode, fallback);
    }
  }

  /** Every text `GetTitle` may return: a non-empty title, or, when the title lookup may give "", an alternative title. */
  function TitleChoices(title: map<string, string>, alt: map<string, string>, langCode: string, fallback: bool): set<string>
  {
    (Choices(title, langCode, fallback) - {""}) +
    (if "" in Choices(title, langCode, fallback) then Choices(alt, langCode, fallback) else {})
  }

  /** `GetTitle` can give "" only when both lookups can. */
  lemma EmptyTitle(title: map<string, string>, alt: map<string, string>, langCode: string, fallback: bool)
    ensures "" in TitleChoices(title, alt, langCode, fallback) <==>
      "" in Choices(title, langCode, fallback) && "" in Choices(alt, langCode, fallback)
  {
  }

  /** Without a title map at all, `GetTitle` is exactly the alternative-title lookup. */
  lemma NoTitles(alt: map<string, string>, langCode: string, fallback: bool)
    ensures TitleChoices(map[], alt, langCode, fallback) == Choices(alt, langCode, fallback)
  {
    assert Choices(map[], langCode, fallback) == {""};
  }
}
