/**
 * The JSON layout of the attribute structs, field by field as the Go structs
 * declare them (JSON name and Go field type).
 */
module Schemas {
  import opened Decode

  const MangaAttributesSchema := Schema("mangodex.MangaAttributes", [
    Field("title", Localised),
    Field("altTitles", Localised),
    Field("description", Localised),
    Field("isLocked", Flag),
    Field("links", Localised),
    Field("originalLanguage", Text),
    Field("lastVolume", Ptr(Text)),
    Field("lastChapter", Ptr(Text)),
    Field("publicationDemographic", Ptr(Text)),
    Field("status", Ptr(Text)),
    Field("year", Ptr(Int)),
    Field("contentRating", Ptr(Text)),
    Field("tags", ListOf(Ptr(Struct(TagSchema)))),
    Field("state", Text),
    Field("version", Int),
    Field("createdAt", Text),
    Field("updatedAt", Text)
  ])

  /** A tag as listed inside manga attributes; its own relationships are not decoded here. */
  const TagSchema := Schema("mangodex.Tag", [
    Field("id", Uuid),
    Field("type", Text),
    Field("attributes", Struct(TagAttributesSchema))
  ])

  const TagAttributesSchema := Schema("mangodex.TagAttributes", [
    Field("name", Localised),
    Field("description", Localised),
    Field("group", Text),
    Field("version", Int)
  ])

  const CoverAttributesSchema := Schema("mangodex.CoverAttributes", [
    Field("volume", Ptr(Text)),
    Field("fileName", Text),
    Field("description", Ptr(Text)),
    Field("version", Int),
    Field("createdAt", Text),
    Field("updatedAt", Text),
    Field("locale", Text)
  ])

  const ScanlationGroupAttributesSchema := Schema("mangodex.ScanlationGroupAttributes", [
    Field("name", Text),
    Field("altNames", Localised),
    Field("website", Ptr(Text)),
    Field("ircServer", Ptr(Text)),
    Field("discord", Ptr(Text)),
    Field("contactEmail", Ptr(Text)),
    Field("description", Ptr(Text)),
    Field("twitter", Ptr(Text)),
    Field("focusedLanguage", ListOf(Text)),
    Field("locked", Flag),
    Field("official", Flag),
    Field("inactive", Flag),
    Field("publishDelay", Text),
    Field("version", Int),
    Field("createdAt", Text),
    Field("updatedAt", Text)
  ])

  /** The author struct is declared outside the modelled files; it is given no fields, so any object fits it. */
  const AuthorAttributesSchema := Schema("mangodex.AuthorAttributes", [])

  const ChapterAttributesSchema := Schema("mangodex.ChapterAttributes", [
    Field("title", Text),
    Field("volume", Ptr(Text)),
    Field("chapter", Ptr(Text)),
    Field("translatedLanguage", Text),
    Field("uploader", Text),
    Field("externalUrl", Ptr(Text)),
    Field("version", Int),
    Field("createdAt", Text),
    Field("updatedAt", Text),
    Field("publishAt", Text),
    Field("readableAt", Text)
  ])
}
