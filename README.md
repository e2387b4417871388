# mangodex decision layer in Dafny

This project models the parts of the mangodex Go client for the MangaDex API
that decide things on their own, as opposed to passing bytes to and from the
network:

- `LocalisedStrings`: decoding the two wire forms and the language lookup with fallback;
- `Relationship`: decoding it, with the attributes variant chosen by the type tag;
- the classification of a manga's `volumes` aggregate;
- the error envelope and its rendering as one message;
- the status branch of `DexClient.Request` and `RequestAndDecode`;
- the manga getters and request paths, and the chapter getters;
- the query of the scanlation-group search;
- MangaDex@Home: page selection, the client built from the server answer, page addresses and the report after a page is read.

JSON is an abstract value in the sense of section 3 of RFC 8259 (`Json.Json`).
An object keeps its members in order, repeated keys included, so the
last-one-wins behaviour of Go's decoder is visible. `Decode` models how
`encoding/json` fills the client's structs from such a value:

- a value of the wrong kind is remembered as the first error while decoding carries on;
- an error from a type's own `UnmarshalJSON` stops decoding at once;
- `null` leaves a non-pointer scalar, struct or array field alone; a slice or map field becomes nil, and a type with its own `UnmarshalJSON` receives the `null`;
- a value is decoded into what the field already holds.

Each struct the core decodes is described field by field in `Schemas` (or next
to its code). A decoded struct is a record from JSON field name to value, and
a missing field means Go's zero value.

Go map iteration order is not fixed, so the lookups that depend on it are
methods that choose with `:|`. Their contracts give the set of possible
results (`LocalisedString.Choices`, `Manga.TitleChoices`).

Three behaviours of the code are worth stating plainly:

- a `volumes` array of any length, not only an empty one, gives a nil map and no error (volume.go:65-68);
- a volume's `chapters` sent as an array is not converted to the keyed form: `chapters` is declared as a map (volume.go:29), so the second decode and the whole list fail (volume.go:71-74);
- `"attributes": null` does not leave a relationship's attributes unset. `json.RawMessage` holds the four bytes `null`, which are not nil (relationship.go:44), so they are decoded into the selected variant (relationship.go:45): a typed variant keeps its zero struct, and the raw variant holds the literal `null`.

## Model

| member | source | states |
|---|---|---|
| LocalisedString.LocalisedStrings.GetLocalString | localized_string.go:40-53 | an exact match is returned even when it is ""; else, with fallback on and a non-empty map, some value of the map; else "" |
| LocalisedString.ChoicesUnique | localized_string.go:46-50 | the lookup has a single possible result unless it falls back on a map holding several distinct texts |
| LocalisedString.EmptyChoice | localized_string.go:41-52 | the lookup can give "" exactly when the matched text is "", or when nothing matches and fallback is off, the map is empty or holds "" |
| LocalisedString.LocalisedStrings.UnmarshalJSON | localized_string.go:13-34 | the result depends only on the input, never on what the receiver held; it is the flat map, or else the merged array entries, or else the flat attempt's partial map with a prefixed error |
| LocalisedString.MergeEntry | localized_string.go:29-31 | writing an entry's keys one by one, in any order, gives the old map overridden by the entry |
| LocalisedString.StringElement | localized_string.go:17 | a string member decodes to its text, null to "" without error, and any other kind is a type mismatch |
| LocalisedString.MembersError | localized_string.go:17-19 | the flat attempt has no error exactly when every member is a string or null |
| LocalisedString.MembersMapKeys | localized_string.go:17-19 | the keys of the flat map are exactly the object's member keys |
| LocalisedString.MembersMapLast | localized_string.go:17-19 | a repeated key keeps the value of its last member |
| LocalisedString.ObjectForm | localized_string.go:17-19 | an object of strings decodes to exactly its key/value map, without error |
| LocalisedString.FlattenKeys | localized_string.go:28-32 | a key is in the merged map exactly when some array entry has it |
| LocalisedString.FlattenLastWins | localized_string.go:28-32 | a key shared by several entries takes its text from the last entry that has it |
| LocalisedString.ArrayForm | localized_string.go:22-33 | an array of string maps decodes to the merge of its entries, without error |
| LocalisedString.EmptyArray | localized_string.go:22-33 | the empty array decodes to the empty map without error |
| LocalisedString.FailureExactly | localized_string.go:16-25 | decoding fails exactly when the input is a scalar, an object with a non-string member, or an array with an entry that is no string map; the error starts with "error unmarshalling localisedstring: " |
| Relationship.Select | relationship.go:29-40 | `manga`, `author`, `scanlation_group` and `cover_art` each select their own typed variant; every other tag, known or not, selects the raw variant |
| Relationship.KnownUntypedTags | relationship.go:38-39 | `chapter`, `artist`, `tag`, `user` and `custom_list` select the raw variant |
| Relationship.UntypedTagKeepsRaw | relationship.go:38-39 | under an untyped tag the attributes never fail and are kept as given |
| Relationship.DecodeAttributes | relationship.go:44-48 | a typed variant succeeds exactly when its struct decodes from the raw attributes, and then holds the decoded record, failing with that decode's error otherwise; the raw variant keeps the bytes as given; the variant is never changed |
| Relationship.TypedAttributesFit | relationship.go:28-48 | under a typed tag, an object whose members fit the struct decodes, each member naming a field sets it to the member's decoded value, and no other field is set |
| Relationship.CoverFileName | relationship.go:36-45 | a `cover_art` relationship with `{"fileName": f}` holds cover attributes whose file name is f |
| Relationship.DecodeHeader | relationship.go:19-26 | the first stage fails on an array or a scalar, and `null` gives the nil UUID, an empty tag and no attributes |
| Relationship.HeaderOfObject | relationship.go:19-26 | an object passes the first stage exactly when its `id` and `type` members are strings or null; the header then holds the last string id (else the nil UUID), the last string tag (else "") and the last `attributes` member as given |
| Relationship.NullAttributes | relationship.go:44-45 | `"attributes": null` leaves a typed variant at its zero struct and stores the literal null in the raw variant |
| Relationship.WrongShapeFails | relationship.go:45-48 | typed attributes sent as an array or a scalar make decoding fail |
| Relationship.WrapErrorContains | relationship.go:46-47 | the secondary error starts with its fixed prefix and contains the tag, the cause and the whole raw input |
| Relationship.Relationship.constructor | relationship.go:11-15 | a zero relationship has the nil UUID, an empty tag and no attributes |
| Relationship.Relationship.UnmarshalJSON | relationship.go:17-51 | a first-stage error is returned and the receiver is unchanged; otherwise id and tag are stored before the attributes, an absent `attributes` leaves the selected zero variant, and a misfit gives the wrapped error with id and tag already overwritten |
| Volume.ListVolumes | volume.go:55-78 | unparsable bytes are an error before classification; an array of any length gives nil and no error; a string, number, bool or null gives "unexpected volumes response type"; a map is returned only for an object |
| Volume.ObjectOutcome | volume.go:69-75 | an object gives a map, and no error, exactly when every label's value fits a volume; each label then maps to the volume its last member decodes to |
| Volume.NullVolumeFits | volume.go:70-71 | a label whose value is null fits and maps to a nil volume |
| Volume.VolumeObjectFits | volume.go:26-38 | a volume object with a name, an int count and one chapter entry `{"chapter", "id", "others", "count"}` under its key fits and decodes to exactly those values: the name, the count, and a map from the key to the chapter with its number, id, list of other ids in order and count |
| Volume.ObjectLabels | volume.go:69-75 | a successful object decode holds exactly the object's labels |
| Volume.BadVolumeFails | volume.go:71-74 | an object with a label whose value is an array, string, number or bool is an error |
| Volume.ChaptersArrayFails | volume.go:29 | a volume whose `chapters` is an array, of any length, makes the whole list an error |
| ErrorResponse.GetResult | error.go:14-16 | the result field unchanged |
| ErrorResponse.GetErrors | error.go:19-25 | the builder ends holding the lines `title: detail` of every error, in order |
| ErrorResponse.ErrorsTextAppend | error.go:21-23 | the message of two lists back to back is their two messages back to back |
| ErrorResponse.SegmentAt | error.go:21-23 | each error's line appears in the message right after the lines of the errors before it |
| ErrorResponse.OnlyTitlesAndDetails | error.go:22 | two lists with the same titles and details give the same message whatever their ids and statuses |
| ErrorResponse.OneLinePerError | error.go:21-23 | with no line break inside titles and details, the message holds exactly one line break per error |
| Api.ErrorMessage | api.go:90-98 | an unparsable body, or a body that does not decode as an error envelope (a non-object, or a `result` or `errors` field of the wrong kind), gives "failed to decode into ErrorResponse (HTML response?), error: " and the cause; any body that decodes, including `null` and an object with neither field, gives its `GetErrors` text, which is "" when there are no errors |
| ErrorResponse.DecodeErrorResponse | api.go:92 | decoding an error body succeeds exactly when the `ErrorResponse` struct decodes, failing with that decode's error; `null` gives an empty envelope |
| ErrorResponse.EnvelopeRoundTrip | error.go:8-33 | an envelope `{"result": r, "errors": [{"id", "status", "title", "detail"}, ...]}` with int statuses decodes back to exactly the `ErrorResponse` it was written from: its result and every error with all four fields, in order |
| Api.Request | api.go:83-103 | a transport error is returned unchanged; the response is returned exactly when its status is 200; any other status is the error "non-200 status code -> (code) message" |
| Api.StatusReadBack | api.go:100 | the status code can be read back from the error text, whatever the body held |
| Api.EnvelopeMessage | api.go:88-100 | a non-200 answer whose body is such an envelope fails with "non-200 status code -> (code) " followed by the `title: detail` line of each of its errors, in order |
| Api.EnvelopeLines | api.go:96-100 | each error of a decodable envelope appears as its own line of the request error, in order |
| Api.RequestAndDecode | api.go:107-121 | a request error is returned unchanged, an unparsable 200 body gives its decode error, a result exists only for a parsed 200 body, and for a parsed 200 body it exists exactly when the `DexResponse` struct decodes, failing with that decode's error otherwise |
| Api.OkDataBody | api.go:114-121 | a 200 body `{"result": "ok", "response": s, "data": d, "limit": l, "offset": o, "total": t}` gives exactly result "ok", response s, the data d kept raw, and the limit, offset and total as sent |
| Api.NonObjectBodyFails | api.go:115-118 | a 200 body that is an array or a scalar is an error |
| Manga.MangaPath | manga.go:12 | the path is "/manga/" followed by the id |
| Manga.MangaPathInjective | manga.go:81 | distinct ids give distinct paths |
| Manga.Manga.GetTitle | manga.go:40-45 | a non-empty title lookup is returned; a title present as "" or a lookup giving "" falls through to the alternative titles; fallback off and the code in neither map gives "" |
| Manga.EmptyTitle | manga.go:41-44 | the title can be "" only when both the title and the alternative-title lookups can give "" |
| Manga.NoTitles | manga.go:41-44 | with no titles at all, the result is exactly the alternative-title lookup |
| Manga.Manga.GetDescription | manga.go:51-53 | the description lookup with the same arguments: the exact match, or some value on fallback, or "" |
| Chapter.Chapter.GetTitle | chapter.go:30-32 | the stored title, "" when none was sent |
| Chapter.Chapter.GetChapterNum | chapter.go:35-40 | "-" for a nil chapter number, otherwise the stored text |
| Chapter.ChapterNumFromJson | chapter.go:35-40 | a chapter number sent as a string, even "", is returned as is; sent as null or left out it reads "-" |
| Chapter.TitleFromJson | chapter.go:30-32 | a title sent as "" reads as "", the same as one left out |
| ScanlationGroup.GroupGet | scanlation_group.go:14 | the path is "/group/" followed by the id, never the list path |
| ScanlationGroup.GroupGetInjective | scanlation_group.go:63 | distinct ids give distinct paths |
| ScanlationGroup.BuildListQuery | scanlation_group.go:89-109 | the query the successive adds build is exactly `ListQuery` of the options |
| ScanlationGroup.AddEach | scanlation_group.go:99-104 | adding each value of a list under a new key leaves the key holding the list, in order, or absent for an empty list |
| ScanlationGroup.ListQueryContents | scanlation_group.go:91-108 | `focusedLanguage`, `name`, `ids[]` and `includes[]` are present exactly when their option is non-empty, with the option's value(s) in order; no other key is sent and no `order` |
| ScanlationGroup.CountsReadBack | scanlation_group.go:97-98 | `limit` and `offset` are always sent, once each, as the decimal text of the integers |
| ScanlationGroup.OrderIgnored | scanlation_group.go:105-108 | the order option does not change the query |
| Format.Add | scanlation_group.go:92 | adding appends the value to the key's list and adds the key |
| Format.DecimalRoundTrip | scanlation_group.go:97-98 | the decimal text of an int reads back as the same int |
| Format.SplitJoin | at_home.go:90 | joining slash-free parts with "/" and splitting again gives back the parts |
| Format.BoolText | at_home.go:59 | the text is "true" exactly when the flag is set, "false" otherwise |
| AtHome.HomeServerPath | at_home.go:56 | the path is "/at-home/server/" followed by the chapter id |
| AtHome.HomeServerQuery | at_home.go:58-59 | the query holds `forcePort443` only, set once to "true" or "false" matching the flag |
| AtHome.SelectPages | at_home.go:74-77 | "data-saver" selects the data-saver pages, any other quality the full pages |
| AtHome.SelectPagesReach | at_home.go:74-77 | when the two lists differ, the data-saver list is chosen exactly for "data-saver" |
| AtHome.DecodeServerResponse | at_home.go:68-72 | an unparsable body gives its cause; a parsed body gives a server answer exactly when the `MDHomeServerResponse` struct decodes, failing with that decode's error otherwise; `null` gives an empty answer |
| AtHome.ServerAnswer | at_home.go:27-38 | an answer `{"result": "ok", "baseUrl": u, "chapter": {"hash": h, "data": ds, "dataSaver": ss}}` decodes to exactly u, h and the two page lists, in order |
| AtHome.NonObjectServerBody | at_home.go:68-72 | an answer that is an array or a scalar is an error |
| AtHome.NewMDHomeClient | at_home.go:62-85 | request and decode errors are returned unchanged; a client exists exactly for a 200 answer that decodes, with the quality as passed, base URL and hash from the answer, and the selected pages |
| AtHome.ClientFromAnswer | at_home.go:62-85 | a 200 answer of that form builds the client with the quality as passed, base URL u, hash h, and the pages ss for "data-saver" and ds otherwise |
| AtHome.MDHomeClient.PagePath | at_home.go:90 | base URL, quality, hash and file name joined by "/" |
| AtHome.PagePathParts | at_home.go:90 | with slash-free quality, hash and file name, the last three path segments are exactly those three |
| AtHome.Report | at_home.go:117-123 | the report names the page path, counts success, gives the byte count of the page, and is cached exactly when `X-Cache` starts with "HIT" |
| AtHome.GetChapterPage | at_home.go:109-127 | a read error is returned with no report; otherwise the page data is returned and the report for it is sent |
| AtHome.ReportMatchesPage | at_home.go:117-120 | a report is sent only when the page is returned, with its byte count and the page path |

## Left out

- HTTP transport, request building, `url.Parse` and `url.Values.Encode` are not modelled. The answer to a request is a parameter (`Result<HttpResponse>`), and a query is the `url.Values` multi-map before encoding.
- JSON byte parsing is not modelled: a body is either a parsed value or the reason it did not parse (`Json.Body`). Case-insensitive matching of JSON keys to struct fields is not modelled: keys match field names exactly.
- Decoder error texts give the JSON kind and the Go type, but not the struct and field context Go adds to a type mismatch. A field of a named string type, such as `RelationshipType`, is given as `string` rather than by its own name.
- UUID syntax is not checked: an id is kept as its text, and the zero id is the nil UUID's text.
- The attributes of an author and a tag's own relationships are declared outside the modelled files. Author attributes are a struct with no fields, and a tag's relationships are not decoded.
- LocalisedString.LocalisedStrings.UnmarshalJSON: the receiver is updated through a pointer in the source. Here its new value is returned, because the struct is held by value inside the attribute records.
- Relationship.Relationship.UnmarshalJSON: after the attributes fail to decode, the model keeps the selected variant's zero struct, whereas Go keeps the struct as far as it was decoded; the contract states only the variant.
- AtHome.GetChapterPage: the page fetch is a parameter holding the bytes read and the `X-Cache` header. A non-200 page is not an error, because the error set at at_home.go:102-106 is overwritten by the body read. The path where no response arrives at all is not modelled. `Success` is always true where the report is built.
- AtHome.Report: the `Duration` field is not modelled, because it is clock time. The report is sent by a goroutine posting it to `MDHomeReportURL`; that concurrency and network I/O are not modelled.
- The resource `Get`/`List` request wrappers in manga.go, chapter.go and the other services are not modelled; several call `RequestAndDecode` with a signature api.go does not declare. `VolumeService.List` is modelled from its classification of `volumes` on.
- tag.go, user.go and cover.go are not part of this model. Their code is outside the decision layer, or calls `GetLocalString` with a signature localized_string.go does not declare. Of static_data.go only the relationship type tags (static_data.go:55-65) are modelled, in `Relationship`.
- Volume.ListVolumes: the first decode, into `interface{}` (volume.go:58-62), turns every number into a float64 and fails on one outside the float64 range anywhere inside `volumes`. The model does not check number magnitudes in that pass, so for such input it reports the outcome of the classification instead of that error.
- ScanlationGroup.ListQuery: `List` dereferences its options pointer, so a nil pointer makes it panic; the model takes the options by value and has no nil case.
- Go's `int` is 64 bits wide: an integer outside that range is a decode error. Arithmetic on such ints does not occur in the modelled code.
