/**
 * MangaDex@Home: asking the service for the server that holds a chapter's
 * pages, building the client that fetches them, the address of each page,
 * and the report sent after a page arrives.
 */
module AtHome {
  import opened Wrappers
  import opened Json
  import opened Format
  import opened Decode
  import opened Api

  const GetMDHomeURLPrefix := "/at-home/server/"
  const MDHomeReportURL := "https://api.mangadex.network/report"
  const DataSaverQuality := "data-saver"

  /** The request path for a chapter's server: `GetMDHomeURLPath` with the chapter id in place of its `%s`. */
  function HomeServerPath(chapterID: string): (p: string)
    ensures GetMDHomeURLPrefix <= p && p[|GetMDHomeURLPrefix|..] == chapterID
  {
    GetMDHomeURLPrefix + chapterID
  }

  /** The query of that request: `forcePort443` set once, to the flag's text. */
  function HomeServerQuery(forcePort443: bool): (q: Query)
    ensures q.Keys == {"forcePort443"}
    ensures forcePort443 <==> q["forcePort443"] == ["true"]
    ensures !forcePort443 <==> q["forcePort443"] == ["false"]
  {
    map["forcePort443" := [BoolText(forcePort443)]]
  }

  datatype ChapterData = ChapterData(hash: string, data: seq<string>, dataSaver: seq<string>)

  datatype MDHomeServerResponse = MDHomeServerResponse(result: string, baseUrl: string, chapter: ChapterData)

  const ChapterDataSchema := Schema("mangodex.ChapterData", [
    Field("hash", Text),
    Field("data", ListOf(Text)),
    Field("dataSaver", ListOf(Text))
  ])

  const MDHomeServerResponseSchema := Schema("mangodex.MDHomeServerResponse", [
    Field("result", Text),
    Field("baseUrl", Text),
    Field("chapter", Struct(ChapterDataSchema))
  ])

  function ServerResponseOf(v: Value): MDHomeServerResponse
  {
    var r := if v.StructV? then v.record else map[];
    var c := if "chapter" in r && r["chapter"].StructV? then r["chapter"].record else map[];
    MDHomeServerResponse(TextField(r, "result"), TextField(r, "baseUrl"),
      ChapterData(TextField(c, "hash"), TextListField(c, "data"), TextListField(c, "dataSaver")))
  }

  /** Decoding the 200 body into an `MDHomeServerResponse`. */
  function DecodeServerResponse(body: Body): (r: Result<MDHomeServerResponse>)
    ensures body.Unparsable? ==> r == Failure(CauseText(body.cause))
    ensures body == Parsed(JNull) ==> r == Success(MDHomeServerResponse("", "", ChapterData("", [], [])))
    ensures body.Parsed? ==>
      var decoded := Unmarshal(Struct(MDHomeServerResponseSchema), Zero(Struct(MDHomeServerResponseSchema)), body.value);
      (r.Success? <==> decoded.Success?) && (r.Failure? ==> r.error == decoded.error)
  {
    match body
    case Unparsable(c) => Failure(CauseText(c))
    case Parsed(j) =>
      match Unmarshal(Struct(MDHomeServerResponseSchema), Zero(Struct(MDHomeServerResponseSchema)), j)
      case Failure(e) => Failure(e)
      case Success(v) => Success(ServerResponseOf(v))
  }

  /** A body that is an array, a string, a number or a bool gives no server. */
  lemma NonObjectServerBody(j: Json)
    requires !j.JNull? && !j.JObject?
    ensures DecodeServerResponse(Parsed(j)).Failure?
  {
    WrongKindFails(Struct(MDHomeServerResponseSchema), Zero(Struct(MDHomeServerResponseSchema)), j);
  }

  /** A chapter's page lists as the service sends them. */
  function ChapterDataJson(hash: string, data: seq<string>, dataSaver: seq<string>): Json
  {
    JObject([Member("hash", JString(hash)), Member("data", JArray(JStrings(data))), Member("dataSaver", JArray(JStrings(dataSaver)))])
  }

  /** A server answer as the service sends it. */
  function ServerJson(baseUrl: string, hash: string, data: seq<string>, dataSaver: seq<string>): Json
  {
    JObject([Member("result", JString("ok")), Member("baseUrl", JString(baseUrl)),
      Member("chapter", ChapterDataJson(hash, data, dataSaver))])
  }

  function ChapterDataRecord(hash: string, data: seq<string>, dataSaver: seq<string>): Record
  {
    map["hash" := TextV(hash), "data" := ListV(TextVs(data)), "dataSaver" := ListV(TextVs(dataSaver))]
  }

  /** A server answer decodes to exactly the base URL, hash and page lists it carries. */
  lemma ServerAnswer(baseUrl: string, hash: string, data: seq<string>, dataSaver: seq<string>)
    ensures DecodeServerResponse(Parsed(ServerJson(baseUrl, hash, data, dataSaver))) ==
      Success(MDHomeServerResponse("ok", baseUrl, ChapterData(hash, data, dataSaver)))
  {
    ServerDecodes(baseUrl, hash, data, dataSaver);
    ServerReadBack(baseUrl, hash, data, dataSaver);
  }

  function ServerRecord(baseUrl: string, hash: string, data: seq<string>, dataSaver: seq<string>): Record
  {
    map["result" := TextV("ok"), "baseUrl" := TextV(baseUrl), "chapter" := StructV(ChapterDataRecord(hash, data, dataSaver))]
  }

  lemma ServerDecodes(baseUrl: string, hash: string, data: seq<string>, dataSaver: seq<string>)
    ensures DecodeInto(Struct(MDHomeServerResponseSchema), Zero(Struct(MDHomeServerResponseSchema)), ServerJson(baseUrl, hash, data, dataSaver)) ==
      Decoded(StructV(ServerRecord(baseUrl, hash, data, dataSaver)), None)
  {
    var fields := MDHomeServerResponseSchema.fields;
    var ms := ServerJson(baseUrl, hash, data, dataSaver).members;
    var chapter := StructV(ChapterDataRecord(hash, data, dataSaver));
    ServerFieldIndexes();
    ChapterDataDecodes(hash, data, dataSaver);
    var r1 := map["result" := TextV("ok")];
    var r2 := r1["baseUrl" := TextV(baseUrl)];
    TextMemberSets(fields, map[], ms, None, 0);
    TextMemberSets(fields, r1, ms[1..], None, 1);
    MemberSets(fields, r2, ms[2..], None, 2, chapter);
    assert ms[3..] == [];
  }

  lemma ServerReadBack(baseUrl: string, hash: string, data: seq<string>, dataSaver: seq<string>)
    ensures ServerResponseOf(StructV(ServerRecord(baseUrl, hash, data, dataSaver))) ==
      MDHomeServerResponse("ok", baseUrl, ChapterData(hash, data, dataSaver))
  {
    TextListFieldOf(ChapterDataRecord(hash, data, dataSaver), "data", data);
    TextListFieldOf(ChapterDataRecord(hash, data, dataSaver), "dataSaver", dataSaver);
  }

  lemma ServerFieldIndexes()
    ensures FieldIndex(MDHomeServerResponseSchema.fields, "result") == Some(0)
    ensures FieldIndex(MDHomeServerResponseSchema.fields, "baseUrl") == Some(1)
    ensures FieldIndex(MDHomeServerResponseSchema.fields, "chapter") == Some(2)
  {
    var fields := MDHomeServerResponseSchema.fields;
    assert "chapter"[0] != "baseUrl"[0];
    assert FieldIndex(fields[2..], "chapter") == Some(0);
    assert FieldIndex(fields[1..], "baseUrl") == Some(0);
  }

  lemma ChapterDataFieldIndexes()
    ensures FieldIndex(ChapterDataSchema.fields, "hash") == Some(0)
    ensures FieldIndex(ChapterDataSchema.fields, "data") == Some(1)
    ensures FieldIndex(ChapterDataSchema.fields, "dataSaver") == Some(2)
  {
    var fields := ChapterDataSchema.fields;
    assert "data"[0] != "hash"[0];
    assert FieldIndex(fields[2..], "dataSaver") == Some(0);
    assert FieldIndex(fields[1..], "data") == Some(0);
  }

  lemma ChapterDataDecodes(hash: string, data: seq<string>, dataSaver: seq<string>)
    ensures DecodeInto(Struct(ChapterDataSchema), Zero(Struct(ChapterDataSchema)), ChapterDataJson(hash, data, dataSaver)) ==
      Decoded(StructV(ChapterDataRecord(hash, data, dataSaver)), None)
  {
    var fields := ChapterDataSchema.fields;
    var ms := ChapterDataJson(hash, data, dataSaver).members;
    ChapterDataFieldIndexes();
    TextArrayDecodes(data);
    var r2 := map["hash" := TextV(hash), "data" := ListV(TextVs(data))];
    TextMemberSets(fields, map[], ms, None, 0);
    MemberSets(fields, map["hash" := TextV(hash)], ms[1..], None, 1, ListV(TextVs(data)));
    assert ms[1..][1..] == [Member("dataSaver", JArray(JStrings(dataSaver)))];
    DataSaverTail(r2, dataSaver);
  }

  lemma DataSaverTail(r: Record, dataSaver: seq<string>)
    requires "dataSaver" !in r
    ensures MembersInto(ChapterDataSchema.fields, r, [Member("dataSaver", JArray(JStrings(dataSaver)))], None) ==
      Decoded(StructV(r["dataSaver" := ListV(TextVs(dataSaver))]), None)
  {
    ChapterDataFieldIndexes();
    TextArrayDecodes(dataSaver);
    MemberSets(ChapterDataSchema.fields, r, [Member("dataSaver", JArray(JStrings(dataSaver)))], None, 2, ListV(TextVs(dataSaver)));
  }

  /** The page list a quality selects: the data-saver pages for "data-saver", the full pages for anything else. */
  function SelectPages(quality: string, chapter: ChapterData): (pages: seq<string>)
    ensures quality == DataSaverQuality ==> pages == chapter.dataSaver
    ensures quality != DataSaverQuality ==> pages == chapter.data
  {
    if quality == DataSaverQuality then chapter.dataSaver else chapter.data
  }

  /** Either page list is reachable, and only through its own quality names. */
  lemma SelectPagesReach(chapter: ChapterData, quality: string)
    requires chapter.data != chapter.dataSaver
    ensures SelectPages(quality, chapter) == chapter.dataSaver <==> quality == DataSaverQuality
    ensures SelectPages(quality, chapter) == chapter.data <==> quality != DataSaverQuality
  {
  }

  /** A client for one chapter; none of its fields change after it is built. */
  datatype MDHomeClient = MDHomeClient(quality: string, baseUrl: string, hash: string, pages: seq<string>) {

    /** The address of a page: base URL, quality, chapter hash and file name joined by "/". */
    function PagePath(filename: string): (path: string)
      ensures path == baseUrl + "/" + quality + "/" + hash + "/" + filename
    {
      JoinFour(baseUrl, quality, hash, filename);
      Join([baseUrl, quality, hash, filename], "/")
    }
  }

  lemma JoinFour(a: string, b: string, c: string, d: string)
    ensures Join([a, b, c, d], "/") == a + "/" + b + "/" + c + "/" + d
  {
    var parts := [a, b, c, d];
    assert parts[..3] == [a, b, c];
    assert [a, b, c][..2] == [a, b];
    assert [a, b][..1] == [a];
    assert Join([a], "/") == a;
    assert Join([a, b], "/") == a + "/" + b;
    assert Join([a, b, c], "/") == a + "/" + b + "/" + c;
  }

  /**
   * `AtHomeService.NewMDHomeClient` once the request to
   * `HomeServerPath(chapterID)` with `HomeServerQuery(forcePort443)` is made:
   * `transport` is what sending it gave.
   */
  function NewMDHomeClient(quality: string, transport: Result<HttpResponse>): (r: Result<MDHomeClient>)
    ensures Request(transport).Failure? ==> r == Failure(Request(transport).error)
    ensures Request(transport).Success? && DecodeServerResponse(transport.value.body).Failure? ==>
      r == Failure(DecodeServerResponse(transport.value.body).error)
    ensures r.Success? ==> transport.Success? && transport.value.statusCode == 200
    ensures Request(transport).Success? && DecodeServerResponse(transport.value.body).Success? ==> r.Success?
    ensures r.Success? ==>
      var res := DecodeServerResponse(transport.value.body).value;
      r.value.quality == quality && r.value.baseUrl == res.baseUrl &&
      r.value.hash == res.chapter.hash && r.value.pages == SelectPages(quality, res.chapter)
  {
    match Request(transport)
    case Failure(e) => Failure(e)
    case Success(resp) =>
      match DecodeServerResponse(resp.body)
      case Failure(e) => Failure(e)
      case Success(res) => Success(MDHomeClient(quality, res.baseUrl, res.chapter.hash, SelectPages(quality, res.chapter)))
  }

  /** A 200 server answer builds the client holding its base URL, its hash and the page list the quality selects. */
  lemma ClientFromAnswer(quality: string, baseUrl: string, hash: string, data: seq<string>, dataSaver: seq<string>)
    ensures NewMDHomeClient(quality, Success(HttpResponse(200, Parsed(ServerJson(baseUrl, hash, data, dataSaver))))) ==
      Success(MDHomeClient(quality, baseUrl, hash, if quality == DataSaverQuality then dataSaver else data))
  {
    ServerAnswer(baseUrl, hash, data, dataSaver);
  }

  /** With a base URL of its own and slash-free quality, hash and file name, a page path splits back into its parts. */
  lemma PagePathParts(c: MDHomeClient, filename: string)
    requires Free(c.quality, '/') && Free(c.hash, '/') && Free(filename, '/')
    ensures Split(c.PagePath(filename), '/') == Split(c.baseUrl, '/') + [c.quality, c.hash, filename]
  {
    var withQuality := c.baseUrl + "/" + c.quality;
    var withHash := withQuality + "/" + c.hash;
    SplitAppend(c.baseUrl, '/', c.quality);
    SplitAppend(withQuality, '/', c.hash);
    SplitAppend(withHash, '/', filename);
  }

  /** A page as read from the wire: its bytes and its `X-Cache` header. */
  datatype PageResponse = PageResponse(data: seq<bv8>, xCache: string)

  /** The report on one fetched page. */
  datatype ReportPayload = ReportPayload(url: string, success: bool, bytes: int, cached: bool)

  /** The report the client sends once a page is read: its address, success, byte count and whether a cache served it. */
  function Report(path: string, page: PageResponse): (r: ReportPayload)
    ensures r.url == path && r.success
    ensures r.bytes == |page.data|
    ensures r.cached <==> |page.xCache| >= 3 && page.xCache[..3] == "HIT"
  {
    ReportPayload(path, true, |page.data|, "HIT" <= page.xCache)
  }

  /**
   * `MDHomeClient.GetChapterPage`: `read` is the outcome of reading the page
   * body at `PagePath(filename)`. The page data, and the report sent for it;
   * a read error is returned with no report.
   */
  function GetChapterPage(c: MDHomeClient, filename: string, read: Result<PageResponse>): (r: (Result<seq<bv8>>, Option<ReportPayload>))
    ensures read.Failure? ==> r.0 == Failure(read.error) && r.1.None?
    ensures read.Success? ==> r.0 == Success(read.value.data)
    ensures read.Success? ==> r.1 == Some(Report(c.PagePath(filename), read.value))
  {
    match read
    case Failure(e) => (Failure(e), None)
    case Success(page) => (Success(page.data), Some(Report(c.PagePath(filename), page)))
  }

  /** A sent report always counts the bytes handed back to the caller and names the page's address. */
  lemma ReportMatchesPage(c: MDHomeClient, filename: string, read: Result<PageResponse>)
    requires GetChapterPage(c, filename, read).1.Some?
    ensures GetChapterPage(c, filename, read).0.Success?
    ensures GetChapterPage(c, filename, read).1.value.bytes == |GetChapterPage(c, filename, read).0.value|
    ensures GetChapterPage(c, filename, read).1.value.url == c.PagePath(filename)
  {
  }
}
