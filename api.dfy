/**
 * The request layer every service goes through: a response whose status is not
 * 200 becomes an error carrying the status code and the service's error
 * envelope; `RequestAndDecode` then decodes a 200 body into the generic
 * `DexResponse`.
 */
module Api {
  import opened Wrappers
  import opened Json
  import opened Format
  import opened Decode
  import opened ErrorResponse

  const BaseAPI := "https://api.mangadex.org"

  /** What the HTTP client returned: the status code and the body as the JSON decoder reads it. */
  datatype HttpResponse = HttpResponse(statusCode: int, body: Body)

  datatype DexResponse = DexResponse(result: string, response: string, data: Option<Json>, limit: int, offset: int, total: int)

  const StatusPrefix := "non-200 status code -> ("
  const UndecodablePrefix := "failed to decode into ErrorResponse (HTML response?), error: "

  /** The part of a non-200 error after the status code: the envelope's lines, or why the body is no envelope. */
  function ErrorMessage(body: Body): (m: string)
    ensures body.Unparsable? ==> m == UndecodablePrefix + CauseText(body.cause)
    ensures body.Parsed? && DecodeErrorResponse(body.value).Failure? ==>
      m == UndecodablePrefix + DecodeErrorResponse(body.value).error
    ensures body.Parsed? && DecodeErrorResponse(body.value).Success? ==>
      m == ErrorsText(DecodeErrorResponse(body.value).value.errors)
  {
    match body
    case Unparsable(c) => UndecodablePrefix + CauseText(c)
    case Parsed(j) =>
      match DecodeErrorResponse(j)
      case Failure(e) => UndecodablePrefix + e
      case Success(er) => ErrorsText(er.errors)
  }

  /**
   * `DexClient.Request` once the request is sent: `transport` is what building
   * and sending it gave (an error from either step, or the response).
   */
  function Request(transport: Result<HttpResponse>): (r: Result<HttpResponse>)
    ensures r.Success? <==> transport.Success? && transport.value.statusCode == 200
    ensures r.Success? || transport.Failure? ==> r == transport
    ensures transport.Success? && transport.value.statusCode != 200 ==>
      r.error == StatusPrefix + DecimalText(transport.value.statusCode) + ") " + ErrorMessage(transport.value.body)
  {
    match transport
    case Failure(e) => Failure(e)
    case Success(resp) =>
      if resp.statusCode != 200 then
        Failure(StatusPrefix + DecimalText(resp.statusCode) + ") " + ErrorMessage(resp.body))
      else Success(resp)
  }

  /** The text of `s` before the first `c`. */
  function Before(s: string, c: char): (r: string)
    ensures r <= s && Free(r, c)
    decreases |s|
  {
    if s == [] || s[0] == c then [] else [s[0]] + Before(s[1..], c)
  }

  predicate IsDecimal(s: string)
  {
    |s| > 0 && (s[0] == '-' ==> |s| > 1) &&
    forall i :: (if s[0] == '-' then 1 else 0) <= i < |s| ==> IsDigit(s[i])
  }

  /** Reads the status code back out of a non-200 error; an independent reader of the error format. */
  function StatusOf(e: string): Option<int>
  {
    if StatusPrefix <= e then
      var d := Before(e[|StatusPrefix|..], ')');
      if IsDecimal(d) then Some(ParseDecimal(d)) else None
    else None
  }

  lemma {:induction false} BeforeFree(d: string, c: char, rest: string)
    requires Free(d, c)
    ensures Before(d + [c] + rest, c) == d
    decreases |d|
  {
    if d != [] {
      assert (d + [c] + rest)[1..] == d[1..] + [c] + rest;
      BeforeFree(d[1..], c, rest);
    }
  }

  /** The status code of a rejected response can be read back from the error, whatever the body held. */
  lemma StatusReadBack(resp: HttpResponse)
    requires resp.statusCode != 200
    ensures Request(Success(resp)).Failure?
    ensures StatusOf(Request(Success(resp)).error) == Some(resp.statusCode)
  {
    StatusTextReadBack(resp.statusCode, ErrorMessage(resp.body));
  }

  /** Whatever message follows it, the status in the error's prefix reads back as the code. */
  lemma StatusTextReadBack(code: int, message: string)
    ensures StatusOf(StatusPrefix + DecimalText(code) + ") " + message) == Some(code)
  {
    var d := DecimalText(code);
    DecimalRoundTrip(code);
    var rest := " " + message;
    var e := StatusPrefix + DecimalText(code) + ") " + message;
    assert e == StatusPrefix + (d + [')'] + rest);
    assert e[|StatusPrefix|..] == d + [')'] + rest;
    assert Free(d, ')');
    BeforeFree(d, ')', rest);
  }

  /** Each error of a decodable envelope appears as its own line of the message, in order. */
  lemma EnvelopeLines(resp: HttpResponse, i: nat)
    requires resp.statusCode != 200 && resp.body.Parsed?
    requires DecodeErrorResponse(resp.body.value).Success?
    requires i < |DecodeErrorResponse(resp.body.value).value.errors|
    ensures var errors := DecodeErrorResponse(resp.body.value).value.errors;
      var e := Request(Success(resp)).error;
      var start := |StatusPrefix + DecimalText(resp.statusCode) + ") "| + |ErrorsText(errors[..i])|;
      start + |Segment(errors[i])| <= |e| && e[start..start + |Segment(errors[i])|] == Segment(errors[i])
  {
    var errors := DecodeErrorResponse(resp.body.value).value.errors;
    var head := StatusPrefix + DecimalText(resp.statusCode) + ") ";
    SegmentAt(errors, i);
    assert Request(Success(resp)).error == head + ErrorsText(errors);
  }

  const DexResponseSchema := Schema("mangodex.DexResponse", [
    Field("result", Text),
    Field("response", Text),
    Field("data", Raw),
    Field("limit", Int),
    Field("offset", Int),
    Field("total", Int)
  ])

  function DexResponseOf(v: Value): DexResponse
  {
    var r := if v.StructV? then v.record else map[];
    DexResponse(TextField(r, "result"), TextField(r, "response"), RawField(r, "data"),
      IntField(r, "limit"), IntField(r, "offset"), IntField(r, "total"))
  }

  /** `DexClient.RequestAndDecode`: a request error unchanged, else the 200 body decoded into a `DexResponse`. */
  function RequestAndDecode(transport: Result<HttpResponse>): (r: Result<DexResponse>)
    ensures Request(transport).Failure? ==> r == Failure(Request(transport).error)
    ensures r.Success? ==> transport.Success? && transport.value.statusCode == 200 && transport.value.body.Parsed?
    ensures transport.Success? && transport.value.statusCode == 200 && transport.value.body.Unparsable? ==>
      r == Failure(CauseText(transport.value.body.cause))
    ensures Request(transport).Success? && transport.value.body.Parsed? ==>
      var decoded := Unmarshal(Struct(DexResponseSchema), Zero(Struct(DexResponseSchema)), transport.value.body.value);
      (r.Success? <==> decoded.Success?) && (r.Failure? ==> r.error == decoded.error)
  {
    match Request(transport)
    case Failure(e) => Failure(e)
    case Success(resp) =>
      match resp.body
      case Unparsable(c) => Failure(CauseText(c))
      case Parsed(j) =>
        match Unmarshal(Struct(DexResponseSchema), Zero(Struct(DexResponseSchema)), j)
        case Failure(e) => Failure(e)
        case Success(v) => Success(DexResponseOf(v))
  }

  /** A 200 body of `null` leaves the response at its zero value and is no error. */
  lemma NullBody()
    ensures RequestAndDecode(Success(HttpResponse(200, Parsed(JNull)))) == Success(DexResponse("", "", None, 0, 0, 0))
  {
  }

  /** A 200 envelope as sent: result, response, data, and the paging integers. */
  function DexJson(response: string, d: Json, limit: int, offset: int, total: int): Json
  {
    JObject([Member("result", JString("ok")), Member("response", JString(response)), Member("data", d),
      Member("limit", JNumber(Integer(limit))), Member("offset", JNumber(Integer(offset))), Member("total", JNumber(Integer(total)))])
  }

  /**
   * A 200 body `{"result": "ok", "response": r, "data": d, "limit": l, "offset": o, "total": t}`
   * decodes to exactly those values, the data kept raw.
   */
  lemma OkDataBody(response: string, d: Json, limit: int, offset: int, total: int)
    requires MinInt <= limit <= MaxInt && MinInt <= offset <= MaxInt && MinInt <= total <= MaxInt
    ensures RequestAndDecode(Success(HttpResponse(200, Parsed(DexJson(response, d, limit, offset, total))))) ==
      Success(DexResponse("ok", response, Some(d), limit, offset, total))
  {
    DexMembers(response, d, limit, offset, total);
    DexReadBack(response, d, limit, offset, total);
  }

  function DexRecord(response: string, d: Json, limit: int, offset: int, total: int): Record
  {
    map["result" := TextV("ok"), "response" := TextV(response), "data" := RawV(Some(d)),
      "limit" := IntV(limit), "offset" := IntV(offset), "total" := IntV(total)]
  }

  lemma DexReadBack(response: string, d: Json, limit: int, offset: int, total: int)
    ensures DexResponseOf(StructV(DexRecord(response, d, limit, offset, total))) == DexResponse("ok", response, Some(d), limit, offset, total)
  {
  }

  lemma DexMembers(response: string, d: Json, limit: int, offset: int, total: int)
    requires MinInt <= limit <= MaxInt && MinInt <= offset <= MaxInt && MinInt <= total <= MaxInt
    ensures MembersInto(DexResponseSchema.fields, map[], DexJson(response, d, limit, offset, total).members, None) ==
      Decoded(StructV(DexRecord(response, d, limit, offset, total)), None)
  {
    var first := [Member("result", JString("ok")), Member("response", JString(response))];
    var second := [Member("data", d), Member("limit", JNumber(Integer(limit)))];
    var third := [Member("offset", JNumber(Integer(offset))), Member("total", JNumber(Integer(total)))];
    assert DexJson(response, d, limit, offset, total).members == first + (second + third);
    var r2 := map["result" := TextV("ok"), "response" := TextV(response)];
    DexFirst(response, second + third);
    DexSecond(r2, d, limit, third);
    DexThird(r2["data" := RawV(Some(d))]["limit" := IntV(limit)], offset, total);
  }

  lemma DexFirst(response: string, rest: seq<Member>)
    ensures MembersInto(DexResponseSchema.fields, map[], [Member("result", JString("ok")), Member("response", JString(response))] + rest, None) ==
      MembersInto(DexResponseSchema.fields, map["result" := TextV("ok"), "response" := TextV(response)], rest, None)
  {
    var ms := [Member("result", JString("ok")), Member("response", JString(response))] + rest;
    DexFieldIndexes();
    TextMemberSets(DexResponseSchema.fields, map[], ms, None, 0);
    assert ms[1..][1..] == rest;
    TextMemberSets(DexResponseSchema.fields, map["result" := TextV("ok")], ms[1..], None, 1);
  }

  lemma DexSecond(r: Record, d: Json, limit: int, rest: seq<Member>)
    requires MinInt <= limit <= MaxInt
    ensures MembersInto(DexResponseSchema.fields, r, [Member("data", d), Member("limit", JNumber(Integer(limit)))] + rest, None) ==
      MembersInto(DexResponseSchema.fields, r["data" := RawV(Some(d))]["limit" := IntV(limit)], rest, None)
  {
    var ms := [Member("data", d), Member("limit", JNumber(Integer(limit)))] + rest;
    DexFieldIndexes();
    RawMemberSets(DexResponseSchema.fields, r, ms, None, 2);
    assert ms[1..][1..] == rest;
    IntMemberSets(DexResponseSchema.fields, r["data" := RawV(Some(d))], ms[1..], None, 3, limit);
  }

  lemma DexThird(r: Record, offset: int, total: int)
    requires MinInt <= offset <= MaxInt && MinInt <= total <= MaxInt
    ensures MembersInto(DexResponseSchema.fields, r, [Member("offset", JNumber(Integer(offset))), Member("total", JNumber(Integer(total)))], None) ==
      Decoded(StructV(r["offset" := IntV(offset)]["total" := IntV(total)]), None)
  {
    var ms := [Member("offset", JNumber(Integer(offset))), Member("total", JNumber(Integer(total)))];
    DexFieldIndexes();
    IntMemberSets(DexResponseSchema.fields, r, ms, None, 4, offset);
    IntMemberSets(DexResponseSchema.fields, r["offset" := IntV(offset)], ms[1..], None, 5, total);
  }

  lemma DexFieldIndexes()
    ensures FieldIndex(DexResponseSchema.fields, "result") == Some(0)
    ensures FieldIndex(DexResponseSchema.fields, "response") == Some(1)
    ensures FieldIndex(DexResponseSchema.fields, "data") == Some(2)
    ensures FieldIndex(DexResponseSchema.fields, "limit") == Some(3)
    ensures FieldIndex(DexResponseSchema.fields, "offset") == Some(4)
    ensures FieldIndex(DexResponseSchema.fields, "total") == Some(5)
  {
    var fields := DexResponseSchema.fields;
    assert "result"[0] != "data"[0] && "response"[0] != "data"[0];
    assert "result"[0] != "offset"[0] && "limit"[0] != "total"[0];
    assert FieldIndex(fields[5..], "total") == Some(0);
    assert FieldIndex(fields[4..], "offset") == Some(0);
    assert FieldIndex(fields[3..], "limit") == Some(0);
    assert FieldIndex(fields[2..], "data") == Some(0);
    assert FieldIndex(fields[1..], "response") == Some(0);
  }

  /**
   * A refused request whose body is an error envelope, as the service sends
   * it, fails with the status and every error's `title: detail` line, in order.
   */
  lemma EnvelopeMessage(code: int, er: ErrorResponse)
    requires code != 200 && StatusesFit(er.errors)
    ensures Request(Success(HttpResponse(code, Parsed(EnvelopeJson(er))))) ==
      Failure(StatusPrefix + DecimalText(code) + ") " + ErrorsText(er.errors))
  {
    EnvelopeRoundTrip(er);
  }

  /** A 200 body that is an array, a string, a number or a bool is an error. */
  lemma NonObjectBodyFails(j: Json)
    requires !j.JNull? && !j.JObject?
    ensures RequestAndDecode(Success(HttpResponse(200, Parsed(j)))).Failure?
  {
    WrongKindFails(Struct(DexResponseSchema), Zero(Struct(DexResponseSchema)), j);
  }
}
