/** The error envelope the service sends with a failed request, and its rendering as one message. */
module ErrorResponse {
  import opened Wrappers
  import opened Json
  import opened Decode

  datatype Error = Error(id: string, status: int, title: string, detail: string)

  datatype ErrorResponse = ErrorResponse(result: string, errors: seq<Error>)

  /** `GetResult`: the envelope's result field. */
  function GetResult(er: ErrorResponse): (r: string)
    ensures r == er.result
  {
    er.result
  }

  /** One error's line of the message. */
  function Segment(e: Error): string
  {
    e.title + ": " + e.detail + "\n"
  }

  /** The lines of all errors, in order. */
  function ErrorsText(errors: seq<Error>): string
    decreases |errors|
  {
    if errors == [] then ""
    else ErrorsText(errors[..|errors| - 1]) + Segment(errors[|errors| - 1])
  }

  /** `GetErrors`: appends each error's line to a builder. */
  method GetErrors(er: ErrorResponse) returns (s: string)
    ensures s == ErrorsText(er.errors)
  {
    var builder := "";
    var i := 0;
    while i < |er.errors|
      invariant 0 <= i <= |er.errors|
      invariant builder == ErrorsText(er.errors[..i])
    {
      var err := er.errors[i];
      builder := builder + err.title + ": " + err.detail + "\n";
      assert er.errors[..i + 1][..i] == er.errors[..i];
      i := i + 1;
    }
    assert er.errors[..i] == er.errors;
    return builder;
  }

  /** The message of two lists back to back is the two messages back to back. */
  lemma {:induction false} ErrorsTextAppend(a: seq<Error>, b: seq<Error>)
    ensures ErrorsText(a + b) == ErrorsText(a) + ErrorsText(b)
    decreases |b|
  {
    if b != [] {
      var b' := b[..|b| - 1];
      assert (a + b)[..|a + b| - 1] == a + b';
      assert (a + b)[|a + b| - 1] == b[|b| - 1];
      ErrorsTextAppend(a, b');
      calc {
        ErrorsText(a + b);
        ErrorsText(a + b') + Segment(b[|b| - 1]);
        ErrorsText(a) + ErrorsText(b') + Segment(b[|b| - 1]);
      }
    } else {
      assert a + b == a;
    }
  }

  /** Error i's line sits in the message right after the lines of the errors before it. */
  lemma SegmentAt(errors: seq<Error>, i: nat)
    requires i < |errors|
    ensures var start := |ErrorsText(errors[..i])|;
      start + |Segment(errors[i])| <= |ErrorsText(errors)| &&
      ErrorsText(errors)[start..start + |Segment(errors[i])|] == Segment(errors[i])
  {
    assert errors == errors[..i] + [errors[i]] + errors[i + 1..];
    ErrorsTextAppend(errors[..i] + [errors[i]], errors[i + 1..]);
    ErrorsTextAppend(errors[..i], [errors[i]]);
    assert ErrorsText([errors[i]]) == Segment(errors[i]) by {
      assert [errors[i]][..0] == [];
    }
  }

  /** The message depends on titles and details only: ids and statuses never reach it. */
  lemma {:induction false} OnlyTitlesAndDetails(a: seq<Error>, b: seq<Error>)
    requires |a| == |b|
    requires forall i :: 0 <= i < |a| ==> a[i].title == b[i].title && a[i].detail == b[i].detail
    ensures ErrorsText(a) == ErrorsText(b)
    decreases |a|
  {
    if a != [] {
      OnlyTitlesAndDetails(a[..|a| - 1], b[..|b| - 1]);
    }
  }

  function Occurrences(s: string, c: char): nat
    decreases |s|
  {
    if s == [] then 0 else Occurrences(s[..|s| - 1], c) + (if s[|s| - 1] == c then 1 else 0)
  }

  lemma {:induction false} OccurrencesAppend(s: string, t: string, c: char)
    ensures Occurrences(s + t, c) == Occurrences(s, c) + Occurrences(t, c)
    decreases |t|
  {
    if t != [] {
      assert (s + t)[..|s + t| - 1] == s + t[..|t| - 1];
      assert (s + t)[|s + t| - 1] == t[|t| - 1];
      OccurrencesAppend(s, t[..|t| - 1], c);
    } else {
      assert s + t == s;
    }
  }

  /** With no line break inside titles and details, the message has exactly one line per error. */
  lemma {:induction false} OneLinePerError(errors: seq<Error>)
    requires forall i :: 0 <= i < |errors| ==> Occurrences(errors[i].title, '\n') == 0 && Occurrences(errors[i].detail, '\n') == 0
    ensures Occurrences(ErrorsText(errors), '\n') == |errors|
    decreases |errors|
  {
    if errors != [] {
      var e := errors[|errors| - 1];
      OneLinePerError(errors[..|errors| - 1]);
      OccurrencesAppend(ErrorsText(errors[..|errors| - 1]), Segment(e), '\n');
      OccurrencesAppend(e.title + ": " + e.detail, "\n", '\n');
      OccurrencesAppend(e.title + ": ", e.detail, '\n');
      OccurrencesAppend(e.title, ": ", '\n');
    }
  }

  const ErrorSchema := Schema("mangodex.Error", [
    Field("id", Text),
    Field("status", Int),
    Field("title", Text),
    Field("detail", Text)
  ])

  const ErrorResponseSchema := Schema("mangodex.ErrorResponse", [
    Field("result", Text),
    Field("errors", ListOf(Struct(ErrorSchema)))
  ])

  function ErrorOf(v: Value): Error
  {
    var r := if v.StructV? then v.record else map[];
    Error(TextField(r, "id"), IntField(r, "status"), TextField(r, "title"), TextField(r, "detail"))
  }

  /** Decoding a body into an `ErrorResponse`. */
  function DecodeErrorResponse(j: Json): (r: Result<ErrorResponse>)
    ensures j.JNull? ==> r == Success(ErrorResponse("", []))
    ensures var decoded := Unmarshal(Struct(ErrorResponseSchema), Zero(Struct(ErrorResponseSchema)), j);
      (r.Success? <==> decoded.Success?) && (r.Failure? ==> r.error == decoded.error)
  {
    match Unmarshal(Struct(ErrorResponseSchema), Zero(Struct(ErrorResponseSchema)), j)
    case Failure(e) => Failure(e)
    case Success(v) =>
      var r := if v.StructV? then v.record else map[];
      var items := if "errors" in r && r["errors"].ListV? then r["errors"].items else [];
      var errors := seq(|items|, i requires 0 <= i < |items| => ErrorOf(items[i]));
      assert items == [] ==> errors == [];
      Success(ErrorResponse(TextField(r, "result"), errors))
  }

  // ---- An envelope as the service sends it ----

  /** Statuses a Go `int` can hold. */
  predicate StatusesFit(errors: seq<Error>)
  {
    forall i :: 0 <= i < |errors| ==> MinInt <= errors[i].status <= MaxInt
  }

  function ErrorJson(e: Error): Json
  {
    JObject([Member("id", JString(e.id)), Member("status", JNumber(Integer(e.status))),
      Member("title", JString(e.title)), Member("detail", JString(e.detail))])
  }

  function ErrorJsons(errors: seq<Error>): seq<Json>
  {
    if errors == [] then [] else [ErrorJson(errors[0])] + ErrorJsons(errors[1..])
  }

  /** The body of a failed request: `{"result": ..., "errors": [...]}`. */
  function EnvelopeJson(er: ErrorResponse): Json
  {
    JObject([Member("result", JString(er.result)), Member("errors", JArray(ErrorJsons(er.errors)))])
  }

  function ErrorRecord(e: Error): Record
  {
    map["id" := TextV(e.id), "status" := IntV(e.status), "title" := TextV(e.title), "detail" := TextV(e.detail)]
  }

  function ErrorValues(errors: seq<Error>): seq<Value>
  {
    seq(|errors|, i requires 0 <= i < |errors| => StructV(ErrorRecord(errors[i])))
  }

  /** Every envelope whose statuses fit an int decodes back to itself. */
  lemma EnvelopeRoundTrip(er: ErrorResponse)
    requires StatusesFit(er.errors)
    ensures DecodeErrorResponse(EnvelopeJson(er)) == Success(er)
  {
    EnvelopeDecodes(er);
    var items := ErrorValues(er.errors);
    var decoded := seq(|items|, i requires 0 <= i < |items| => ErrorOf(items[i]));
    forall i | 0 <= i < |items|
      ensures decoded[i] == er.errors[i]
    {
      ErrorReadBack(er.errors[i]);
    }
    assert decoded == er.errors;
  }

  lemma EnvelopeDecodes(er: ErrorResponse)
    requires StatusesFit(er.errors)
    ensures Unmarshal(Struct(ErrorResponseSchema), Zero(Struct(ErrorResponseSchema)), EnvelopeJson(er)) ==
      Success(StructV(map["result" := TextV(er.result), "errors" := ListV(ErrorValues(er.errors))]))
  {
    var fields := ErrorResponseSchema.fields;
    var ms := EnvelopeJson(er).members;
    var items := ErrorValues(er.errors);
    assert "errors"[0] != "result"[0];
    assert FieldIndex(fields[1..], "errors") == Some(0);
    ErrorElements(er.errors, []);
    assert [] + items == items;
    var r1 := map["result" := TextV(er.result)];
    MemberSets(fields, map[], ms, None, 0, TextV(er.result));
    MemberSets(fields, r1, ms[1..], None, 1, ListV(items));
    assert ms[2..] == [];
  }

  /** The errors array decodes element by element, each into a fresh struct. */
  lemma {:induction false} ErrorElements(errors: seq<Error>, done: seq<Value>)
    requires StatusesFit(errors)
    ensures ElementsInto(Struct(ErrorSchema), [], ErrorJsons(errors), done, None) == Decoded(ListV(done + ErrorValues(errors)), None)
    decreases errors
  {
    if errors == [] {
      assert done + ErrorValues(errors) == done;
    } else {
      ErrorDecodes(errors[0]);
      assert StatusesFit(errors[1..]) by {
        forall i | 0 <= i < |errors[1..]|
          ensures MinInt <= errors[1..][i].status <= MaxInt
        {
          assert errors[1..][i] == errors[i + 1];
        }
      }
      ErrorElements(errors[1..], done + [StructV(ErrorRecord(errors[0]))]);
      assert done + [StructV(ErrorRecord(errors[0]))] + ErrorValues(errors[1..]) == done + ErrorValues(errors);
    }
  }

  /** One error object decodes to its record. */
  lemma ErrorDecodes(e: Error)
    requires MinInt <= e.status <= MaxInt
    ensures DecodeInto(Struct(ErrorSchema), Zero(Struct(ErrorSchema)), ErrorJson(e)) == Decoded(StructV(ErrorRecord(e)), None)
  {
    var head := [Member("id", JString(e.id)), Member("status", JNumber(Integer(e.status)))];
    var tail := [Member("title", JString(e.title)), Member("detail", JString(e.detail))];
    assert ErrorJson(e) == JObject(head + tail);
    ErrorHead(e, tail);
    ErrorTail(map["id" := TextV(e.id), "status" := IntV(e.status)], e.title, e.detail);
  }

  lemma ErrorFieldIndexes()
    ensures FieldIndex(ErrorSchema.fields, "id") == Some(0)
    ensures FieldIndex(ErrorSchema.fields, "status") == Some(1)
    ensures FieldIndex(ErrorSchema.fields, "title") == Some(2)
    ensures FieldIndex(ErrorSchema.fields, "detail") == Some(3)
  {
    var fields := ErrorSchema.fields;
    assert "detail"[0] != "status"[0];
    assert FieldIndex(fields[3..], "detail") == Some(0);
    assert FieldIndex(fields[2..], "title") == Some(0);
    assert FieldIndex(fields[1..], "status") == Some(0);
  }

  lemma ErrorHead(e: Error, rest: seq<Member>)
    requires MinInt <= e.status <= MaxInt
    ensures MembersInto(ErrorSchema.fields, map[], [Member("id", JString(e.id)), Member("status", JNumber(Integer(e.status)))] + rest, None) ==
      MembersInto(ErrorSchema.fields, map["id" := TextV(e.id), "status" := IntV(e.status)], rest, None)
  {
    var fields := ErrorSchema.fields;
    var ms := [Member("id", JString(e.id)), Member("status", JNumber(Integer(e.status)))] + rest;
    ErrorFieldIndexes();
    MemberSets(fields, map[], ms, None, 0, TextV(e.id));
    assert ms[1..][1..] == rest;
    MemberSets(fields, map["id" := TextV(e.id)], ms[1..], None, 1, IntV(e.status));
  }

  lemma ErrorTail(r: Record, title: string, detail: string)
    ensures MembersInto(ErrorSchema.fields, r, [Member("title", JString(title)), Member("detail", JString(detail))], None) ==
      Decoded(StructV(r["title" := TextV(title)]["detail" := TextV(detail)]), None)
  {
    var fields := ErrorSchema.fields;
    var ms := [Member("title", JString(title)), Member("detail", JString(detail))];
    ErrorFieldIndexes();
    MemberSets(fields, r, ms, None, 2, TextV(title));
    MemberSets(fields, r["title" := TextV(title)], ms[1..], None, 3, TextV(detail));
  }

  /** A decoded error record reads back as the error sent. */
  lemma ErrorReadBack(e: Error)
    ensures ErrorOf(StructV(ErrorRecord(e))) == e
  {
  }
}
