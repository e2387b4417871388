/**
 * JSON as an abstract value, with the kinds of section 3 of RFC 8259. The
 * byte-level parser (Go's `encoding/json` scanner) is not modelled: a decoder
 * receives the value its input bytes parse to.
 */
module Json {
  import opened Wrappers
  import Format

  /** A number literal: either a plain integer, or one written with a fraction or exponent. */
  datatype Number = Integer(value: int) | NonInteger(text: string)

  /** Object members keep their order and any repeated keys, as on the wire. */
  datatype Json =
    | JNull
    | JBool(b: bool)
    | JNumber(n: Number)
    | JString(s: string)
    | JArray(elems: seq<Json>)
    | JObject(members: seq<Member>)

  datatype Member = Member(key: string, value: Json)

  /** A response body as a JSON decoder reads it: the value it starts with, or why it has none. */
  datatype Body = Parsed(value: Json) | Unparsable(cause: Cause)

  /** The bytes handed to an `UnmarshalJSON` method, with the value they parse to. */
  datatype Document = Document(text: string, value: Json)

  /**
   * The cause carried by an error of `encoding/json`: a value of the wrong kind
   * for the Go type it is decoded into, a syntax error, or the error returned
   * by a type's own `UnmarshalJSON`.
   */
  datatype Cause =
    | TypeMismatch(found: string, target: string)
    | Syntax(message: string)
    | Custom(message: string)

  /** The `Error()` text of a cause. */
  function CauseText(c: Cause): string
  {
    match c
    case TypeMismatch(found, target) => "json: cannot unmarshal " + found + " into Go value of type " + target
    case Syntax(message) => message
    case Custom(message) => message
  }

  /** How `encoding/json` names the kind of a value in a type-mismatch error. */
  function KindName(j: Json): string
  {
    match j
    case JNull => "null"
    case JBool(_) => "bool"
    case JNumber(Integer(i)) => "number"
    case JNumber(NonInteger(t)) => "number"
    case JString(_) => "string"
    case JArray(_) => "array"
    case JObject(_) => "object"
  }

  /** Go's `int` is 64 bits wide on the platforms the client targets. */
  const MinInt: int := -0x8000_0000_0000_0000
  const MaxInt: int := 0x7FFF_FFFF_FFFF_FFFF

  /** The text of a number literal, as it appears in an error for an int that does not fit. */
  function NumberText(n: Number): string
  {
    match n
    case Integer(i) => Format.DecimalText(i)
    case NonInteger(t) => t
  }

  /** The error `encoding/json` reports for input that ends before a value starts. */
  const EndOfInput: Cause := Syntax("unexpected end of JSON input")
}
