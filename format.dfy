/**
 * The renderings the client borrows from Go's standard library: `%d` and
 * `strconv.Itoa` for integers, `strconv.FormatBool`, `strings.Join`, and the
 * `url.Values` multi-map of query parameters.
 */
module Format {

  predicate IsDigit(c: char) { '0' <= c <= '9' }

  function DigitChar(d: nat): (c: char)
    requires d < 10
    ensures IsDigit(c) && c as int - '0' as int == d
  {
    ['0', '1', '2', '3', '4', '5', '6', '7', '8', '9'][d]
  }

  /** Decimal digits of a natural number, most significant first, without leading zeros. */
  function Digits(n: nat): (s: string)
    decreases n
  {
    if n < 10 then [DigitChar(n)] else Digits(n / 10) + [DigitChar(n % 10)]
  }

  /** The text Go's `%d` verb and `strconv.Itoa` produce for an int. */
  function DecimalText(n: int): (s: string)
  {
    if n < 0 then "-" + Digits(-n) else Digits(n)
  }

  /** Reads back a string of decimal digits, the inverse of `Digits`. */
  function DigitsValue(s: string): (n: nat)
    requires forall i :: 0 <= i < |s| ==> IsDigit(s[i])
    decreases |s|
  {
    if s == [] then 0
    else
      var last := s[|s| - 1];
      assert IsDigit(last);
      10 * DigitsValue(s[..|s| - 1]) + (last as int - '0' as int)
  }

  /** Reads back an optionally signed decimal text; an independent reference for `DecimalText`. */
  function ParseDecimal(s: string): (r: int)
    requires |s| > 0
    requires s[0] == '-' ==> |s| > 1
    requires forall i :: (if s[0] == '-' then 1 else 0) <= i < |s| ==> IsDigit(s[i])
  {
    if s[0] == '-' then -(DigitsValue(s[1..]) as int) else DigitsValue(s)
  }

  lemma {:induction false} DigitsShape(n: nat)
    ensures |Digits(n)| > 0
    ensures forall i :: 0 <= i < |Digits(n)| ==> IsDigit(Digits(n)[i])
    ensures Digits(n)[0] == '0' ==> n == 0
    ensures DigitsValue(Digits(n)) == n
    decreases n
  {
    if n >= 10 {
      DigitsShape(n / 10);
      var s := Digits(n);
      assert s[..|s| - 1] == Digits(n / 10);
    }
  }

  /** Rendering an int and reading it back gives the int again: distinct codes give distinct texts. */
  lemma DecimalRoundTrip(n: int)
    ensures |DecimalText(n)| > 0
    ensures DecimalText(n)[0] == '-' <==> n < 0
    ensures DecimalText(n)[0] == '-' ==> |DecimalText(n)| > 1
    ensures forall i :: (if DecimalText(n)[0] == '-' then 1 else 0) <= i < |DecimalText(n)| ==> IsDigit(DecimalText(n)[i])
    ensures ParseDecimal(DecimalText(n)) == n
  {
    if n < 0 {
      DigitsShape(-n);
      assert DecimalText(n)[1..] == Digits(-n);
    } else {
      DigitsShape(n);
    }
  }

  /** The text Go's `strconv.FormatBool` produces. */
  function BoolText(b: bool): (s: string)
    ensures b <==> s == "true"
    ensures !b <==> s == "false"
  {
    if b then "true" else "false"
  }

  /** Go's `strings.Join`: the parts with the separator between consecutive ones. */
  function Join(parts: seq<string>, sep: string): (s: string)
    decreases |parts|
  {
    if parts == [] then ""
    else if |parts| == 1 then parts[0]
    else Join(parts[..|parts| - 1], sep) + sep + parts[|parts| - 1]
  }

  /** Splits a text at every occurrence of `sep`; the reference inverse of `Join`. */
  function Split(s: string, sep: char): (parts: seq<string>)
    ensures |parts| > 0
    decreases |s|
  {
    if s == [] then [""]
    else
      var rest := Split(s[..|s| - 1], sep);
      if s[|s| - 1] == sep then rest + [""]
      else rest[..|rest| - 1] + [rest[|rest| - 1] + [s[|s| - 1]]]
  }

  predicate Free(part: string, sep: char) { forall i :: 0 <= i < |part| ==> part[i] != sep }

  lemma {:induction false} SplitFree(s: string, sep: char)
    requires Free(s, sep)
    ensures Split(s, sep) == [s]
    decreases |s|
  {
    if s != [] {
      SplitFree(s[..|s| - 1], sep);
      assert s[..|s| - 1] + [s[|s| - 1]] == s;
    }
  }

  lemma {:induction false} SplitAppend(s: string, sep: char, t: string)
    requires Free(t, sep)
    ensures Split(s + [sep] + t, sep) == Split(s, sep) + [t]
    decreases |t|
  {
    if t == [] {
      assert s + [sep] + t == s + [sep];
      assert (s + [sep])[..|s + [sep]| - 1] == s;
    } else {
      var u := s + [sep] + t;
      var t' := t[..|t| - 1];
      assert u[..|u| - 1] == s + [sep] + t';
      SplitAppend(s, sep, t');
      assert t' + [t[|t| - 1]] == t;
    }
  }

  /** Joining parts that do not contain the separator and splitting again gives back the parts. */
  lemma {:induction false} SplitJoin(parts: seq<string>, sep: char)
    requires |parts| > 0
    requires forall i :: 0 <= i < |parts| ==> Free(parts[i], sep)
    ensures Split(Join(parts, [sep]), sep) == parts
    decreases |parts|
  {
    if |parts| == 1 {
      SplitFree(parts[0], sep);
    } else {
      var init := parts[..|parts| - 1];
      SplitJoin(init, sep);
      SplitAppend(Join(init, [sep]), sep, parts[|parts| - 1]);
      assert init + [parts[|parts| - 1]] == parts;
    }
  }

  /** `url.Values`: each key with its values in the order they were added. */
  type Query = map<string, seq<string>>

  /** `url.Values.Add`: appends a value to the key's list. */
  function Add(q: Query, key: string, value: string): (r: Query)
    ensures r.Keys == q.Keys + {key}
    ensures r[key] == (if key in q then q[key] else []) + [value]
  {
    q[key := (if key in q then q[key] else []) + [value]]
  }

  lemma AddNew(q: Query, key: string, value: string)
    requires key !in q
    ensures Add(q, key, value) == q[key := [value]]
  {
    var none: seq<string> := [];
    assert none + [value] == [value];
  }
}
