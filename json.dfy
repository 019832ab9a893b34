/**
 * The JSON values a listing is made of, and the JavaScript coercions the
 * admin console applies to them: `String(v)`, truthiness, and `parseInt`.
 */
module Json {
  import opened Wrappers
  import opened Text

  /**
   * A JSON value as the console holds it. Arrays hold strings (the
   * gallery) and objects hold string fields (the agent); `NaN` is the
   * number `parseInt` returns when it finds no digits.
   */
  datatype Value =
    | Null
    | Bool(b: bool)
    | Str(s: string)
    | Number(n: int)
    | NaN
    | Array(items: seq<string>)
    | Object(fields: map<string, string>)

  /** A JSON object: a listing as the server sends it, or the form's data. */
  type Record = map<string, Value>

  /** `record[key]`, `undefined` being `None`. */
  function Get(record: Record, key: string): Option<Value> {
    if key in record then Some(record[key]) else None
  }

  /** `String(v)`. */
  function ToJsString(v: Value): string {
    match v
    case Null => "null"
    case Bool(b) => if b then "true" else "false"
    case Str(s) => s
    case Number(n) => ToDecimal(n)
    case NaN => "NaN"
    case Array(items) => Join(items, ",")
    case Object(_) => "[object Object]"
  }

  /** JavaScript truthiness; `undefined` is falsy. */
  predicate Truthy(v: Option<Value>) {
    match v
    case None => false
    case Some(Null) => false
    case Some(Bool(b)) => b
    case Some(Str(s)) => s != ""
    case Some(Number(n)) => n != 0
    case Some(NaN) => false
    case Some(_) => true
  }

  /**
   * `(v || "").toString()`: the text of a field. A string reads as itself
   * ("" included), a non-zero number as its decimal text; a missing field
   * and the falsy `null`, `false`, `0` and `NaN` read as "".
   */
  function TextOr(v: Option<Value>): (s: string)
    ensures v.Some? && v.value.Str? ==> s == v.value.s
    ensures v.Some? && v.value.Number? && v.value.n != 0 ==> s == ToDecimal(v.value.n)
    ensures v.None? || v == Some(Null) || v == Some(Bool(false)) || v == Some(Number(0)) || v == Some(NaN) ==> s == ""
    ensures v == Some(Bool(true)) ==> s == "true"
    ensures v.Some? && v.value.Array? && v.value.items != [] ==> s == Join(v.value.items, ",")
    ensures v.Some? && v.value.Object? ==> s == "[object Object]"
  {
    if Truthy(v) then ToJsString(v.value) else ""
  }

  /** `parseInt(v)`: the argument is turned into a string first. */
  function ParseIntOf(v: Option<Value>): (r: Value)
    ensures r.Number? || r.NaN?
  {
    var text := if v.None? then "undefined" else ToJsString(v.value);
    match ParseInt(text)
    case Some(n) => Number(n)
    case None => NaN
  }

  /** A number, or the `NaN` of a failed parse, is left as it is by `parseInt`. */
  lemma ParseIntOfNumeric(v: Value)
    requires v.Number? || v.NaN?
    ensures ParseIntOf(Some(v)) == v
  {
    if v.Number? {
      var t := ToDecimal(v.n);
      ParseIntOfDecimal(v.n, "");
      assert t + "" == t;
    } else {
      NaNIsNotANumeral();
    }
  }

  lemma NaNIsNotANumeral()
    ensures ParseInt("NaN") == None
  {
    var t := "NaN";
    assert !IsSpace(t[0]) && !IsDigit(t[0]);
    TrimStartKeeps(t);
    assert LeadingDigits(t) == "";
  }

  /** `parseInt` of a decimal numeral, possibly followed by a fraction or a unit. */
  lemma ParseIntOfNumeral(n: int, rest: string)
    requires rest == [] || !IsDigit(rest[0])
    ensures ParseIntOf(Some(Str(ToDecimal(n) + rest))) == Number(n)
  {
    ParseIntOfDecimal(n, rest);
  }

  /** A field left blank, as in a new listing, parses to `NaN`. */
  lemma ParseIntOfBlank()
    ensures ParseIntOf(Some(Str(""))) == NaN
  {
  }

  /** A missing field parses to `NaN`. */
  lemma ParseIntOfUndefined()
    ensures ParseIntOf(None) == NaN
  {
    assert TrimStart("undefined") == "undefined";
  }
}
