/**
 * The foreign engines the extension calls into: the regular-expression engine, Unicode case
 * mapping, JSON parsing and serialisation, JSONPath evaluation, UTF-8 decoding, URL query
 * parsing and date parsing. Their behaviour is not modelled; each is a function value the
 * caller supplies, and every place where one of them can throw returns a `Result`.
 */
module Engines {
  import opened Wrappers

  /** What a foreign call can throw. */
  datatype JsError = SyntaxError | TypeError

  /**
   * The array `RegExp.prototype.exec` returns on success: element 0 is the whole match,
   * element i the i-th capture group (undefined when the group did not participate).
   */
  datatype RegexMatch = RegexMatch(whole: string, groups: seq<Option<string>>) {
    /** `match.length` */
    function Length(): nat {
      |groups| + 1
    }

    /** `match[i] || ""`: element i, or "" when it is undefined, empty or past the end. */
    function ElementOrEmpty(i: int): string {
      if i == 0 then whole
      else if 1 <= i <= |groups| && groups[i - 1].Some? then groups[i - 1].value
      else ""
    }
  }

  /**
   * A JavaScript value as `JSON.parse` or JSONPath return it. Only strings and arrays are
   * inspected by the extension; every other value is opaque.
   */
  datatype JsValue = Undefined | JsString(s: string) | JsArray(items: seq<JsValue>) | JsOther(tag: nat)

  datatype Engines = Engines(
    /** `new RegExp(source).exec(subject)`; throws a SyntaxError for a malformed source. */
    exec: (string, string) -> Result<Option<RegexMatch>, JsError>,
    /** `s.toLowerCase()` */
    toLowerCase: string -> string,
    /** `JSON.parse(text)` */
    parseJson: string -> Result<JsValue, JsError>,
    /** `JSONPath({ path, json })` */
    jsonPath: (string, JsValue) -> Result<JsValue, JsError>,
    /** `JSON.stringify(v)` for a defined value */
    stringify: JsValue -> string,
    /** `new TextDecoder().decode(bytes)` */
    decodeUtf8: seq<bv8> -> Result<string, JsError>,
    /** `new URL(url).searchParams` as its name-value list in query order; throws a TypeError when the URL does not parse. */
    searchParams: string -> Result<seq<(string, string)>, JsError>,
    /** `new Date(s).getTime()`; None stands for NaN. */
    dateTime: string -> Option<int>
  )

  /** `new RegExp(source).test(subject)`: true exactly when `exec` finds a match. */
  function Test(e: Engines, source: string, subject: string): (r: Result<bool, JsError>)
    ensures r.Ok? <==> e.exec(source, subject).Ok?
    ensures r.Ok? ==> (r.value <==> e.exec(source, subject).value.Some?)
  {
    match e.exec(source, subject)
    case Ok(m) => Ok(m.Some?)
    case Err(x) => Err(x)
  }

  /** `JSON.stringify(v)`, which returns undefined for undefined. */
  function Stringify(e: Engines, v: JsValue): (r: Option<string>)
    ensures r.None? <==> v.Undefined?
  {
    if v.Undefined? then None else Some(e.stringify(v))
  }
}
