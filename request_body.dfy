/**
 * The `onBeforeRequest` listener for `requestBody` rules: when the rule's pattern matches
 * the request URL, the body is read as text (the first raw chunk decoded as UTF-8, or else
 * the form data serialised as JSON) and the value is extracted from it: by the rule's
 * `matchValue` as a JSONPath when the body is JSON, and as a regular expression when the
 * body is not JSON or the JSONPath query throws. A defined value is dispatched, even "".
 */
module RequestBodyMatching {
  import opened Wrappers
  import opened Engines
  import opened Types
  import opened Storage
  import opened Effects
  import opened MatchingUtils
  import opened WebRequest

  /** The request carries raw bytes in its first chunk. */
  predicate HasRawBytes(body: RequestBodyData) {
    body.raw.Some? && |body.raw.value| > 0 && body.raw.value[0].bytes.Some?
  }

  /**
   * The body as text: only the first raw chunk, decoded, when it has bytes (a decoding
   * error leaves no text); otherwise the form data serialised; otherwise no text.
   */
  function BodyText(e: Engines, body: RequestBodyData): (s: Option<string>)
    ensures HasRawBytes(body) ==>
              s == (if e.decodeUtf8(body.raw.value[0].bytes.value).Ok? then Some(e.decodeUtf8(body.raw.value[0].bytes.value).value) else None)
    ensures !HasRawBytes(body) && body.formData.Some? ==> s == Stringify(e, body.formData.value)
    ensures !HasRawBytes(body) && body.formData.None? ==> s.None?
  {
    if HasRawBytes(body) then
      match e.decodeUtf8(body.raw.value[0].bytes.value)
      case Ok(text) => Some(text)
      case Err(_) => None
    else if body.formData.Some? then Stringify(e, body.formData.value)
    else None
  }

  /** Form data is ignored whenever the first raw chunk has bytes, and later chunks are never read. */
  lemma RawBytesTakePrecedence(e: Engines, body: RequestBodyData, formData: Option<JsValue>, later: seq<UploadData>)
    requires HasRawBytes(body)
    ensures BodyText(e, body.(formData := formData)) == BodyText(e, body)
    ensures BodyText(e, body.(raw := Some([body.raw.value[0]] + later))) == BodyText(e, body)
  {
  }

  /**
   * `match?.[1] || match?.[0]` for `text.match(new RegExp(pattern))`: group 1 when it is
   * defined and non-empty, else the whole match (which may be ""); no value without a match;
   * the thrown error for a malformed pattern.
   */
  function RegexPick(e: Engines, text: string, pattern: string): (r: Result<Option<string>, JsError>)
    ensures r.Err? <==> e.exec(pattern, text).Err?
    ensures r.Ok? ==> (r.value.Some? <==> e.exec(pattern, text).value.Some?)
  {
    match e.exec(pattern, text)
    case Err(x) => Err(x)
    case Ok(None) => Ok(None)
    case Ok(Some(m)) => Ok(Some(if m.ElementOrEmpty(1) != "" then m.ElementOrEmpty(1) else m.whole))
  }

  /** Group 1 is preferred: a match whose first group is non-empty yields that group, any other match its whole text. */
  lemma GroupOnePreferred(e: Engines, text: string, pattern: string)
    requires e.exec(pattern, text).Ok? && e.exec(pattern, text).value.Some?
    ensures var m := e.exec(pattern, text).value.value;
            && (|m.groups| >= 1 && m.groups[0].Some? && m.groups[0].value != "" ==> RegexPick(e, text, pattern) == Ok(Some(m.groups[0].value)))
            && (|m.groups| == 0 || m.groups[0].None? || m.groups[0].value == "" ==> RegexPick(e, text, pattern) == Ok(Some(m.whole)))
  {
  }

  /** `Array.isArray(result) ? result[0] : result`: element 0 of an array (undefined for an empty one), else the result itself. */
  function FirstOf(result: JsValue): JsValue {
    if result.JsArray? then (if |result.items| > 0 then result.items[0] else Undefined) else result
  }

  /**
   * The value taken from a JSONPath result: its first element kept as it is when it is a
   * string, and otherwise serialised by `JSON.stringify`, which leaves undefined undefined.
   */
  function JsonPathPick(e: Engines, result: JsValue): (v: Option<string>)
    ensures FirstOf(result).JsString? ==> v == Some(FirstOf(result).s)
    ensures !FirstOf(result).JsString? && !FirstOf(result).Undefined? ==> v == Some(e.stringify(FirstOf(result)))
    ensures v.None? <==> result.Undefined? || (result.JsArray? && (|result.items| == 0 || result.items[0].Undefined?))
  {
    var first := FirstOf(result);
    if first.JsString? then Some(first.s) else Stringify(e, first)
  }

  /**
   * The value extracted from a non-empty body text: the JSONPath result when the text
   * parses as JSON and the query succeeds; otherwise the regular-expression fallback. When
   * the fallback throws inside the JSONPath handler, the same fallback runs again in the
   * JSON handler and throws again, so its error is the outcome either way.
   */
  function BodyValue(e: Engines, text: string, pattern: string): (r: Result<Option<string>, JsError>)
    ensures e.parseJson(text).Ok? && e.jsonPath(pattern, e.parseJson(text).value).Ok? ==>
              r == Ok(JsonPathPick(e, e.jsonPath(pattern, e.parseJson(text).value).value))
    ensures e.parseJson(text).Err? || e.jsonPath(pattern, e.parseJson(text).value).Err? ==>
              r == RegexPick(e, text, pattern)
  {
    match e.parseJson(text)
    case Err(_) => RegexPick(e, text, pattern)
    case Ok(json) =>
      match e.jsonPath(pattern, json)
      case Ok(result) => Ok(JsonPathPick(e, result))
      case Err(_) => RegexPick(e, text, pattern)
  }

  /** When the JSONPath query succeeds the regular-expression engine is never consulted. */
  lemma JsonPathIgnoresRegex(e: Engines, text: string, pattern: string, exec: (string, string) -> Result<Option<RegexMatch>, JsError>)
    requires e.parseJson(text).Ok? && e.jsonPath(pattern, e.parseJson(text).value).Ok?
    ensures BodyValue(e.(exec := exec), text, pattern) == BodyValue(e, text, pattern)
  {
  }

  /**
   * What the body yields for `pattern` (the rule's `matchValue`, or ""): no value without a
   * body or with an empty body text, whatever the pattern; otherwise the extracted value.
   */
  function ExtractedValue(e: Engines, requestBody: Option<RequestBodyData>, pattern: string): (r: Result<Option<string>, JsError>)
    ensures requestBody.None? ==> r == Ok(None)
    ensures requestBody.Some? && (BodyText(e, requestBody.value).None? || BodyText(e, requestBody.value).value == "") ==> r == Ok(None)
    ensures requestBody.Some? && BodyText(e, requestBody.value).Some? && BodyText(e, requestBody.value).value != "" ==>
              r == BodyValue(e, BodyText(e, requestBody.value).value, pattern)
  {
    if requestBody.None? then Ok(None)
    else
      var text := BodyText(e, requestBody.value);
      if text.None? || text.value == "" then Ok(None)
      else BodyValue(e, text.value, pattern)
  }

  /**
   * The listener's reading of the body and extraction of the value through its nested
   * handlers; `r` is the value (possibly undefined) or the error that escapes to the
   * rule-level handler.
   */
  method ExtractRequestBodyValue(e: Engines, requestBody: Option<RequestBodyData>, pattern: string) returns (r: Result<Option<string>, JsError>)
    ensures r == ExtractedValue(e, requestBody, pattern)
  {
    var value: Option<string> := None;
    if requestBody.None? {
      return Ok(value);
    }
    var body := requestBody.value;
    var requestBodyStr: Option<string> := None;
    if body.raw.Some? && |body.raw.value| > 0 && body.raw.value[0].bytes.Some? {
      var decoded := e.decodeUtf8(body.raw.value[0].bytes.value);
      if decoded.Ok? {
        requestBodyStr := Some(decoded.value);
      }
    } else if body.formData.Some? {
      requestBodyStr := Stringify(e, body.formData.value);
    }
    if requestBodyStr.Some? && requestBodyStr.value != "" {
      var text := requestBodyStr.value;
      var jsonFailed := false;
      var jsonData := e.parseJson(text);
      if jsonData.Ok? {
        var result := e.jsonPath(pattern, jsonData.value);
        if result.Ok? {
          value := JsonPathPick(e, result.value);
        } else {
          var picked := RegexPick(e, text, pattern);
          if picked.Err? {
            // thrown inside the JSONPath handler: it reaches the JSON handler
            jsonFailed := true;
          } else {
            value := picked.value;
          }
        }
      } else {
        jsonFailed := true;
      }
      if jsonFailed {
        var picked := RegexPick(e, text, pattern);
        if picked.Err? {
          return Err(picked.error);
        }
        value := picked.value;
      }
    }
    return Ok(value);
  }

  /**
   * What rule `rule` yields for a request: nothing for a disabled rule or one of another
   * type, or when the pattern does not match the URL; the thrown error for a malformed URL
   * pattern; otherwise what the body yields for the rule's `matchValue`.
   */
  function RequestBodyOutcome(e: Engines, d: Details, rule: Rule): (r: Result<Option<string>, JsError>)
    ensures !rule.enabled || rule.ruleType != RequestBody ==> r == Ok(None)
    ensures r.Err? <==>
              && rule.enabled && rule.ruleType == RequestBody
              && (|| Test(e, rule.urlPattern, d.url).Err?
                  || (Test(e, rule.urlPattern, d.url) == Ok(true) && ExtractedValue(e, d.requestBody, rule.matchValue.GetOr("")).Err?))
    ensures r.Ok? && r.value.Some? <==>
              && rule.enabled && rule.ruleType == RequestBody
              && Test(e, rule.urlPattern, d.url) == Ok(true)
              && ExtractedValue(e, d.requestBody, rule.matchValue.GetOr("")).Ok?
              && ExtractedValue(e, d.requestBody, rule.matchValue.GetOr("")).value.Some?
    ensures r.Ok? && r.value.Some? ==> r == ExtractedValue(e, d.requestBody, rule.matchValue.GetOr(""))
  {
    if !rule.enabled || rule.ruleType != RequestBody then Ok(None)
    else
      match Test(e, rule.urlPattern, d.url)
      case Err(x) => Err(x)
      case Ok(false) => Ok(None)
      case Ok(true) => ExtractedValue(e, d.requestBody, rule.matchValue.GetOr(""))
  }

  /** `RequestBodyOutcome` for each rule, against one request. */
  function RequestBodyOutcomes(e: Engines, d: Details): Rule -> Result<Option<string>, JsError> {
    rule => RequestBodyOutcome(e, d, rule)
  }

  /** The captures one request produces, in dispatch order. */
  function RequestBodyMatches(e: Engines, d: Details, rules: seq<Rule>): seq<MatchResult> {
    Captures(RequestBody, rules, d.url, RequestBodyOutcomes(e, d))
  }

  /**
   * A defined value is dispatched even when it is empty: a rule whose extraction yields ""
   * (a regular expression matching the empty string, say) produces a capture with value "".
   */
  lemma EmptyValueDispatched(e: Engines, d: Details, rules: seq<Rule>, i: nat)
    requires i < |rules| && RequestBodyOutcome(e, d, rules[i]) == Ok(Some(""))
    ensures exists k :: 0 <= k < |RequestBodyMatches(e, d, rules)| &&
              RequestBodyMatches(e, d, rules)[k].ruleIndex == i && RequestBodyMatches(e, d, rules)[k].value == ""
  {
    var r := RequestBodyMatches(e, d, rules);
    CapturesSpec(RequestBody, rules, d.url, RequestBodyOutcomes(e, d));
    var k :| 0 <= k < |r| && r[k].ruleIndex == i;
    assert RequestBodyOutcomes(e, d)(rules[i]) == Ok(Some(r[k].value));
  }

  /** A request without a body, or whose body text is empty, dispatches nothing for any rule. */
  lemma NoBodyNoCaptures(e: Engines, d: Details, rules: seq<Rule>)
    requires d.requestBody.None? || BodyText(e, d.requestBody.value).None? || BodyText(e, d.requestBody.value).value == ""
    ensures RequestBodyMatches(e, d, rules) == []
  {
    NoOutcomeNoCaptures(RequestBody, rules, d.url, RequestBodyOutcomes(e, d));
  }

  /** A capture carries type `requestBody`, no header or parameter name, and the value the rule's body extraction yields. */
  lemma RequestBodyCaptureFields(e: Engines, d: Details, rules: seq<Rule>, k: nat)
    requires k < |RequestBodyMatches(e, d, rules)|
    ensures var c := RequestBodyMatches(e, d, rules)[k];
            && c.ruleIndex < |rules|
            && c.ruleType == RequestBody
            && c.headerName.None? && c.paramName.None?
            && Test(e, rules[c.ruleIndex].urlPattern, d.url) == Ok(true)
            && ExtractedValue(e, d.requestBody, rules[c.ruleIndex].matchValue.GetOr("")) == Ok(Some(c.value))
  {
    CapturesSpec(RequestBody, rules, d.url, RequestBodyOutcomes(e, d));
  }

  /** One turn of `handleRequestBody`'s rule loop. */
  method HandleRequestBodyRule(e: Engines, store: LocalStore, log: EffectLog, d: Details, rules: seq<Rule>, ruleIndex: nat, env: nat -> DispatchEnv)
    requires ruleIndex < |rules|
    modifies store, log
    ensures World(store.data, log.trace) ==
              DispatchCapture(World(old(store.data), old(log.trace)), Probe(RequestBody, rules, d.url, RequestBodyOutcomes(e, d))(ruleIndex), env)
  {
    ProbeAt(RequestBody, rules, d.url, RequestBodyOutcomes(e, d), ruleIndex);
    var rule := rules[ruleIndex];
    if !rule.enabled || rule.ruleType != RequestBody {
      return;
    }
    var matched := Test(e, rule.urlPattern, d.url);
    if matched.Err? {
      // the malformed pattern's error is caught
      return;
    }
    if matched.value {
      var extracted := ExtractRequestBodyValue(e, d.requestBody, rule.matchValue.GetOr(""));
      if extracted.Err? {
        // the regular-expression error is caught by the rule-level handler
        return;
      }
      var value := extracted.value;
      if value.Some? {
        var result := MatchResult(RequestBody, rule.urlPattern, value.value, d.url, None, None, ruleIndex, rules);
        HandleMatchResult(store, log, result, env(ruleIndex));
      }
    }
  }

  /** `handleRequestBody`'s listener body for one request. */
  method HandleRequestBody(e: Engines, store: LocalStore, log: EffectLog, d: Details, env: nat -> DispatchEnv)
    modifies store, log
    ensures World(store.data, log.trace) == DispatchAll(World(old(store.data), old(log.trace)), RequestBodyMatches(e, d, RulesIn(old(store.data))), env)
  {
    var rules := GetRules(store);
    ghost var w0 := World(store.data, log.trace);
    ghost var probe := Probe(RequestBody, rules, d.url, RequestBodyOutcomes(e, d));
    for ruleIndex := 0 to |rules|
      invariant World(store.data, log.trace) == DispatchAll(w0, Gather(ruleIndex, probe), env)
    {
      DispatchAllStep(w0, ruleIndex, probe, env);
      HandleRequestBodyRule(e, store, log, d, rules, ruleIndex, env);
    }
  }
}
