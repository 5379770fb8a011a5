/**
 * The `onHeadersReceived` listener for `responseHeader` rules: the same lookup as for
 * request headers, over the response's headers.
 */
module ResponseHeaders {
  import opened Wrappers
  import opened Engines
  import opened Types
  import opened Storage
  import opened Effects
  import opened MatchingUtils
  import opened WebRequest
  import opened RequestHeaders

  /**
   * What rule `rule` yields for a response: nothing for a disabled rule or one of another
   * type, when the pattern does not match, or when the response header is absent, has no
   * value or an empty one; the thrown error for a malformed pattern; otherwise the value.
   */
  function ResponseHeaderOutcome(e: Engines, d: Details, rule: Rule): (r: Result<Option<string>, JsError>)
    ensures r.Err? <==> rule.enabled && rule.ruleType == ResponseHeader && Test(e, rule.urlPattern, d.url).Err?
    ensures r.Ok? && r.value.Some? <==>
              && rule.enabled && rule.ruleType == ResponseHeader && Test(e, rule.urlPattern, d.url) == Ok(true)
              && HeaderValue(e, d.responseHeaders, rule.headerName).Some?
              && HeaderValue(e, d.responseHeaders, rule.headerName).value != ""
    ensures r.Ok? && r.value.Some? ==> r.value == HeaderValue(e, d.responseHeaders, rule.headerName)
  {
    if !rule.enabled || rule.ruleType != ResponseHeader then Ok(None)
    else
      match Test(e, rule.urlPattern, d.url)
      case Err(x) => Err(x)
      case Ok(false) => Ok(None)
      case Ok(true) =>
        var v := HeaderValue(e, d.responseHeaders, rule.headerName);
        if v.Some? && v.value != "" then Ok(v) else Ok(None)
  }

  /** `ResponseHeaderOutcome` for each rule, against one response. */
  function ResponseHeaderOutcomes(e: Engines, d: Details): Rule -> Result<Option<string>, JsError> {
    rule => ResponseHeaderOutcome(e, d, rule)
  }

  /** The captures one response produces, in dispatch order. */
  function ResponseHeaderMatches(e: Engines, d: Details, rules: seq<Rule>): seq<MatchResult> {
    Captures(ResponseHeader, rules, d.url, ResponseHeaderOutcomes(e, d))
  }

  /**
   * A response capture carries type `responseHeader`, the rule's own `headerName`, the
   * header's non-empty value, and only response headers are consulted: the request's
   * headers have no bearing on it.
   */
  lemma ResponseHeaderCaptureFields(e: Engines, d: Details, rules: seq<Rule>, k: nat, other: Option<seq<HttpHeader>>)
    requires k < |ResponseHeaderMatches(e, d, rules)|
    ensures var c := ResponseHeaderMatches(e, d, rules)[k];
            && c.ruleIndex < |rules|
            && c.ruleType == ResponseHeader
            && c.headerName == Some(rules[c.ruleIndex].headerName)
            && c.paramName.None?
            && Some(c.value) == HeaderValue(e, d.responseHeaders, rules[c.ruleIndex].headerName)
            && c.value != ""
    ensures ResponseHeaderMatches(e, d.(requestHeaders := other), rules) == ResponseHeaderMatches(e, d, rules)
  {
    CapturesSpec(ResponseHeader, rules, d.url, ResponseHeaderOutcomes(e, d));
    CapturesAgree(ResponseHeader, rules, d.url, ResponseHeaderOutcomes(e, d.(requestHeaders := other)), ResponseHeaderOutcomes(e, d));
  }

  /** One turn of `handleResponseHeaders`'s rule loop. */
  method HandleResponseHeaderRule(e: Engines, store: LocalStore, log: EffectLog, d: Details, rules: seq<Rule>, ruleIndex: nat, env: nat -> DispatchEnv)
    requires ruleIndex < |rules|
    modifies store, log
    ensures World(store.data, log.trace) ==
              DispatchCapture(World(old(store.data), old(log.trace)), Probe(ResponseHeader, rules, d.url, ResponseHeaderOutcomes(e, d))(ruleIndex), env)
  {
    ProbeAt(ResponseHeader, rules, d.url, ResponseHeaderOutcomes(e, d), ruleIndex);
    var rule := rules[ruleIndex];
    if !rule.enabled || rule.ruleType != ResponseHeader {
      return;
    }
    var matched := Test(e, rule.urlPattern, d.url);
    if matched.Err? {
      // the malformed pattern's error is caught
      return;
    }
    if matched.value {
      var headerValue := HeaderValue(e, d.responseHeaders, rule.headerName);
      if headerValue.Some? && headerValue.value != "" {
        var result := MatchResult(ResponseHeader, rule.urlPattern, headerValue.value, d.url, Some(rule.headerName), None, ruleIndex, rules);
        HandleMatchResult(store, log, result, env(ruleIndex));
      }
    }
  }

  /** `handleResponseHeaders`'s listener body for one response. */
  method HandleResponseHeaders(e: Engines, store: LocalStore, log: EffectLog, d: Details, env: nat -> DispatchEnv)
    modifies store, log
    ensures World(store.data, log.trace) == DispatchAll(World(old(store.data), old(log.trace)), ResponseHeaderMatches(e, d, RulesIn(old(store.data))), env)
  {
    var rules := GetRules(store);
    ghost var w0 := World(store.data, log.trace);
    ghost var probe := Probe(ResponseHeader, rules, d.url, ResponseHeaderOutcomes(e, d));
    for ruleIndex := 0 to |rules|
      invariant World(store.data, log.trace) == DispatchAll(w0, Gather(ruleIndex, probe), env)
    {
      DispatchAllStep(w0, ruleIndex, probe, env);
      HandleResponseHeaderRule(e, store, log, d, rules, ruleIndex, env);
    }
  }
}
