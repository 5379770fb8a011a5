/**
 * The `onBeforeSendHeaders` listener for `header` rules: when the rule's pattern matches
 * the request URL, the first request header whose name equals the rule's `headerName`
 * up to letter case supplies the value; a non-empty value is dispatched.
 */
module RequestHeaders {
  import opened Wrappers
  import opened Engines
  import opened Types
  import opened Storage
  import opened Effects
  import opened MatchingUtils
  import opened WebRequest

  /** Header `h` is the one named `name`, comparing lower-cased names. */
  predicate NamedAs(e: Engines, h: HttpHeader, name: string) {
    e.toLowerCase(h.name) == e.toLowerCase(name)
  }

  /** `headers.findIndex(h => h.name.toLowerCase() === name.toLowerCase())` */
  function FindHeader(e: Engines, headers: seq<HttpHeader>, name: string): (k: int)
    ensures -1 <= k < |headers|
    ensures k >= 0 ==> NamedAs(e, headers[k], name)
    ensures k >= 0 ==> forall j :: 0 <= j < k ==> !NamedAs(e, headers[j], name)
    ensures k == -1 <==> forall j :: 0 <= j < |headers| ==> !NamedAs(e, headers[j], name)
  {
    if headers == [] then -1
    else if NamedAs(e, headers[0], name) then 0
    else
      var k := FindHeader(e, headers[1..], name);
      if k < 0 then -1 else k + 1
  }

  /** `headers?.find(h => h.name.toLowerCase() === name.toLowerCase())?.value` */
  function HeaderValue(e: Engines, headers: Option<seq<HttpHeader>>, name: string): (v: Option<string>)
    ensures headers.None? ==> v.None?
    ensures v.Some? ==> exists k :: 0 <= k < |headers.value| && NamedAs(e, headers.value[k], name) && headers.value[k].value == v
  {
    if headers.None? then None
    else
      var k := FindHeader(e, headers.value, name);
      if k < 0 then None else headers.value[k].value
  }

  /**
   * When several headers carry the name, the first supplies the value, even when it has
   * no string value and a later one does.
   */
  lemma FirstHeaderWins(e: Engines, headers: seq<HttpHeader>, name: string, i: nat)
    requires i < |headers| && NamedAs(e, headers[i], name)
    requires forall j :: 0 <= j < i ==> !NamedAs(e, headers[j], name)
    ensures HeaderValue(e, Some(headers), name) == headers[i].value
  {
    var k := FindHeader(e, headers, name);
    assert k != -1;
    assert !(k < i) && !(i < k);
  }

  /**
   * The lookup depends on the rule's `headerName` only through its lower-cased form. With
   * `toLowerCase` an abstract engine, this is all that can be said about case.
   */
  lemma {:induction false} LookupIgnoresCase(e: Engines, headers: seq<HttpHeader>, name1: string, name2: string)
    requires e.toLowerCase(name1) == e.toLowerCase(name2)
    ensures FindHeader(e, headers, name1) == FindHeader(e, headers, name2)
  {
    if headers != [] {
      LookupIgnoresCase(e, headers[1..], name1, name2);
    }
  }

  /**
   * What rule `rule` yields for a request: nothing for a disabled or non-header rule, when
   * the pattern does not match, or when the header is absent, has no value or an empty
   * one; the thrown error for a malformed pattern; otherwise the header's value.
   */
  function RequestHeaderOutcome(e: Engines, d: Details, rule: Rule): (r: Result<Option<string>, JsError>)
    ensures r.Err? <==> rule.enabled && rule.ruleType == Header && Test(e, rule.urlPattern, d.url).Err?
    ensures r.Ok? && r.value.Some? <==>
              && rule.enabled && rule.ruleType == Header && Test(e, rule.urlPattern, d.url) == Ok(true)
              && HeaderValue(e, d.requestHeaders, rule.headerName).Some?
              && HeaderValue(e, d.requestHeaders, rule.headerName).value != ""
    ensures r.Ok? && r.value.Some? ==> r.value == HeaderValue(e, d.requestHeaders, rule.headerName)
  {
    if !rule.enabled || rule.ruleType != Header then Ok(None)
    else
      match Test(e, rule.urlPattern, d.url)
      case Err(x) => Err(x)
      case Ok(false) => Ok(None)
      case Ok(true) =>
        var v := HeaderValue(e, d.requestHeaders, rule.headerName);
        if v.Some? && v.value != "" then Ok(v) else Ok(None)
  }

  /** `RequestHeaderOutcome` for each rule, against one request. */
  function RequestHeaderOutcomes(e: Engines, d: Details): Rule -> Result<Option<string>, JsError> {
    rule => RequestHeaderOutcome(e, d, rule)
  }

  /** The captures one request produces, in dispatch order. */
  function RequestHeaderMatches(e: Engines, d: Details, rules: seq<Rule>): seq<MatchResult> {
    Captures(Header, rules, d.url, RequestHeaderOutcomes(e, d))
  }

  /**
   * A capture carries the rule's own `headerName` spelling, whatever the casing of the
   * header that matched, together with the header's value.
   */
  lemma RequestHeaderCaptureFields(e: Engines, d: Details, rules: seq<Rule>, k: nat)
    requires k < |RequestHeaderMatches(e, d, rules)|
    ensures var c := RequestHeaderMatches(e, d, rules)[k];
            && c.ruleIndex < |rules|
            && c.ruleType == Header
            && c.headerName == Some(rules[c.ruleIndex].headerName)
            && c.paramName.None?
            && Some(c.value) == HeaderValue(e, d.requestHeaders, rules[c.ruleIndex].headerName)
            && c.value != ""
  {
    CapturesSpec(Header, rules, d.url, RequestHeaderOutcomes(e, d));
  }

  /** One turn of `handleRequestHeaders`'s rule loop. */
  method HandleRequestHeaderRule(e: Engines, store: LocalStore, log: EffectLog, d: Details, rules: seq<Rule>, ruleIndex: nat, env: nat -> DispatchEnv)
    requires ruleIndex < |rules|
    modifies store, log
    ensures World(store.data, log.trace) ==
              DispatchCapture(World(old(store.data), old(log.trace)), Probe(Header, rules, d.url, RequestHeaderOutcomes(e, d))(ruleIndex), env)
  {
    ProbeAt(Header, rules, d.url, RequestHeaderOutcomes(e, d), ruleIndex);
    var rule := rules[ruleIndex];
    if !rule.enabled || rule.ruleType != Header {
      return;
    }
    var matched := Test(e, rule.urlPattern, d.url);
    if matched.Err? {
      // the malformed pattern's error is caught
      return;
    }
    if matched.value {
      var headerValue := HeaderValue(e, d.requestHeaders, rule.headerName);
      if headerValue.Some? && headerValue.value != "" {
        var result := MatchResult(Header, rule.urlPattern, headerValue.value, d.url, Some(rule.headerName), None, ruleIndex, rules);
        HandleMatchResult(store, log, result, env(ruleIndex));
      }
    }
  }

  /** `handleRequestHeaders`'s listener body for one request. */
  method HandleRequestHeaders(e: Engines, store: LocalStore, log: EffectLog, d: Details, env: nat -> DispatchEnv)
    modifies store, log
    ensures World(store.data, log.trace) == DispatchAll(World(old(store.data), old(log.trace)), RequestHeaderMatches(e, d, RulesIn(old(store.data))), env)
  {
    var rules := GetRules(store);
    ghost var w0 := World(store.data, log.trace);
    ghost var probe := Probe(Header, rules, d.url, RequestHeaderOutcomes(e, d));
    for ruleIndex := 0 to |rules|
      invariant World(store.data, log.trace) == DispatchAll(w0, Gather(ruleIndex, probe), env)
    {
      DispatchAllStep(w0, ruleIndex, probe, env);
      HandleRequestHeaderRule(e, store, log, d, rules, ruleIndex, env);
    }
  }
}
