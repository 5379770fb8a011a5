/**
 * The `onBeforeRequest` listener for `requestParam` rules: for a rule that names a
 * parameter and whose pattern matches the request URL, the URL's query is parsed and the
 * first value of that parameter is dispatched when it is non-empty.
 */
module RequestParams {
  import opened Wrappers
  import opened Engines
  import opened Types
  import opened Storage
  import opened Effects
  import opened MatchingUtils
  import opened WebRequest

  /**
   * `searchParams.get(name)`: the value of the first pair named exactly `name`, or null
   * when no pair has that name.
   */
  function QueryGet(params: seq<(string, string)>, name: string): (v: Option<string>)
    ensures v.None? <==> forall j :: 0 <= j < |params| ==> params[j].0 != name
    ensures v.Some? ==> exists j :: 0 <= j < |params| && params[j] == (name, v.value) && forall l :: 0 <= l < j ==> params[l].0 != name
  {
    if params == [] then None
    else if params[0].0 == name then Some(params[0].1)
    else
      var v := QueryGet(params[1..], name);
      assert v.Some? ==> exists j :: 1 <= j < |params| && params[j] == (name, v.value) && forall l :: 0 <= l < j ==> params[l].0 != name by {
        if v.Some? {
          var j :| 0 <= j < |params[1..]| && params[1..][j] == (name, v.value) && forall l :: 0 <= l < j ==> params[1..][l].0 != name;
          assert params[j + 1] == (name, v.value);
          forall l | 0 <= l < j + 1
            ensures params[l].0 != name
          {
            if l > 0 {
              assert params[l] == params[1..][l - 1];
            }
          }
        }
      }
      v
  }

  /** A parameter repeated in the query yields its first value. */
  lemma QueryGetFirst(params: seq<(string, string)>, name: string, i: nat)
    requires i < |params| && params[i].0 == name
    requires forall j :: 0 <= j < i ==> params[j].0 != name
    ensures QueryGet(params, name) == Some(params[i].1)
  {
    var v := QueryGet(params, name);
    var j :| 0 <= j < |params| && params[j] == (name, v.value) && forall l :: 0 <= l < j ==> params[l].0 != name;
    assert !(j < i) && !(i < j);
  }

  /** The rule names a parameter (`rule.paramName` is truthy). */
  predicate NamesParam(rule: Rule) {
    rule.paramName.Some? && rule.paramName.value != ""
  }

  /**
   * What rule `rule` yields for a request: nothing for a disabled rule, one of another type
   * or one without a parameter name (checked before the pattern is compiled), or when the
   * pattern does not match or the parameter's value is absent or empty; the thrown error
   * for a malformed pattern or a URL that does not parse; otherwise the first value.
   */
  function RequestParamOutcome(e: Engines, d: Details, rule: Rule): (r: Result<Option<string>, JsError>)
    ensures !rule.enabled || rule.ruleType != RequestParam || !NamesParam(rule) ==> r == Ok(None)
    ensures r.Err? <==>
              && rule.enabled && rule.ruleType == RequestParam && NamesParam(rule)
              && (Test(e, rule.urlPattern, d.url).Err? || (Test(e, rule.urlPattern, d.url) == Ok(true) && e.searchParams(d.url).Err?))
    ensures r.Ok? && r.value.Some? <==>
              && rule.enabled && rule.ruleType == RequestParam && NamesParam(rule)
              && Test(e, rule.urlPattern, d.url) == Ok(true) && e.searchParams(d.url).Ok?
              && QueryGet(e.searchParams(d.url).value, rule.paramName.value).Some?
              && QueryGet(e.searchParams(d.url).value, rule.paramName.value).value != ""
    ensures r.Ok? && r.value.Some? ==> r.value == QueryGet(e.searchParams(d.url).value, rule.paramName.value)
  {
    if !rule.enabled || rule.ruleType != RequestParam || !NamesParam(rule) then Ok(None)
    else
      match Test(e, rule.urlPattern, d.url)
      case Err(x) => Err(x)
      case Ok(false) => Ok(None)
      case Ok(true) =>
        match e.searchParams(d.url)
        case Err(x) => Err(x)
        case Ok(params) =>
          var v := QueryGet(params, rule.paramName.value);
          if v.Some? && v.value != "" then Ok(v) else Ok(None)
  }

  /** `RequestParamOutcome` for each rule, against one request. */
  function RequestParamOutcomes(e: Engines, d: Details): Rule -> Result<Option<string>, JsError> {
    rule => RequestParamOutcome(e, d, rule)
  }

  /** The captures one request produces, in dispatch order. */
  function RequestParamMatches(e: Engines, d: Details, rules: seq<Rule>): seq<MatchResult> {
    Captures(RequestParam, rules, d.url, RequestParamOutcomes(e, d))
  }

  /** A capture carries type `requestParam`, the rule's non-empty `paramName`, no header name, and the parameter's first, non-empty value. */
  lemma RequestParamCaptureFields(e: Engines, d: Details, rules: seq<Rule>, k: nat)
    requires k < |RequestParamMatches(e, d, rules)|
    ensures var c := RequestParamMatches(e, d, rules)[k];
            && c.ruleIndex < |rules|
            && c.ruleType == RequestParam
            && c.paramName == rules[c.ruleIndex].paramName && NamesParam(rules[c.ruleIndex])
            && c.headerName.None?
            && e.searchParams(d.url).Ok?
            && Some(c.value) == QueryGet(e.searchParams(d.url).value, rules[c.ruleIndex].paramName.value)
            && c.value != ""
  {
    CapturesSpec(RequestParam, rules, d.url, RequestParamOutcomes(e, d));
  }

  /** One turn of `handleRequestParams`'s rule loop. */
  method HandleRequestParamRule(e: Engines, store: LocalStore, log: EffectLog, d: Details, rules: seq<Rule>, ruleIndex: nat, env: nat -> DispatchEnv)
    requires ruleIndex < |rules|
    modifies store, log
    ensures World(store.data, log.trace) ==
              DispatchCapture(World(old(store.data), old(log.trace)), Probe(RequestParam, rules, d.url, RequestParamOutcomes(e, d))(ruleIndex), env)
  {
    ProbeAt(RequestParam, rules, d.url, RequestParamOutcomes(e, d), ruleIndex);
    var rule := rules[ruleIndex];
    if !rule.enabled || rule.ruleType != RequestParam || rule.paramName.None? || rule.paramName.value == "" {
      return;
    }
    var matched := Test(e, rule.urlPattern, d.url);
    if matched.Err? {
      // the malformed pattern's error is caught
      return;
    }
    if matched.value {
      var parsed := e.searchParams(d.url);
      if parsed.Err? {
        // the URL parse error is caught
        return;
      }
      var paramValue := QueryGet(parsed.value, rule.paramName.value);
      if paramValue.Some? && paramValue.value != "" {
        var result := MatchResult(RequestParam, rule.urlPattern, paramValue.value, d.url, None, rule.paramName, ruleIndex, rules);
        HandleMatchResult(store, log, result, env(ruleIndex));
      }
    }
  }

  /** `handleRequestParams`'s listener body for one request. */
  method HandleRequestParams(e: Engines, store: LocalStore, log: EffectLog, d: Details, env: nat -> DispatchEnv)
    modifies store, log
    ensures World(store.data, log.trace) == DispatchAll(World(old(store.data), old(log.trace)), RequestParamMatches(e, d, RulesIn(old(store.data))), env)
  {
    var rules := GetRules(store);
    ghost var w0 := World(store.data, log.trace);
    ghost var probe := Probe(RequestParam, rules, d.url, RequestParamOutcomes(e, d));
    for ruleIndex := 0 to |rules|
      invariant World(store.data, log.trace) == DispatchAll(w0, Gather(ruleIndex, probe), env)
    {
      DispatchAllStep(w0, ruleIndex, probe, env);
      HandleRequestParamRule(e, store, log, d, rules, ruleIndex, env);
    }
  }
}
