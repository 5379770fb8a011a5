/**
 * The `onBeforeRequest` listener for `url` rules: the rule's pattern is executed against
 * the request URL, and on a match the rule's `matchValue` template has its `$0`, `$1`, ...
 * tokens replaced by the match's elements; a non-empty result is dispatched.
 */
module UrlMatching {
  import opened Wrappers
  import opened Text
  import opened Engines
  import opened Types
  import opened Storage
  import opened Effects
  import opened MatchingUtils
  import opened WebRequest

  /** The token `$i`. */
  function Token(i: nat): string {
    "$" + NatToDecimal(i)
  }

  /**
   * The template after the substitution steps `i .. m.Length()`: step `j` replaces the
   * first occurrence of `$j` by element j of the match, or by "" when that element is
   * undefined or past the end. The last step uses the index one past the last element.
   */
  function Substituted(value: string, m: RegexMatch, i: nat): string
    decreases m.Length() + 1 - i
  {
    if i > m.Length() then value
    else Substituted(ReplaceFirst(value, Token(i), m.ElementOrEmpty(i)), m, i + 1)
  }

  /** The substitution loop `for (let i = 0; i <= match.length; i++) value = value.replace(...)`. */
  method SubstituteGroups(template: string, m: RegexMatch) returns (value: string)
    ensures value == Substituted(template, m, 0)
  {
    value := template;
    var i := 0;
    while i <= m.Length()
      invariant 0 <= i <= m.Length() + 1
      invariant Substituted(value, m, i) == Substituted(template, m, 0)
    {
      value := ReplaceFirst(value, Token(i), m.ElementOrEmpty(i));
      i := i + 1;
    }
  }

  /** A string without `$` holds no token. */
  lemma NoTokenWithoutDollar(s: string, i: nat)
    requires '$' !in s
    ensures !Includes(s, Token(i))
  {
    forall j
      ensures !OccursAt(s, Token(i), j)
    {
      if 0 <= j && j + |Token(i)| <= |s| {
        assert s[j..j + |Token(i)|][0] == s[j];
      }
    }
  }

  /** A template without `$` is left as it is, whatever the match. */
  lemma {:induction false} NoDollarUnchanged(value: string, m: RegexMatch, i: nat)
    requires '$' !in value
    ensures Substituted(value, m, i) == value
    decreases m.Length() + 1 - i
  {
    if i <= m.Length() {
      NoTokenWithoutDollar(value, i);
      ReplaceAbsent(value, Token(i), m.ElementOrEmpty(i));
      NoDollarUnchanged(value, m, i + 1);
    }
  }

  /** A missing `matchValue` reads as "", and "" substitutes to "": such a rule never dispatches. */
  lemma MissingMatchValueIsEmpty(m: RegexMatch)
    ensures Substituted("", m, 0) == ""
  {
    NoDollarUnchanged("", m, 0);
  }

  /** The tokens `$0` .. `$9` are two characters long. */
  lemma SmallTokens()
    ensures Token(0) == ['$', '0'] && Token(1) == ['$', '1'] && Token(2) == ['$', '2']
  {
    assert NatToDecimal(0) == ['0'] && NatToDecimal(1) == ['1'] && NatToDecimal(2) == ['2'];
  }

  /** `$1` is replaced even when the pattern has no capture group: it becomes "". */
  lemma DollarOneWithoutGroups(whole: string)
    ensures Substituted("$1", RegexMatch(whole, []), 0) == ""
  {
    var m := RegexMatch(whole, []);
    SmallTokens();
    PairAbsent("$1", '$', '0');
    ReplaceAbsent("$1", Token(0), whole);
    assert Substituted("$1", m, 0) == Substituted("$1", m, 1);
    PairAtStart("$1", '$', '1');
    assert ReplaceFirst("$1", Token(1), "") == "";
    assert Substituted("$1", m, 1) == Substituted("", m, 2);
  }

  /**
   * Steps 0 and 1 always run, whatever the number of groups (`match.length` is at least 1):
   * every template has its first `$0` replaced by the whole match and then its first `$1`
   * by group 1, which is "" for a pattern without groups.
   */
  lemma FirstTwoStepsAlwaysRun(value: string, m: RegexMatch)
    ensures Substituted(value, m, 0) ==
              Substituted(ReplaceFirst(ReplaceFirst(value, Token(0), m.whole), Token(1), m.ElementOrEmpty(1)), m, 2)
    ensures m.groups == [] ==>
              Substituted(value, m, 0) == ReplaceFirst(ReplaceFirst(value, Token(0), m.whole), Token(1), "")
  {
    var v1 := ReplaceFirst(ReplaceFirst(value, Token(0), m.whole), Token(1), m.ElementOrEmpty(1));
    assert Substituted(value, m, 0) == Substituted(ReplaceFirst(value, Token(0), m.whole), m, 1);
    assert Substituted(ReplaceFirst(value, Token(0), m.whole), m, 1) == Substituted(v1, m, 2);
  }

  /**
   * Step 1 replaces only the first `$1`: in any template whose first `$` starts a `$1`,
   * that token becomes group 1 and the rest of the template, any later `$1` included, is
   * kept as it is.
   */
  lemma StepOneReplacesFirstOnly(prefix: string, rest: string, m: RegexMatch)
    requires '$' !in prefix
    ensures Substituted(prefix + Token(1) + rest, m, 1) == Substituted(prefix + m.ElementOrEmpty(1) + rest, m, 2)
  {
    SmallTokens();
    var s := prefix + Token(1) + rest;
    var k := |prefix|;
    assert s[k..k + 2] == Token(1);
    assert OccursAt(s, Token(1), k);
    forall j | 0 <= j < k
      ensures !OccursAt(s, Token(1), j)
    {
      assert s[j] == prefix[j] && prefix[j] in prefix;
    }
    assert IndexOf(s, Token(1)) == k;
    assert s[..k] == prefix && s[k + 2..] == rest;
    assert ReplaceFirst(s, Token(1), m.ElementOrEmpty(1)) == prefix + m.ElementOrEmpty(1) + rest;
  }

  /**
   * The `$1` inside `$10` is what step 1 replaces: when no `$` comes before a `$10`, step 1
   * turns it into group 1 followed by "0", so `$10` is never seen by step 10.
   */
  lemma TokenOneShadowsTen(prefix: string, suffix: string, m: RegexMatch)
    requires '$' !in prefix
    ensures Substituted(prefix + Token(10) + suffix, m, 1) == Substituted(prefix + m.ElementOrEmpty(1) + "0" + suffix, m, 2)
  {
    SmallTokens();
    assert NatToDecimal(10) == NatToDecimal(1) + [DecimalDigit(0)];
    assert prefix + Token(10) + suffix == prefix + Token(1) + ("0" + suffix);
    StepOneReplacesFirstOnly(prefix, "0" + suffix, m);
    assert prefix + m.ElementOrEmpty(1) + ("0" + suffix) == prefix + m.ElementOrEmpty(1) + "0" + suffix;
  }

  /**
   * Tokens are replaced in ascending order, so in `$10` the `$1` is replaced before `$10`
   * is ever looked for: with one group "A", `$10` becomes "A0".
   */
  lemma TenReadsAsOneThenZero(whole: string)
    ensures Substituted("$10", RegexMatch(whole, [Some("A")]), 0) == "A0"
  {
    var m := RegexMatch(whole, [Some("A")]);
    SmallTokens();
    PairAbsent("$10", '$', '0');
    ReplaceAbsent("$10", Token(0), whole);
    assert Substituted("$10", m, 0) == Substituted("$10", m, 1);
    PairAtStart("$10", '$', '1');
    assert ReplaceFirst("$10", Token(1), "A") == "A0";
    assert Substituted("$10", m, 1) == Substituted("A0", m, 2);
    PairAbsent("A0", '$', '2');
    ReplaceAbsent("A0", Token(2), "");
    assert Substituted("A0", m, 2) == Substituted("A0", m, 3);
  }

  /** Only the first occurrence of a token is replaced: with group "A", `$1$1` becomes "A$1". */
  lemma OnlyFirstOccurrence(whole: string)
    ensures Substituted("$1$1", RegexMatch(whole, [Some("A")]), 0) == "A$1"
  {
    var m := RegexMatch(whole, [Some("A")]);
    SmallTokens();
    PairAbsent("$1$1", '$', '0');
    ReplaceAbsent("$1$1", Token(0), whole);
    assert Substituted("$1$1", m, 0) == Substituted("$1$1", m, 1);
    PairAtStart("$1$1", '$', '1');
    assert ReplaceFirst("$1$1", Token(1), "A") == "A$1";
    assert Substituted("$1$1", m, 1) == Substituted("A$1", m, 2);
    PairAbsent("A$1", '$', '2');
    ReplaceAbsent("A$1", Token(2), "");
    assert Substituted("A$1", m, 2) == Substituted("A$1", m, 3);
  }

  /**
   * What rule `rule` yields for a request to `url`: nothing for a disabled or non-url rule
   * or when the pattern does not match; the thrown error for a malformed pattern (caught by
   * the listener); otherwise the substituted template, when it is non-empty.
   */
  function UrlOutcome(e: Engines, url: string, rule: Rule): (r: Result<Option<string>, JsError>)
    ensures r.Err? <==> rule.enabled && rule.ruleType == Url && e.exec(rule.urlPattern, url).Err?
    ensures r.Ok? && r.value.Some? <==>
              && rule.enabled && rule.ruleType == Url
              && e.exec(rule.urlPattern, url).Ok? && e.exec(rule.urlPattern, url).value.Some?
              && Substituted(rule.matchValue.GetOr(""), e.exec(rule.urlPattern, url).value.value, 0) != ""
    ensures r.Ok? && r.value.Some? ==>
              r.value.value == Substituted(rule.matchValue.GetOr(""), e.exec(rule.urlPattern, url).value.value, 0)
  {
    if !rule.enabled || rule.ruleType != Url then Ok(None)
    else
      match e.exec(rule.urlPattern, url)
      case Err(x) => Err(x)
      case Ok(None) => Ok(None)
      case Ok(Some(m)) =>
        var value := Substituted(rule.matchValue.GetOr(""), m, 0);
        if value != "" then Ok(Some(value)) else Ok(None)
  }

  /** `UrlOutcome` for each rule, against one request URL. */
  function UrlOutcomes(e: Engines, url: string): Rule -> Result<Option<string>, JsError> {
    rule => UrlOutcome(e, url, rule)
  }

  /** The captures one request produces, in dispatch order. */
  function UrlMatches(e: Engines, d: Details, rules: seq<Rule>): seq<MatchResult> {
    Captures(Url, rules, d.url, UrlOutcomes(e, d.url))
  }

  /**
   * One turn of `handleUrlMatching`'s rule loop: skip a disabled or non-url rule, execute
   * the pattern (a malformed one throws and is caught), substitute the template and
   * dispatch a non-empty value.
   */
  method HandleUrlRule(e: Engines, store: LocalStore, log: EffectLog, d: Details, rules: seq<Rule>, ruleIndex: nat, env: nat -> DispatchEnv)
    requires ruleIndex < |rules|
    modifies store, log
    ensures World(store.data, log.trace) ==
              DispatchCapture(World(old(store.data), old(log.trace)), Probe(Url, rules, d.url, UrlOutcomes(e, d.url))(ruleIndex), env)
  {
    ProbeAt(Url, rules, d.url, UrlOutcomes(e, d.url), ruleIndex);
    var rule := rules[ruleIndex];
    if !rule.enabled || rule.ruleType != Url {
      return;
    }
    var matched := e.exec(rule.urlPattern, d.url);
    if matched.Err? {
      // the malformed pattern's error is caught
      return;
    }
    if matched.value.Some? {
      var value := SubstituteGroups(rule.matchValue.GetOr(""), matched.value.value);
      if value != "" {
        HandleMatchResult(store, log, MatchResult(Url, rule.urlPattern, value, d.url, None, None, ruleIndex, rules), env(ruleIndex));
      }
    }
  }

  /** `handleUrlMatching`'s listener body for one request; `env(i)` is what rule i's dispatch receives from its environment. */
  method HandleUrlMatching(e: Engines, store: LocalStore, log: EffectLog, d: Details, env: nat -> DispatchEnv)
    modifies store, log
    ensures World(store.data, log.trace) == DispatchAll(World(old(store.data), old(log.trace)), UrlMatches(e, d, RulesIn(old(store.data))), env)
  {
    var rules := GetRules(store);
    ghost var w0 := World(store.data, log.trace);
    ghost var probe := Probe(Url, rules, d.url, UrlOutcomes(e, d.url));
    for ruleIndex := 0 to |rules|
      invariant World(store.data, log.trace) == DispatchAll(w0, Gather(ruleIndex, probe), env)
    {
      DispatchAllStep(w0, ruleIndex, probe, env);
      HandleUrlRule(e, store, log, d, rules, ruleIndex, env);
    }
  }
}
