/**
 * What the web-request listeners share: the event details they read, and the order in
 * which one event's captures are dispatched. Every listener walks the rule list in order,
 * and rule `i` either yields one capture or none; the captures of an event are therefore
 * the defined results of a per-index probe, gathered in ascending rule index.
 */
module WebRequest {
  import opened Wrappers
  import opened Engines
  import opened Types
  import opened MatchingUtils

  /** One HTTP header; `value` is absent for headers that carry only a binary value. */
  datatype HttpHeader = HttpHeader(name: string, value: Option<string>)

  /** One element of `requestBody.raw`. */
  datatype UploadData = UploadData(bytes: Option<seq<bv8>>)

  /** `details.requestBody`: raw chunks and/or parsed form data, each possibly absent. */
  datatype RequestBodyData = RequestBodyData(raw: Option<seq<UploadData>>, formData: Option<JsValue>)

  /** The parts of a `webRequest` event's `details` the listeners read. */
  datatype Details = Details(
    url: string,
    requestHeaders: Option<seq<HttpHeader>>,
    responseHeaders: Option<seq<HttpHeader>>,
    requestBody: Option<RequestBodyData>)

  /** The captures of rules `0 .. n-1` in rule order; `probe(i)` is rule i's capture, if any. */
  function Gather(n: nat, probe: nat -> Option<MatchResult>): (r: seq<MatchResult>)
    ensures |r| <= n
  {
    if n == 0 then []
    else Gather(n - 1, probe) + (if probe(n - 1).Some? then [probe(n - 1).value] else [])
  }

  /** A probe that tags each capture with the index of the rule it came from. */
  predicate Tagged(n: nat, probe: nat -> Option<MatchResult>) {
    forall i :: 0 <= i < n && probe(i).Some? ==> probe(i).value.ruleIndex == i
  }

  /**
   * The gathered captures are exactly the defined probes, each once, in strictly
   * ascending rule index.
   */
  lemma {:induction false} GatherSpec(n: nat, probe: nat -> Option<MatchResult>)
    requires Tagged(n, probe)
    ensures var r := Gather(n, probe);
            && (forall k :: 0 <= k < |r| ==> r[k].ruleIndex < n && probe(r[k].ruleIndex) == Some(r[k]))
            && (forall k, l :: 0 <= k < l < |r| ==> r[k].ruleIndex < r[l].ruleIndex)
            && (forall i :: 0 <= i < n && probe(i).Some? ==> probe(i).value in r)
  {
    if n > 0 {
      GatherSpec(n - 1, probe);
      var prev := Gather(n - 1, probe);
      var r := Gather(n, probe);
      assert r[..|prev|] == prev;
      forall i | 0 <= i < n && probe(i).Some?
        ensures probe(i).value in r
      {
        if i < n - 1 {
          var k :| 0 <= k < |prev| && prev[k] == probe(i).value;
          assert r[k] == prev[k];
        } else {
          assert r[|prev|] == probe(i).value;
        }
      }
    }
  }

  /** One step of the rule loop: a rule without a capture adds nothing. */
  lemma GatherSkip(n: nat, probe: nat -> Option<MatchResult>)
    requires probe(n).None?
    ensures Gather(n + 1, probe) == Gather(n, probe)
  {
  }

  /** One step of the rule loop: a rule with a capture adds it last. */
  lemma GatherTake(n: nat, probe: nat -> Option<MatchResult>, m: MatchResult)
    requires probe(n) == Some(m)
    ensures Gather(n + 1, probe) == Gather(n, probe) + [m]
  {
  }

  /** The captures of an event where no rule yields one: nothing is dispatched. */
  lemma {:induction false} GatherNone(n: nat, probe: nat -> Option<MatchResult>)
    requires forall i :: 0 <= i < n ==> probe(i).None?
    ensures Gather(n, probe) == []
  {
    if n > 0 {
      GatherNone(n - 1, probe);
    }
  }

  /**
   * The capture a listener of type `t` hands to the dispatcher for rule i: the rule's
   * pattern, the event URL, the rule's index and the whole snapshot; header listeners pass
   * the rule's own `headerName` and the parameter listener its `paramName`.
   */
  function CaptureOf(t: RuleType, rules: seq<Rule>, i: nat, value: string, url: string): MatchResult
    requires i < |rules|
  {
    MatchResult(t, rules[i].urlPattern, value, url,
                if t == Header || t == ResponseHeader then Some(rules[i].headerName) else None,
                if t == RequestParam then rules[i].paramName else None,
                i, rules)
  }

  /** Rule i's capture when its outcome is a value; a rule with no value or a caught error yields none. */
  function Probe(t: RuleType, rules: seq<Rule>, url: string, outcome: Rule -> Result<Option<string>, JsError>): nat -> Option<MatchResult> {
    (i: nat) =>
      if i < |rules| && outcome(rules[i]).Ok? && outcome(rules[i]).value.Some?
      then Some(CaptureOf(t, rules, i, outcome(rules[i]).value.value, url))
      else None
  }

  /** The world after rule i's turn in the loop: its capture dispatched, or nothing done. */
  function DispatchCapture(w: World, capture: Option<MatchResult>, env: nat -> DispatchEnv): World {
    if capture.Some? then Dispatched(w, capture.value, env(capture.value.ruleIndex)) else w
  }

  /** The dispatches of rules `0 .. n` are those of `0 .. n-1` followed by rule n's turn. */
  lemma DispatchAllStep(w: World, n: nat, probe: nat -> Option<MatchResult>, env: nat -> DispatchEnv)
    ensures DispatchAll(w, Gather(n + 1, probe), env) == DispatchCapture(DispatchAll(w, Gather(n, probe), env), probe(n), env)
  {
    if probe(n).Some? {
      GatherTake(n, probe, probe(n).value);
      DispatchAllSnoc(w, Gather(n, probe), probe(n).value, env);
    } else {
      GatherSkip(n, probe);
    }
  }

  /** The probe at one index. */
  lemma ProbeAt(t: RuleType, rules: seq<Rule>, url: string, outcome: Rule -> Result<Option<string>, JsError>, i: nat)
    requires i < |rules|
    ensures Probe(t, rules, url, outcome)(i) ==
              if outcome(rules[i]).Ok? && outcome(rules[i]).value.Some?
              then Some(CaptureOf(t, rules, i, outcome(rules[i]).value.value, url))
              else None
  {
  }

  /** The captures of one event for a listener whose per-rule outcome is `outcome`, in dispatch order. */
  function Captures(t: RuleType, rules: seq<Rule>, url: string, outcome: Rule -> Result<Option<string>, JsError>): seq<MatchResult> {
    Gather(|rules|, Probe(t, rules, url, outcome))
  }

  /**
   * The rule loop shared by the listeners: rule i is dispatched exactly when its own
   * outcome is a value, so a rule that is skipped or whose error is caught has no bearing
   * on any other; the captures come in strictly ascending rule order and each carries its
   * rule's outcome.
   */
  lemma CapturesSpec(t: RuleType, rules: seq<Rule>, url: string, outcome: Rule -> Result<Option<string>, JsError>)
    ensures var r := Captures(t, rules, url, outcome);
            && (forall k, l :: 0 <= k < l < |r| ==> r[k].ruleIndex < r[l].ruleIndex)
            && (forall k :: 0 <= k < |r| ==>
                  && r[k].ruleIndex < |rules|
                  && outcome(rules[r[k].ruleIndex]) == Ok(Some(r[k].value))
                  && r[k] == CaptureOf(t, rules, r[k].ruleIndex, r[k].value, url))
            && (forall i :: 0 <= i < |rules| && outcome(rules[i]).Ok? && outcome(rules[i]).value.Some? ==>
                  exists k :: 0 <= k < |r| && r[k].ruleIndex == i)
  {
    var probe := Probe(t, rules, url, outcome);
    var r := Captures(t, rules, url, outcome);
    forall i | 0 <= i < |rules| && probe(i).Some?
      ensures probe(i).value.ruleIndex == i
    {
      ProbeAt(t, rules, url, outcome, i);
    }
    assert Tagged(|rules|, probe);
    GatherSpec(|rules|, probe);
    assert r == Gather(|rules|, probe);
    forall k | 0 <= k < |r|
      ensures r[k].ruleIndex < |rules|
      ensures outcome(rules[r[k].ruleIndex]) == Ok(Some(r[k].value))
      ensures r[k] == CaptureOf(t, rules, r[k].ruleIndex, r[k].value, url)
    {
      ProbeAt(t, rules, url, outcome, r[k].ruleIndex);
    }
    forall i | 0 <= i < |rules| && outcome(rules[i]).Ok? && outcome(rules[i]).value.Some?
      ensures exists k :: 0 <= k < |r| && r[k].ruleIndex == i
    {
      ProbeAt(t, rules, url, outcome, i);
      var k :| 0 <= k < |r| && r[k] == probe(i).value;
    }
  }

  /** An event for which no rule has a value dispatches nothing. */
  lemma NoOutcomeNoCaptures(t: RuleType, rules: seq<Rule>, url: string, outcome: Rule -> Result<Option<string>, JsError>)
    requires forall i :: 0 <= i < |rules| ==> outcome(rules[i]).Err? || outcome(rules[i]).value.None?
    ensures Captures(t, rules, url, outcome) == []
  {
    GatherNone(|rules|, Probe(t, rules, url, outcome));
  }

  /** Probes that agree on every index gather the same captures. */
  lemma {:induction false} GatherAgree(n: nat, p1: nat -> Option<MatchResult>, p2: nat -> Option<MatchResult>)
    requires forall i :: 0 <= i < n ==> p1(i) == p2(i)
    ensures Gather(n, p1) == Gather(n, p2)
  {
    if n > 0 {
      GatherAgree(n - 1, p1, p2);
    }
  }

  /** The captures of an event depend on the outcomes only through their values on the rules. */
  lemma CapturesAgree(t: RuleType, rules: seq<Rule>, url: string, o1: Rule -> Result<Option<string>, JsError>, o2: Rule -> Result<Option<string>, JsError>)
    requires forall i :: 0 <= i < |rules| ==> o1(rules[i]) == o2(rules[i])
    ensures Captures(t, rules, url, o1) == Captures(t, rules, url, o2)
  {
    GatherAgree(|rules|, Probe(t, rules, url, o1), Probe(t, rules, url, o2));
  }
}
