/**
 * The result dispatcher shared by all listeners: for one captured value it copies to the
 * clipboard when auto-copy is on, adds a history record, sends the page notification when
 * notifications are on, and saves the rule list with the rule's `lastValue` replaced. The
 * saved list is built from the snapshot the listener read, not from the store.
 */
module MatchingUtils {
  import opened Wrappers
  import opened Types
  import opened Storage
  import opened HistoryUtils
  import opened Effects
  import opened NotificationUtils

  /** One capture, as a listener hands it over: `rules` is the listener's snapshot of the rule list. */
  datatype MatchResult = MatchResult(
    ruleType: RuleType,
    urlPattern: string,
    value: string,
    url: string,
    headerName: Option<string>,
    paramName: Option<string>,
    ruleIndex: nat,
    rules: seq<Rule>)

  /**
   * What the environment supplies to one dispatch: the two `toLocaleString` timestamps it
   * takes (for the history record and for `lastValue`), the generated history id, and the
   * tab id the tab resolver returns.
   */
  datatype DispatchEnv = DispatchEnv(
    historyTimestamp: string,
    historyId: string,
    targetTab: Option<int>,
    lastValueTimestamp: string)

  /** A property copied only when truthy (`if (x) record.x = x`). */
  function IfTruthy(x: Option<string>): (r: Option<string>)
    ensures r.Some? <==> x.Some? && x.value != ""
    ensures r.Some? ==> r == x
  {
    if x.Some? && x.value != "" then x else None
  }

  /** The history record built for a capture. */
  function HistoryFields(r: MatchResult, timestamp: string): RecordFields {
    RecordFields(RuleTypeName(r.ruleType), r.urlPattern, IfTruthy(r.headerName), IfTruthy(r.paramName),
                 r.value, timestamp, r.url)
  }

  /** The notification data built for a capture. */
  function NotificationFor(r: MatchResult): MatchNotificationData {
    MatchNotificationData(r.ruleType, r.urlPattern, r.value, r.url, IfTruthy(r.headerName), IfTruthy(r.paramName))
  }

  /**
   * `rules.map((r, idx) => idx === ruleIndex ? { ...r, lastValue } : r)`: the same list with
   * one entry's `lastValue` replaced and every other entry and field unchanged.
   */
  function WithLastValue(rules: seq<Rule>, ruleIndex: int, lastValue: LastValue): (r: seq<Rule>)
    ensures |r| == |rules|
    ensures forall i :: 0 <= i < |rules| && i != ruleIndex ==> r[i] == rules[i]
    ensures 0 <= ruleIndex < |rules| ==> r[ruleIndex] == rules[ruleIndex].(lastValue := Some(lastValue))
  {
    seq(|rules|, i requires 0 <= i < |rules| => if i == ruleIndex then rules[i].(lastValue := Some(lastValue)) else rules[i])
  }

  /** The store and the effect trace together. */
  datatype World = World(data: Data, trace: seq<Effect>)

  /** The state after one `handleMatchResult`, step by step as the source performs it. */
  function Dispatched(w: World, r: MatchResult, env: DispatchEnv): World {
    var copies := if SettingsIn(w.data).enableAutoCopy then [CopyToClipboard(r.value)] else [];
    var record := WithId(HistoryFields(r, env.historyTimestamp), env.historyId);
    var afterHistory := w.data[HistoryRecordsKey := StoredHistory(Added(HistoryIn(w.data), record))];
    var notices := NotificationEffects(SettingsIn(afterHistory), NotificationFor(r), env.targetTab);
    var updatedRules := WithLastValue(r.rules, r.ruleIndex, LastValue(r.value, env.lastValueTimestamp));
    World(afterHistory[RulesKey := StoredRules(updatedRules)], w.trace + copies + notices)
  }

  /**
   * The effects one dispatch appends after the earlier ones, and nothing else: the clipboard
   * copy of the value when auto-copy is on, then, when notifications are on and the tab
   * resolver returned a truthy tab id, one message to that tab carrying the capture's
   * notification. The settings read for the notification, after the history write, are
   * the settings read for the copy.
   */
  lemma DispatchedTrace(w: World, r: MatchResult, env: DispatchEnv)
    ensures var s := SettingsIn(w.data);
            var copies := if s.enableAutoCopy then [CopyToClipboard(r.value)] else [];
            var notices := if s.enableMatchNotifications && env.targetTab.Some? && env.targetTab.value != 0
                           then [SendToTab(env.targetTab.value, MessageFor(NotificationFor(r)))]
                           else [];
            Dispatched(w, r, env).trace == w.trace + copies + notices
  {
    var s := SettingsIn(w.data);
    var record := WithId(HistoryFields(r, env.historyTimestamp), env.historyId);
    var afterHistory := w.data[HistoryRecordsKey := StoredHistory(Added(HistoryIn(w.data), record))];
    assert SettingsIn(afterHistory) == s;
  }

  /** The store after one dispatch: a new history head, the snapshot with one `lastValue`, and nothing else changed. */
  lemma DispatchedData(w: World, r: MatchResult, env: DispatchEnv)
    ensures var w' := Dispatched(w, r, env);
            && HistoryIn(w'.data)[0] == WithId(HistoryFields(r, env.historyTimestamp), env.historyId)
            && HistoryIn(w'.data)[1..] == HistoryIn(w.data)[..Min(|HistoryIn(w.data)|, MaxHistoryRecords - 1)]
            && RulesIn(w'.data) == WithLastValue(r.rules, r.ruleIndex, LastValue(r.value, env.lastValueTimestamp))
            && SettingsIn(w'.data) == SettingsIn(w.data)
            && GroupsIn(w'.data) == GroupsIn(w.data)
            && SelectedGroupIn(w'.data) == SelectedGroupIn(w.data)
  {
    var record := WithId(HistoryFields(r, env.historyTimestamp), env.historyId);
    var afterHistory := w.data[HistoryRecordsKey := StoredHistory(Added(HistoryIn(w.data), record))];
    assert SettingsIn(afterHistory) == SettingsIn(w.data);
    assert HistoryIn(afterHistory) == Added(HistoryIn(w.data), record);
  }

  /**
   * A record carries the capture's type name, pattern, value, timestamp and url, and a
   * header or parameter name only when the capture had a non-empty one.
   */
  lemma HistoryRecordContents(r: MatchResult, timestamp: string)
    ensures var f := HistoryFields(r, timestamp);
            && f.ruleType == RuleTypeName(r.ruleType) && f.urlPattern == r.urlPattern
            && f.value == r.value && f.timestamp == timestamp && f.url == r.url
            && (f.headerName.Some? <==> r.headerName.Some? && r.headerName.value != "")
            && (f.paramName.Some? <==> r.paramName.Some? && r.paramName.value != "")
  {
  }

  /**
   * A header notification shows the capture's header name before the value, and the text
   * "undefined" in its place when the name is missing or empty (the record and the
   * notification copy the name only when it is truthy).
   */
  lemma HeaderNotificationText(r: MatchResult)
    requires r.ruleType == Header || r.ruleType == ResponseHeader
    ensures DisplayValue(NotificationFor(r)) ==
              (if r.headerName.Some? && r.headerName.value != "" then r.headerName.value else "undefined") + ": " + r.value
  {
  }

  /** `handleMatchResult(result)`; the environment's timestamps, id and tab are parameters. */
  method HandleMatchResult(store: LocalStore, log: EffectLog, result: MatchResult, env: DispatchEnv)
    modifies store, log
    ensures World(store.data, log.trace) == Dispatched(World(old(store.data), old(log.trace)), result, env)
  {
    var autoCopyEnabled := GetSetting(store, EnableAutoCopy);
    if autoCopyEnabled {
      log.Record(CopyToClipboard(result.value));
    }
    var historyRecord := HistoryFields(result, env.historyTimestamp);
    AddHistoryRecord(store, historyRecord, env.historyId);
    var notificationData := NotificationFor(result);
    SendMatchNotification(store, log, notificationData, env.targetTab);
    var updatedRules := WithLastValue(result.rules, result.ruleIndex, LastValue(result.value, env.lastValueTimestamp));
    SaveRules(store, updatedRules);
  }

  /** Dispatching the captures of one event in order; each capture gets the environment of its rule index. */
  function DispatchAll(w: World, rs: seq<MatchResult>, env: nat -> DispatchEnv): World
    decreases |rs|
  {
    if rs == [] then w
    else
      var last := rs[|rs| - 1];
      Dispatched(DispatchAll(w, rs[..|rs| - 1], env), last, env(last.ruleIndex))
  }

  lemma DispatchAllSnoc(w: World, rs: seq<MatchResult>, r: MatchResult, env: nat -> DispatchEnv)
    ensures DispatchAll(w, rs + [r], env) == Dispatched(DispatchAll(w, rs, env), r, env(r.ruleIndex))
  {
    assert (rs + [r])[..|rs|] == rs;
  }

  /**
   * Last write wins within one event: every dispatch saves its own copy of the same
   * snapshot, so after the event the stored rules are the snapshot with only the last
   * capture's `lastValue` set; every earlier capture's `lastValue` (for another rule) is lost.
   */
  lemma LastWriteWins(w: World, rs: seq<MatchResult>, env: nat -> DispatchEnv, snapshot: seq<Rule>)
    requires rs != []
    requires forall r :: r in rs ==> r.rules == snapshot
    ensures var last := rs[|rs| - 1];
            var saved := RulesIn(DispatchAll(w, rs, env).data);
            && saved == WithLastValue(snapshot, last.ruleIndex, LastValue(last.value, env(last.ruleIndex).lastValueTimestamp))
            && forall j :: 0 <= j < |rs| - 1 && rs[j].ruleIndex != last.ruleIndex && rs[j].ruleIndex < |snapshot| ==>
                 saved[rs[j].ruleIndex] == snapshot[rs[j].ruleIndex]
  {
    var last := rs[|rs| - 1];
    DispatchedData(DispatchAll(w, rs[..|rs| - 1], env), last, env(last.ruleIndex));
  }

  /**
   * Every dispatch of an event adds one history record: the list grows by the number of
   * captures up to the cap of 30, and the newest record is the last capture's.
   */
  lemma {:induction false} DispatchAllHistory(w: World, rs: seq<MatchResult>, env: nat -> DispatchEnv)
    requires |HistoryIn(w.data)| <= MaxHistoryRecords
    ensures var h := HistoryIn(DispatchAll(w, rs, env).data);
            && |h| == Min(|HistoryIn(w.data)| + |rs|, MaxHistoryRecords)
            && (rs != [] ==> h[0] == WithId(HistoryFields(rs[|rs| - 1], env(rs[|rs| - 1].ruleIndex).historyTimestamp),
                                            env(rs[|rs| - 1].ruleIndex).historyId))
    decreases |rs|
  {
    if rs != [] {
      var last := rs[|rs| - 1];
      var before := DispatchAll(w, rs[..|rs| - 1], env);
      DispatchAllHistory(w, rs[..|rs| - 1], env);
      DispatchedData(before, last, env(last.ruleIndex));
    }
  }

  /**
   * Dispatching the same capture twice is not deduplicated: two records are added, the
   * second dispatch's on top, and `lastValue` ends as the second dispatch's.
   */
  lemma DispatchTwice(w: World, r: MatchResult, env1: DispatchEnv, env2: DispatchEnv)
    requires 0 <= r.ruleIndex < |r.rules|
    ensures var w' := Dispatched(Dispatched(w, r, env1), r, env2);
            var h := HistoryIn(w'.data);
            && |h| == Min(|HistoryIn(w.data)| + 2, MaxHistoryRecords)
            && h[0] == WithId(HistoryFields(r, env2.historyTimestamp), env2.historyId)
            && h[1] == WithId(HistoryFields(r, env1.historyTimestamp), env1.historyId)
            && RulesIn(w'.data)[r.ruleIndex].lastValue == Some(LastValue(r.value, env2.lastValueTimestamp))
  {
    var w1 := Dispatched(w, r, env1);
    DispatchedData(w, r, env1);
    DispatchedData(w1, r, env2);
  }
}
