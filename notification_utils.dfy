/**
 * The on-page match notification: gated by the `enableMatchNotifications` setting, the
 * captured value is formatted according to the rule type and sent to the tab the request
 * belongs to, when one can be resolved.
 */
module NotificationUtils {
  import opened Wrappers
  import opened Types
  import opened Storage
  import opened Effects

  datatype MatchNotificationData = MatchNotificationData(
    ruleType: RuleType,
    rulePattern: string,
    value: string,
    url: string,
    headerName: Option<string>,
    paramName: Option<string>)

  /** `${x}` for a property that may be undefined. */
  function Interpolated(x: Option<string>): string {
    x.GetOr("undefined")
  }

  /**
   * The text shown for a capture: `name: value` for request and response headers,
   * `name=value` for request parameters, the bare value otherwise. The captured value
   * always ends the text.
   */
  function DisplayValue(data: MatchNotificationData): (d: string)
    ensures |d| >= |data.value| && d[|d| - |data.value|..] == data.value
    ensures data.ruleType in {Header, ResponseHeader} ==> d == Interpolated(data.headerName) + ": " + data.value
    ensures data.ruleType == RequestParam ==> d == Interpolated(data.paramName) + "=" + data.value
    ensures data.ruleType in {Url, RequestBody, Param} ==> d == data.value
  {
    match data.ruleType
    case Header => Interpolated(data.headerName) + ": " + data.value
    case ResponseHeader => Interpolated(data.headerName) + ": " + data.value
    case RequestParam => Interpolated(data.paramName) + "=" + data.value
    case Url => data.value
    case RequestBody => data.value
    case Param => data.value
  }

  /** The message sent to the page. */
  function MessageFor(data: MatchNotificationData): NotificationMessage {
    NotificationMessage("showMatchNotification", data.rulePattern, DisplayValue(data), data.url)
  }

  /**
   * What `sendMatchNotification` requests, given the settings it reads and the tab id the
   * tab resolver returns: nothing when notifications are off or no (truthy) tab id was
   * found, otherwise exactly one message to that tab.
   */
  function NotificationEffects(settings: AppSettings, data: MatchNotificationData, targetTab: Option<int>): (effects: seq<Effect>)
    ensures |effects| <= 1
    ensures effects != [] <==> settings.enableMatchNotifications && targetTab.Some? && targetTab.value != 0
    ensures effects != [] ==> effects[0] == SendToTab(targetTab.value, MessageFor(data))
  {
    if !settings.enableMatchNotifications then []
    else if targetTab.Some? && targetTab.value != 0 then [SendToTab(targetTab.value, MessageFor(data))]
    else []
  }

  /**
   * `sendMatchNotification(tabId, data)`. The tab resolution (`getTargetTabId`) is not
   * modelled; its result is the parameter `targetTab`.
   */
  method SendMatchNotification(store: LocalStore, log: EffectLog, data: MatchNotificationData, targetTab: Option<int>)
    modifies log
    ensures log.trace == old(log.trace) + NotificationEffects(SettingsIn(store.data), data, targetTab)
  {
    var notificationsEnabled := GetSetting(store, EnableMatchNotifications);
    if !notificationsEnabled {
      return;
    }
    var displayValue := DisplayValue(data);
    var messageData := NotificationMessage("showMatchNotification", data.rulePattern, displayValue, data.url);
    if targetTab.Some? && targetTab.value != 0 {
      log.Record(SendToTab(targetTab.value, messageData));
    }
  }
}
