/** The extension's stored entities: rules, rule groups and application settings. */
module Types {
  import opened Wrappers

  /** The six rule type tags; no listener accepts `Param`. */
  datatype RuleType = Header | Param | ResponseHeader | Url | RequestBody | RequestParam

  /** The tag as it is stored and shown (`'header'`, `'param'`, ...). */
  function RuleTypeName(t: RuleType): string {
    match t
    case Header => "header"
    case Param => "param"
    case ResponseHeader => "responseHeader"
    case Url => "url"
    case RequestBody => "requestBody"
    case RequestParam => "requestParam"
  }

  /** The value a rule extracted last, with the time it was extracted. */
  datatype LastValue = LastValue(value: string, timestamp: string)

  /**
   * A capture rule. `paramName`, `matchValue`, `group` and `lastValue` are optional
   * properties; `headerName` is always present but may be empty.
   */
  datatype Rule = Rule(
    ruleType: RuleType,
    urlPattern: string,
    headerName: string,
    paramName: Option<string>,
    matchValue: Option<string>,
    enabled: bool,
    group: Option<string>,
    lastValue: Option<LastValue>)

  datatype RuleGroup = RuleGroup(id: string, name: string, description: Option<string>)

  datatype AppSettings = AppSettings(enableMatchNotifications: bool, enableAutoCopy: bool)

  /** The keys of `AppSettings`. */
  datatype SettingKey = EnableMatchNotifications | EnableAutoCopy

  /** `settings[key]` */
  function Setting(s: AppSettings, key: SettingKey): bool {
    match key
    case EnableMatchNotifications => s.enableMatchNotifications
    case EnableAutoCopy => s.enableAutoCopy
  }

  /**
   * One entry of the capture history, newest first in the stored list. `headerName` and
   * `paramName` are absent unless the capturing rule had a non-empty one.
   */
  datatype HistoryRecord = HistoryRecord(
    id: string,
    ruleType: string,
    urlPattern: string,
    headerName: Option<string>,
    paramName: Option<string>,
    value: string,
    timestamp: string,
    url: string)

  /** A `Partial<AppSettings>`: each key may be absent. */
  datatype PartialSettings = PartialSettings(enableMatchNotifications: Option<bool>, enableAutoCopy: Option<bool>)
}
