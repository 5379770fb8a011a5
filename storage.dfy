/**
 * The extension's key-value store (`chrome.storage.local`) and the accessors over it:
 * rules, groups, the selected group and the application settings, each read with its
 * default when absent. Settings are stored as a partial object overlaid on fixed defaults.
 */
module Storage {
  import opened Wrappers
  import opened Types

  /** The keys the extension stores under. */
  datatype Key = RulesKey | GroupsKey | SelectedGroupKey | AppSettingsKey | HistoryRecordsKey

  /** A stored value. */
  datatype Stored =
    | StoredRules(rules: seq<Rule>)
    | StoredGroups(groups: seq<RuleGroup>)
    | StoredString(s: string)
    | StoredSettings(settings: PartialSettings)
    | StoredHistory(records: seq<HistoryRecord>)

  type Data = map<Key, Stored>

  /** `chrome.storage.local`: a shared map from keys to values, read and written whole per key. */
  class LocalStore {
    var data: Data

    constructor ()
      ensures data == map[]
    {
      data := map[];
    }

    /** `chrome.storage.local.get([key])`: the stored value, absent when never written. */
    method Get(key: Key) returns (v: Option<Stored>)
      ensures v.Some? <==> key in data
      ensures v.Some? ==> v.value == data[key]
    {
      v := if key in data then Some(data[key]) else None;
    }

    /** `chrome.storage.local.set({ [key]: v })`: replaces that key and no other. */
    method Set(key: Key, v: Stored)
      modifies this
      ensures data == old(data)[key := v]
    {
      data := data[key := v];
    }
  }

  const DefaultAppSettings := AppSettings(true, true)

  /** The partial object holding every field of `s`. */
  function Full(s: AppSettings): PartialSettings {
    PartialSettings(Some(s.enableMatchNotifications), Some(s.enableAutoCopy))
  }

  /** `{ ...base, ...p }`: a field present in `p` overrides, an absent one falls back to `base`. */
  function Overlay(base: AppSettings, p: PartialSettings): (s: AppSettings)
    ensures s.enableMatchNotifications == p.enableMatchNotifications.GetOr(base.enableMatchNotifications)
    ensures s.enableAutoCopy == p.enableAutoCopy.GetOr(base.enableAutoCopy)
  {
    AppSettings(
      p.enableMatchNotifications.GetOr(base.enableMatchNotifications),
      p.enableAutoCopy.GetOr(base.enableAutoCopy))
  }

  /** `{ ...s, [key]: v }` */
  function WithSetting(s: AppSettings, key: SettingKey, v: bool): (r: AppSettings)
    ensures Setting(r, key) == v
    ensures forall k :: k != key ==> Setting(r, k) == Setting(s, k)
  {
    match key
    case EnableMatchNotifications => s.(enableMatchNotifications := v)
    case EnableAutoCopy => s.(enableAutoCopy := v)
  }

  /** `result.rules || []` */
  function RulesIn(d: Data): (rules: seq<Rule>)
    ensures RulesKey !in d ==> rules == []
  {
    if RulesKey in d && d[RulesKey].StoredRules? then d[RulesKey].rules else []
  }

  /** `result.groups || []` */
  function GroupsIn(d: Data): (groups: seq<RuleGroup>)
    ensures GroupsKey !in d ==> groups == []
  {
    if GroupsKey in d && d[GroupsKey].StoredGroups? then d[GroupsKey].groups else []
  }

  /** `result.selectedGroup || 'all'`: an absent or empty selection reads as 'all'. */
  function SelectedGroupIn(d: Data): (g: string)
    ensures g != ""
    ensures SelectedGroupKey !in d ==> g == "all"
  {
    if SelectedGroupKey in d && d[SelectedGroupKey].StoredString? && d[SelectedGroupKey].s != ""
    then d[SelectedGroupKey].s
    else "all"
  }

  /** The stored partial settings, or none at all. */
  function StoredSettingsIn(d: Data): PartialSettings {
    if AppSettingsKey in d && d[AppSettingsKey].StoredSettings? then d[AppSettingsKey].settings
    else PartialSettings(None, None)
  }

  /** `getAppSettings()`: `{ ...defaultAppSettings, ...result.appSettings }`. */
  function SettingsIn(d: Data): (s: AppSettings)
    ensures AppSettingsKey !in d ==> s == DefaultAppSettings
  {
    Overlay(DefaultAppSettings, StoredSettingsIn(d))
  }

  /** The store after `saveAppSettings(p)`: the current settings merged with `p`, stored whole. */
  function SettingsSaved(d: Data, p: PartialSettings): Data {
    d[AppSettingsKey := StoredSettings(Full(Overlay(SettingsIn(d), p)))]
  }

  /** `saveAppSettings` followed by `getAppSettings`: keys in `p` take its values, the others keep theirs; nothing else in the store changes. */
  lemma SaveThenGet(d: Data, p: PartialSettings, key: SettingKey)
    ensures var before := Setting(SettingsIn(d), key);
            var after := Setting(SettingsIn(SettingsSaved(d, p)), key);
            match key
            case EnableMatchNotifications => after == p.enableMatchNotifications.GetOr(before)
            case EnableAutoCopy => after == p.enableAutoCopy.GetOr(before)
    ensures SettingsSaved(d, p) - {AppSettingsKey} == d - {AppSettingsKey}
  {
  }

  /** `getSetting(key)` after `updateSetting(key, v)` gives `v`; the other key keeps its value. */
  lemma UpdateThenGet(d: Data, key: SettingKey, v: bool)
    ensures var d' := SettingsSaved(d, Full(WithSetting(SettingsIn(d), key, v)));
            && Setting(SettingsIn(d'), key) == v
            && forall k :: k != key ==> Setting(SettingsIn(d'), k) == Setting(SettingsIn(d), k)
  {
    var d' := SettingsSaved(d, Full(WithSetting(SettingsIn(d), key, v)));
    assert SettingsIn(d') == WithSetting(SettingsIn(d), key, v);
  }

  /** `getAppSettings` reads what `resetAppSettings` writes as exactly the defaults. */
  lemma ResetThenGet(d: Data)
    ensures SettingsIn(d[AppSettingsKey := StoredSettings(Full(DefaultAppSettings))]) == DefaultAppSettings
  {
  }

  /** Saving then reading the selected group returns it, except that an empty id reads as 'all'. */
  lemma SelectedGroupRoundTrip(d: Data, g: string)
    ensures SelectedGroupIn(d[SelectedGroupKey := StoredString(g)]) == (if g == "" then "all" else g)
  {
  }

  /** `getRules()` */
  method GetRules(store: LocalStore) returns (rules: seq<Rule>)
    ensures rules == RulesIn(store.data)
  {
    var v := store.Get(RulesKey);
    rules := if v.Some? && v.value.StoredRules? then v.value.rules else [];
  }

  /** `saveRules(rules)` */
  method SaveRules(store: LocalStore, rules: seq<Rule>)
    modifies store
    ensures store.data == old(store.data)[RulesKey := StoredRules(rules)]
    ensures RulesIn(store.data) == rules
  {
    store.Set(RulesKey, StoredRules(rules));
  }

  /** `getGroups()` */
  method GetGroups(store: LocalStore) returns (groups: seq<RuleGroup>)
    ensures groups == GroupsIn(store.data)
  {
    var v := store.Get(GroupsKey);
    groups := if v.Some? && v.value.StoredGroups? then v.value.groups else [];
  }

  /** `saveGroups(groups)` */
  method SaveGroups(store: LocalStore, groups: seq<RuleGroup>)
    modifies store
    ensures store.data == old(store.data)[GroupsKey := StoredGroups(groups)]
    ensures GroupsIn(store.data) == groups
  {
    store.Set(GroupsKey, StoredGroups(groups));
  }

  /** `getSelectedGroup()` */
  method GetSelectedGroup(store: LocalStore) returns (g: string)
    ensures g == SelectedGroupIn(store.data)
  {
    var v := store.Get(SelectedGroupKey);
    g := if v.Some? && v.value.StoredString? && v.value.s != "" then v.value.s else "all";
  }

  /** `saveSelectedGroup(groupId)` */
  method SaveSelectedGroup(store: LocalStore, groupId: string)
    modifies store
    ensures store.data == old(store.data)[SelectedGroupKey := StoredString(groupId)]
  {
    store.Set(SelectedGroupKey, StoredString(groupId));
  }

  /** `getAppSettings()` */
  method GetAppSettings(store: LocalStore) returns (s: AppSettings)
    ensures s == SettingsIn(store.data)
  {
    var v := store.Get(AppSettingsKey);
    var stored := if v.Some? && v.value.StoredSettings? then v.value.settings else PartialSettings(None, None);
    s := Overlay(DefaultAppSettings, stored);
  }

  /** `saveAppSettings(settings)`: merges into the current settings and stores the result. */
  method SaveAppSettings(store: LocalStore, settings: PartialSettings)
    modifies store
    ensures store.data == SettingsSaved(old(store.data), settings)
  {
    var current := GetAppSettings(store);
    var updated := Overlay(current, settings);
    store.Set(AppSettingsKey, StoredSettings(Full(updated)));
  }

  /** `resetAppSettings()` */
  method ResetAppSettings(store: LocalStore)
    modifies store
    ensures store.data == old(store.data)[AppSettingsKey := StoredSettings(Full(DefaultAppSettings))]
    ensures SettingsIn(store.data) == DefaultAppSettings
  {
    store.Set(AppSettingsKey, StoredSettings(Full(DefaultAppSettings)));
  }

  /** `getSetting(key)` */
  method GetSetting(store: LocalStore, key: SettingKey) returns (v: bool)
    ensures v == Setting(SettingsIn(store.data), key)
  {
    var settings := GetAppSettings(store);
    v := Setting(settings, key);
  }

  /** `updateSetting(key, value)`: re-reads the settings, sets one key and saves the whole object. */
  method UpdateSetting(store: LocalStore, key: SettingKey, value: bool)
    modifies store
    ensures store.data == SettingsSaved(old(store.data), Full(WithSetting(SettingsIn(old(store.data)), key, value)))
    ensures Setting(SettingsIn(store.data), key) == value
  {
    var currentSettings := GetAppSettings(store);
    var updated := WithSetting(currentSettings, key, value);
    SaveAppSettings(store, Full(updated));
    UpdateThenGet(old(store.data), key, value);
  }
}
