# copy-http rule engine, in Dafny

copy-http is a browser extension that watches the browser's HTTP traffic and captures values
from it. The user configures rules. Each rule has a type (`url`, `header`, `responseHeader`,
`requestParam`, `requestBody`), a URL regular expression, and a header name, a query-parameter
name or a value template. The rules can be sorted into groups.

For each request, five `webRequest` listeners walk the stored rule list in order. Every
enabled rule of the listener's type whose pattern matches the request URL extracts a value:
- a `url` rule substitutes `$0`, `$1`, ... in its template;
- a `header` or `responseHeader` rule takes the first header whose name matches up to case;
- a `requestParam` rule reads the query parameter;
- a `requestBody` rule applies a JSONPath, or else a regular expression, to the body text.

Each captured value is dispatched once. A dispatch does four things:
- it copies the value to the clipboard when auto-copy is on;
- it adds a record at the head of a 30-entry history;
- it sends a formatted on-page notification when notifications are on and a tab is known;
- it stores the rule list with that rule's `lastValue` set.

Beside the engine, the model covers the popup's rule and group editor and the keyword
search of the history page.

The model is organised by source file:

| Dafny file | models |
|---|---|
| `storage.dfy` | `chrome.storage.local` as a class with a key-value map, and `src/utils/storage.ts` |
| `history_utils.dfy` | `src/utils/historyUtils.ts` |
| `effects.dfy` | the clipboard writes and tab messages, as an effect log |
| `notification_utils.dfy` | `src/utils/notificationUtils.ts` |
| `matching_utils.dfy` | `handleMatchResult` in `src/utils/matchingUtils.ts`, and a whole event's dispatches |
| `web_request.dfy` | the shared shape of the five listeners: one capture per rule, in rule order |
| `url_matching.dfy`, `request_headers.dfy`, `response_headers.dfy`, `request_params.dfy`, `request_body.dfy` | the five listeners in `src/listeners/` |
| `popup.dfy` | the rule and group editing in `src/popup.tsx` |
| `history_page.dfy` | the search filter in `src/tabs/history.tsx` |
| `engines.dfy`, `text.dfy`, `sequences.dfy`, `types.dfy`, `wrappers.dfy` | the JavaScript built-ins the code relies on, and the data types of `src/types.ts` |

Some services are foreign to the model: the regular-expression engine, `toLowerCase`,
`JSON.parse`, JSONPath, `JSON.stringify`, `TextDecoder`, `URL`/`URLSearchParams` and `Date`
parsing. They are fields of the `Engines.Engines` value that every operation receives.
Everything proved holds for every choice of these engines.

Some values come from the environment: the clock, the random history id and the tab a
notification goes to. They are parameters (`MatchingUtils.DispatchEnv`, and `now` in
`Popup.PopupPage.AddGroup`).

`String.prototype.trim`, `indexOf`/`includes`, `replace` with a string pattern,
`Array.prototype.filter` and number-to-decimal conversion are modelled concretely.

Each listener's loop is a method. Its postcondition says the store and the effect log end as
if the event's captures (`XMatches`) were dispatched one after another
(`MatchingUtils.DispatchAll`). The capture list is characterised in `WebRequest.CapturesSpec`.

Behaviours of the code that the model states and proves:
- A `url` rule's template without a matching token is left alone. `$1` with no capture group
  becomes "". In `$10` the `$1` is replaced first. Only the first occurrence of each token is
  replaced.
- A `requestBody` rule whose extraction yields the empty string still dispatches `""`: the
  code tests `value !== undefined`. A `url` rule, a header rule or a parameter rule never
  dispatches an empty value.
- When several rules of one event capture, each dispatch saves its own copy of the same rule
  snapshot. Only the last one's `lastValue` survives (`MatchingUtils.LastWriteWins`).
- A header or response-header notification whose header name is empty shows
  `undefined: value` (`MatchingUtils.HeaderNotificationText`). A parameter notification would
  show `undefined=value` without a name, but the parameter listener never captures for a
  rule without a non-empty parameter name.
- A tab id of 0 counts as "no tab": no notification is sent.
- A stored `selectedGroup` of "" reads back as `all`.

## Model

| member | source | states |
|---|---|---|
| Text.BlankIffAllSpace | src/popup.tsx:118 | a string trims to "" exactly when every character is JavaScript white space |
| Text.TrimmedEnds | src/popup.tsx:123 | a trimmed string is empty or starts and ends with a non-space character, and occurs in the original |
| Text.IndexOf | src/tabs/history.tsx:69-75 | `indexOf` returns -1 exactly when there is no occurrence, and otherwise the first occurrence |
| Text.ReplaceFirstOnlyFirst | src/listeners/urlMatching.ts:26 | `replace` with a string pattern rewrites the first occurrence and keeps everything before it |
| Text.ReplaceAbsent | src/listeners/urlMatching.ts:26 | `replace` leaves a string without the pattern unchanged |
| Text.DecimalRoundTrip | src/popup.tsx:123 | the decimal text of a number reads back as that number |
| Engines.Test | src/listeners/requestHeaders.ts:19-20 | `test` fails exactly when `exec` fails, and is true exactly when `exec` finds a match |
| Engines.Stringify | src/listeners/requestBody.ts:39 | `JSON.stringify` yields undefined exactly for undefined |
| Storage.LocalStore.Get | src/utils/storage.ts:12 | a read finds a key exactly when it is stored, with its value |
| Storage.LocalStore.Set | src/utils/storage.ts:20 | a write replaces one key and nothing else |
| Storage.Overlay | src/utils/storage.ts:61 | `{ ...defaults, ...stored }` takes each stored setting and the default for each missing one |
| Storage.WithSetting | src/utils/storage.ts:97 | `{ ...settings, [key]: value }` sets one setting and keeps the other |
| Storage.RulesIn | src/utils/storage.ts:13 | no stored rules read as the empty list |
| Storage.GroupsIn | src/utils/storage.ts:29 | no stored groups read as the empty list |
| Storage.SelectedGroupIn | src/utils/storage.ts:45 | the selected group is never "": missing or "" reads as `all` |
| Storage.SettingsIn | src/utils/storage.ts:61 | with nothing stored the settings are the defaults |
| Storage.SaveThenGet | src/utils/storage.ts:66-74 | after a partial save each saved setting reads back as saved, the others as before, and no other key changes |
| Storage.UpdateThenGet | src/utils/storage.ts:92-99 | after `updateSetting` the key reads back as the new value and the other setting is unchanged |
| Storage.ResetThenGet | src/utils/storage.ts:76-82 | after a reset the settings read as the defaults |
| Storage.SelectedGroupRoundTrip | src/utils/storage.ts:42-56 | a saved group reads back as itself, except "" which reads as `all` |
| Storage.GetRules | src/utils/storage.ts:10-16 | returns the stored rules, or [] |
| Storage.SaveRules | src/utils/storage.ts:18-24 | writes only the rules key, which then reads back as the rules saved |
| Storage.GetGroups | src/utils/storage.ts:26-32 | returns the stored groups, or [] |
| Storage.SaveGroups | src/utils/storage.ts:34-40 | writes only the groups key, which then reads back as the groups saved |
| Storage.GetSelectedGroup | src/utils/storage.ts:42-48 | returns the stored group, or `all` |
| Storage.SaveSelectedGroup | src/utils/storage.ts:50-56 | writes only the selected-group key |
| Storage.GetAppSettings | src/utils/storage.ts:58-64 | returns the stored settings over the defaults |
| Storage.SaveAppSettings | src/utils/storage.ts:66-74 | stores the current settings overlaid with the partial ones |
| Storage.ResetAppSettings | src/utils/storage.ts:76-82 | stores the defaults, which then read back |
| Storage.GetSetting | src/utils/storage.ts:85-90 | returns one setting of the effective settings |
| Storage.UpdateSetting | src/utils/storage.ts:92-99 | stores the settings with one key replaced, and that key then reads back as the value |
| HistoryUtils.WithId | src/utils/historyUtils.ts:20-23 | the new record is the given fields plus the id |
| HistoryUtils.Added | src/utils/historyUtils.ts:26-31 | the new record comes first, followed by the newest older records, up to 30 in all |
| HistoryUtils.HistoryIn | src/utils/historyUtils.ts:17 | no stored history reads as [] |
| HistoryUtils.AddedAllLength | src/utils/historyUtils.ts:12-39 | n additions to a list of at most 30 leave min(length + n, 30) records |
| HistoryUtils.FullListEvictsOldest | src/utils/historyUtils.ts:29-31 | adding to a full list drops exactly the oldest record |
| HistoryUtils.AddHistoryRecord | src/utils/historyUtils.ts:14-39 | stores the list with the new record added at the head and capped at 30, and nothing else |
| HistoryUtils.GetHistoryRecords | src/utils/historyUtils.ts:41-47 | returns the stored records, or [] |
| HistoryUtils.ClearHistoryRecords | src/utils/historyUtils.ts:49-55 | stores an empty history, which then reads as [] |
| Effects.EffectLog.Record | src/utils/notificationUtils.ts:57 | appends one effect to the log |
| NotificationUtils.DisplayValue | src/utils/notificationUtils.ts:27-42 | `name: value` for header types, `name=value` for parameters, the bare value otherwise; the value always ends the text |
| NotificationUtils.NotificationEffects | src/utils/notificationUtils.ts:21-60 | exactly one message, to the resolved tab, when notifications are on and the tab id is truthy; none otherwise |
| NotificationUtils.SendMatchNotification | src/utils/notificationUtils.ts:14-61 | appends exactly those effects to the log and changes nothing else |
| MatchingUtils.IfTruthy | src/utils/matchingUtils.ts:58-59 | a name is kept exactly when it is present and non-empty |
| MatchingUtils.WithLastValue | src/utils/matchingUtils.ts:79-90 | the snapshot with exactly the capturing rule's `lastValue` replaced |
| MatchingUtils.DispatchedTrace | src/utils/matchingUtils.ts:41-76 | a dispatch keeps the earlier effects and appends exactly the clipboard copy of the value when auto-copy is on, then exactly one message to the resolved tab carrying the capture's notification when notifications are on and the tab id is truthy, and nothing else |
| MatchingUtils.DispatchedData | src/utils/matchingUtils.ts:50-93 | a dispatch puts the capture's record at the head of the history, stores the snapshot with one `lastValue`, and leaves settings, groups and selection alone |
| MatchingUtils.HistoryRecordContents | src/utils/matchingUtils.ts:50-59 | the record carries type, pattern, value, time and URL, and a name only when it is non-empty |
| MatchingUtils.HeaderNotificationText | src/utils/notificationUtils.ts:30-34 | a header notification shows the header name, or "undefined" when it is missing or empty, then ": " and the value |
| MatchingUtils.HandleMatchResult | src/utils/matchingUtils.ts:26-94 | the store and the effect log end as one dispatch of the capture |
| MatchingUtils.DispatchAllSnoc | src/utils/matchingUtils.ts:26-94 | dispatching one more capture is one more dispatch on top of the earlier ones |
| MatchingUtils.LastWriteWins | src/utils/matchingUtils.ts:79-93 | after several captures of one event only the last capture's `lastValue` is stored; earlier ones for other rules are lost |
| MatchingUtils.DispatchAllHistory | src/utils/historyUtils.ts:26-31 | an event with n captures grows the history by n up to 30, and the newest record is the last capture's |
| MatchingUtils.DispatchTwice | src/utils/matchingUtils.ts:26-94 | the same capture dispatched twice adds two records, and `lastValue` is the second's |
| WebRequest.Gather | src/listeners/urlMatching.ts:11 | a rule loop yields at most one capture per rule |
| WebRequest.GatherSpec | src/listeners/urlMatching.ts:11-49 | captures come in ascending rule order, each from its rule, and every capturing rule is present |
| WebRequest.GatherNone | src/listeners/urlMatching.ts:11-49 | no capturing rule means no captures |
| WebRequest.GatherAgree | src/listeners/urlMatching.ts:11-49 | rule loops whose rules capture alike yield the same captures |
| WebRequest.DispatchAllStep | src/listeners/urlMatching.ts:11-49 | one more turn of a rule loop dispatches that rule's capture, if any, after the earlier ones |
| WebRequest.ProbeAt | src/listeners/urlMatching.ts:29-38 | a rule captures exactly when its outcome is a value, with that rule's index, pattern and the rules snapshot |
| WebRequest.CapturesSpec | src/listeners/urlMatching.ts:11-49 | a listener's captures are in rule order, each with its rule's value and fields, and every rule with a value is captured |
| WebRequest.NoOutcomeNoCaptures | src/listeners/urlMatching.ts:11-49 | if no rule yields a value, nothing is dispatched |
| WebRequest.CapturesAgree | src/listeners/urlMatching.ts:11-49 | two listeners whose rules yield the same outcomes produce the same captures |
| UrlMatching.SubstituteGroups | src/listeners/urlMatching.ts:24-27 | the loop computes the template substituted for tokens `$0` to `$length`, in ascending order |
| UrlMatching.NoTokenWithoutDollar | src/listeners/urlMatching.ts:26 | a string without `$` holds no token |
| UrlMatching.NoDollarUnchanged | src/listeners/urlMatching.ts:24-27 | a template without `$` is unchanged by any match |
| UrlMatching.MissingMatchValueIsEmpty | src/listeners/urlMatching.ts:24 | a missing template gives "", so the rule never dispatches |
| UrlMatching.DollarOneWithoutGroups | src/listeners/urlMatching.ts:25-26 | `$1` with no capture group becomes "" |
| UrlMatching.FirstTwoStepsAlwaysRun | src/listeners/urlMatching.ts:25-27 | for every template and match, the first `$0` and then the first `$1` are replaced, and `$1` becomes "" for a pattern without groups |
| UrlMatching.StepOneReplacesFirstOnly | src/listeners/urlMatching.ts:26 | in any template whose first `$` starts a `$1`, step 1 replaces that token by group 1 and keeps the rest, later `$1` tokens included |
| UrlMatching.TokenOneShadowsTen | src/listeners/urlMatching.ts:25-27 | in any template with no `$` before a `$10`, step 1 turns that `$10` into group 1 followed by "0" |
| UrlMatching.TenReadsAsOneThenZero | src/listeners/urlMatching.ts:25-26 | with one group "A", `$10` becomes "A0" |
| UrlMatching.OnlyFirstOccurrence | src/listeners/urlMatching.ts:26 | with one group "A", `$1$1` becomes "A$1" |
| UrlMatching.UrlOutcome | src/listeners/urlMatching.ts:13-29 | a rule errs exactly when it is an enabled url rule with a malformed pattern; it yields exactly when it matches and the substituted template is non-empty, and then yields that text |
| UrlMatching.HandleUrlRule | src/listeners/urlMatching.ts:12-48 | one loop turn dispatches that rule's capture, if any |
| UrlMatching.HandleUrlMatching | src/listeners/urlMatching.ts:10-49 | the event ends as the dispatch of every capture, in rule order |
| RequestHeaders.FindHeader | src/listeners/requestHeaders.ts:23-26 | the first header whose lower-cased name matches, or -1 exactly when none does |
| RequestHeaders.HeaderValue | src/listeners/requestHeaders.ts:23-26 | no headers give no value; a value comes from a header with the matching name |
| RequestHeaders.FirstHeaderWins | src/listeners/requestHeaders.ts:23-26 | with several matching headers the first one's value is used, even when it has none |
| RequestHeaders.LookupIgnoresCase | src/listeners/requestHeaders.ts:25 | names that lower-case alike find the same header |
| RequestHeaders.RequestHeaderOutcome | src/listeners/requestHeaders.ts:13-28 | errs exactly for a malformed pattern of an enabled header rule; yields exactly when the URL matches and the header value is non-empty, and then yields that value |
| RequestHeaders.RequestHeaderCaptureFields | src/listeners/requestHeaders.ts:30-38 | a capture has type header, the rule's own header-name spelling and the header's non-empty value |
| RequestHeaders.HandleRequestHeaderRule | src/listeners/requestHeaders.ts:12-51 | one loop turn dispatches that rule's capture, if any |
| RequestHeaders.HandleRequestHeaders | src/listeners/requestHeaders.ts:10-53 | the event ends as the dispatch of every capture, in rule order |
| ResponseHeaders.ResponseHeaderOutcome | src/listeners/responseHeaders.ts:13-28 | as for request headers, over the response headers and `responseHeader` rules |
| ResponseHeaders.ResponseHeaderCaptureFields | src/listeners/responseHeaders.ts:23-38 | a capture has type responseHeader, the rule's header name and a non-empty value; the request headers play no part |
| ResponseHeaders.HandleResponseHeaderRule | src/listeners/responseHeaders.ts:12-51 | one loop turn dispatches that rule's capture, if any |
| ResponseHeaders.HandleResponseHeaders | src/listeners/responseHeaders.ts:10-52 | the event ends as the dispatch of every capture, in rule order |
| RequestParams.QueryGet | src/listeners/requestParams.ts:25 | `searchParams.get` finds nothing exactly when no pair has the name, and otherwise the first pair's value |
| RequestParams.QueryGetFirst | src/listeners/requestParams.ts:25 | with a repeated parameter the first value is used |
| RequestParams.RequestParamOutcome | src/listeners/requestParams.ts:13-27 | nothing for a rule without a parameter name; errs exactly for a malformed pattern or URL; yields exactly a non-empty parameter value |
| RequestParams.RequestParamCaptureFields | src/listeners/requestParams.ts:29-37 | a capture has type requestParam, the rule's parameter name and no header name |
| RequestParams.HandleRequestParamRule | src/listeners/requestParams.ts:12-47 | one loop turn dispatches that rule's capture, if any |
| RequestParams.HandleRequestParams | src/listeners/requestParams.ts:10-49 | the event ends as the dispatch of every capture, in rule order |
| RequestBodyMatching.BodyText | src/listeners/requestBody.ts:28-43 | the first raw chunk's bytes decoded when present, else the serialised form data, else nothing |
| RequestBodyMatching.RawBytesTakePrecedence | src/listeners/requestBody.ts:28-36 | with raw bytes present, the form data and the later chunks are ignored |
| RequestBodyMatching.RegexPick | src/listeners/requestBody.ts:62-64 | errs exactly when the pattern is malformed and yields exactly when it matches |
| RequestBodyMatching.GroupOnePreferred | src/listeners/requestBody.ts:64 | group 1 when it is non-empty, else the whole match |
| RequestBodyMatching.JsonPathPick | src/listeners/requestBody.ts:52-53 | the first element of an array result, or the result itself, is taken as is when it is a string and `JSON.stringify`-ed otherwise; undefined exactly when that element is undefined |
| RequestBodyMatching.BodyValue | src/listeners/requestBody.ts:46-65 | the JSONPath result when the body parses and the path evaluates, the regular expression otherwise |
| RequestBodyMatching.JsonPathIgnoresRegex | src/listeners/requestBody.ts:48-53 | when JSONPath succeeds the regular-expression engine plays no part |
| RequestBodyMatching.ExtractedValue | src/listeners/requestBody.ts:25-66 | no body or empty body text yields nothing; otherwise the body value |
| RequestBodyMatching.ExtractRequestBodyValue | src/listeners/requestBody.ts:22-66 | the nested handlers compute `ExtractedValue` |
| RequestBodyMatching.RequestBodyOutcome | src/listeners/requestBody.ts:13-71 | nothing for other rules; errs exactly when an enabled body rule's pattern is malformed or, on a match, the extraction throws; yields exactly when the pattern matches and the extraction gives a defined value, which is the value |
| RequestBodyMatching.EmptyValueDispatched | src/listeners/requestBody.ts:71 | an extracted "" is still dispatched |
| RequestBodyMatching.NoBodyNoCaptures | src/listeners/requestBody.ts:25-71 | a request without body text dispatches nothing |
| RequestBodyMatching.RequestBodyCaptureFields | src/listeners/requestBody.ts:73-80 | a capture has type requestBody, no names, a matching URL and the extracted value |
| RequestBodyMatching.HandleRequestBodyRule | src/listeners/requestBody.ts:12-85 | one loop turn dispatches that rule's capture, if any |
| RequestBodyMatching.HandleRequestBody | src/listeners/requestBody.ts:10-87 | the event ends as the dispatch of every capture, in rule order |
| Sequences.Filter | src/popup.tsx:203-205 | a filter returns no more elements than it is given |
| Sequences.FilterMembers | src/popup.tsx:203-205 | a filter returns accepted elements of the input, and every accepted element |
| Sequences.FilterAccepts | src/popup.tsx:203-205 | each returned element comes from the input and is accepted |
| Sequences.FilterKeeps | src/popup.tsx:203-205 | each accepted element of the input is returned |
| Sequences.FilterMultiset | src/popup.tsx:203-205 | a filter keeps each accepted element exactly as many times as the input holds it, and no other element |
| Sequences.FilterIsSubsequence | src/popup.tsx:203-205 | a filter keeps the input order |
| Sequences.SubsequenceOfTail | src/popup.tsx:203-205 | a subsequence of the tail is a subsequence of the whole |
| Sequences.SubsequenceDropHead | src/popup.tsx:203-205 | a subsequence without its head is still a subsequence |
| Sequences.FilterKeepsAll | src/popup.tsx:203-205 | a filter accepting everything returns its input |
| Sequences.FilterAppend | src/popup.tsx:203-205 | filtering distributes over concatenation |
| Popup.VisibleSpec | src/popup.tsx:203-205 | the view holds, in order, exactly the rules of the selected group, each as many times as the list holds it; under `all` it is the whole list |
| Popup.VisibleCons | src/popup.tsx:203-205 | the view of a list is its head when in view, then the view of the rest |
| Popup.ViewPosition | src/popup.tsx:134-139 | the position found is -1 or within the list |
| Popup.ViewPositionSpec | src/popup.tsx:134-139 | a position is found exactly for an index in the view; it holds that rule in view, with exactly index rules in view before it |
| Popup.WithField | src/popup.tsx:142 | one property changes and every other, `lastValue` included, is kept |
| Popup.UpdateRuleSpec | src/popup.tsx:132-145 | an update changes exactly the index-th rule in view, and nothing for an index outside the view |
| Popup.DeleteRuleSpec | src/popup.tsx:148-160 | a delete removes exactly the index-th rule in view, and the view loses exactly that entry |
| Popup.ViewSplit | src/popup.tsx:156 | removing a rule in view removes its entry from the view and nothing else |
| Popup.AddedRuleInView | src/popup.tsx:105-114 | the new rule appears at the end of the current view |
| Popup.AddGroupSpec | src/popup.tsx:117-129 | a blank name adds nothing; otherwise one group is appended, named by the trimmed name, which is non-empty and has no surrounding white space |
| Popup.UngroupSpec | src/popup.tsx:175-184 | ungroup keeps every rule in place and clears only the members' group |
| Popup.DeleteMembersSpec | src/popup.tsx:175-184 | delete drops the members and keeps every other rule, unchanged, in order and as many times as it occurs |
| Popup.NoRuleLeftInGroup | src/popup.tsx:175-184 | whichever option is chosen, no rule remains in the deleted group |
| Popup.AnyLaterSpec | src/popup.tsx:335-338 | `some` holds exactly when some rule has a strictly later capture time |
| Popup.IsLatestMatchSpec | src/popup.tsx:324-339 | a rule is latest exactly when it has a capture and no rule in view has a later one; an unparsable time of its own makes it always latest |
| Popup.PopupPage.constructor | src/popup.tsx:78-84 | the page loads the rules, groups and selected group from the store |
| Popup.PopupPage.SaveRules | src/popup.tsx:87-90 | the page and the store hold the new rules; the rest is unchanged |
| Popup.PopupPage.SaveGroups | src/popup.tsx:93-96 | the page and the store hold the new groups; the rest is unchanged |
| Popup.PopupPage.HandleGroupChange | src/popup.tsx:99-102 | the page and the store hold the new selection, and they stay in step |
| Popup.PopupPage.AddRule | src/popup.tsx:105-114 | the list gains an enabled empty header rule in the selected group, stored |
| Popup.PopupPage.AddGroup | src/popup.tsx:117-129 | a blank name changes nothing; otherwise the trimmed group is stored and the input cleared |
| Popup.PopupPage.UpdateRule | src/popup.tsx:132-145 | stores the updated list, or nothing for an index outside the view |
| Popup.PopupPage.DeleteRule | src/popup.tsx:148-160 | stores the list without the rule, or nothing for an index outside the view |
| Popup.PopupPage.HandleDeleteGroup | src/popup.tsx:163-165 | records the group pending deletion |
| Popup.PopupPage.HandleDeleteGroupConfirm | src/popup.tsx:167-200 | without a pending group nothing happens; otherwise the group and, per option, its rules go, the selection falls back to `all` when it was that group, and everything is stored |
| HistoryPage.FilterRecords | src/tabs/history.tsx:62-79 | the search returns no more records than it is given |
| HistoryPage.BlankKeywordShowsAll | src/tabs/history.tsx:63-65 | a keyword of only white space shows every record |
| HistoryPage.FilterRecordsSpec | src/tabs/history.tsx:67-78 | any other keyword shows, in order and with their multiplicity, exactly the records where one field contains the lower-cased, trimmed keyword |
| HistoryPage.AbsentNamesNeverMatch | src/tabs/history.tsx:73-74 | missing header and parameter names never make a record match |
| HistoryPage.SearchIgnoresCase | src/tabs/history.tsx:67 | keywords that lower-case alike show the same records |

## Left out

- The user interface (JSX, the i18n messages, the tour, the `showNewGroup` toggle, the header
  preview and the toast and notification messages) is not modelled. Only the state the
  editing functions change is.
- Clipboard delivery through the offscreen document and content scripts is out of scope. A
  copy is an effect in the log, and whether it succeeds is not modelled.
- Tab resolution (`getTargetTabId` in `src/utils/tabUtils.ts`) is not part of this model. Its
  result is the `targetTab` parameter.
- Concurrency is out of scope. Listener events, the `getRules` promise and the history write
  (not awaited in `handleMatchResult`) run to completion in order. Storage writes from
  interleaved events are not modelled.
- A throw from inside `handleMatchResult` (a storage failure, say) is not modelled: every
  dispatch completes.
- `Date.now()`, `toLocaleString` and `Math.random()` are parameters (`MatchingUtils.DispatchEnv`,
  `now`), as is `new Date(...).getTime()` (an engine, with NaN as `None`).
- Regular expressions, `toLowerCase`, `JSON.parse`, JSONPath, `JSON.stringify`, `TextDecoder` and
  URL parsing are engines given as parameters. Unicode case mapping is not modelled.
- UrlMatching.Substituted: `replace` with a string pattern still expands the special patterns
  `$$`, `$&`, `` $` `` and `$'` in its replacement text (src/listeners/urlMatching.ts:26). A
  capture group whose text contains one of them is expanded by JavaScript and inserted
  literally by the model.
- Popup.ViewPosition: `findIndex(r => r === target)` compares object identity. The model
  takes the list position of the index-th rule in view, which is the same rule as long as
  every list entry is a distinct object, as the page creates them.
- RequestBodyMatching.BodyValue: when JSON parsing fails, the outer handler runs the regular
  expression once. When the JSONPath query fails, the inner handler runs it; only if that run
  throws does the outer handler run it a second time, and it throws again. The model
  evaluates it once, which gives the same value or the same error.
- RequestBodyMatching.JsonPathPick: `JSON.stringify` is total in the model; a value it would
  throw on (a cyclic structure, a BigInt) is not modelled.
- Text: a Dafny `char` is a Unicode scalar value, while a JavaScript string is a sequence of
  UTF-16 code units. Lengths and positions differ for characters outside the Basic
  Multilingual Plane, and lone surrogates cannot be represented.
- The `param` rule type has no listener and dispatches nothing. It appears only as a type name.
- `src/background.ts` wiring, `src/options.tsx`, the content scripts and the logger are not
  part of this model.
