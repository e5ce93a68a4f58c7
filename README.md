# Session search and UI configuration, modelled in Dafny

This project models two pieces of the web client.

The first is the **session search** that is injected into the sidebar. It works on the
session list that is already in the page:

- `filterSessions(query)` hides and shows session items. It compares each session's title
  with the query, both lower-cased and trimmed.
- It hides groups whose body has no visible session left.
- It hides the "Show N more sessions" / "Show fewer sessions" buttons while a search is
  active.
- The first non-empty query does not filter at once. It clicks every "more session" button
  to load all sessions, raises the `expandedBySearch` flag and schedules a re-run of itself
  50 ms later.
- `initSessionSearch` mounts the search box once. It waits for the sidebar header through
  a document observer. It then installs the input handler, the clear button and an
  observer that filters again when the session list changes. The `hiddenUI` entry
  `session-search` switches the whole feature off.

The second is the **UI configuration reader**. It reads the optional global configuration
object, gives the list of visible main tabs (all six by default) and tests whether a
feature identifier is configured as hidden.

The page is abstracted as the flat lists that the engine's selectors return:

- session items: a body, an optional title element text, and the hidden class;
- groups: an optional body and the hidden class;
- body buttons: text, hidden class and a click count.

Each scheduled re-run is a query in a FIFO queue, so several can be pending at once. The
document observers, the session observer and the timer become methods that the host calls
when they fire.

Modules:

- `Wrappers`: the `Option` type.
- `JsString`: `toLowerCase`, `trim` and `includes` on strings.
- `CustomConfig`: `customConfig.ts`.
- `SessionModel`: the page model and the pure specification of one `filterSessions` call
  (`FilterStep`) and of one deferred re-run (`RunDeferred`).
- `SessionSearch`: the engine as a class that updates the list in place, proved against
  `FilterStep`. It also holds the mount with its handlers and the two re-run scenarios.

Some specification functions have no contract of their own. Their rows below are the
lemmas and methods that state what they mean:

- `JsString.Contains` models `includes` (line 150); see `ContainsIffOccurs`.
- `JsString.Normalize` models `query.toLowerCase().trim()` (line 127); see
  `NormalizeShape`, `NormalizeIdempotent` and `NormalizeEmptyIff`.
- `SessionModel.Filtered` models the three passes of lines 142-179; see
  `ItemHiddenIffNoMatch`, `GroupHiddenIffNoMatch`, `FilteringIdempotent` and
  `LastQueryDecides`.
- `SessionModel.FilterStep` models one `filterSessions` call (lines 126-180); see
  `ExpandingChangesNoVisibility`, `FilteringKeepsFlag`, `BlankQueryResets` and
  `FilterStepIdempotent`.
- `SessionModel.RunDeferred` models the timer callback of line 133; see
  `ExpandThenDeferredFilters`, `RerunExpandsAgain` and `RerunFilters`.

## Model

| member | source | states |
|---|---|---|
| JsString.ToLower | packages/web/src/session-search.ts:109 | keeps the length, and every character is the lower-cased character at the same position |
| JsString.TrimStart | packages/web/src/session-search.ts:109 | the characters removed from the front are all white space or line terminators, and the result does not begin with one |
| JsString.TrimStartIsSuffix | packages/web/src/session-search.ts:109 | what `TrimStart` leaves is the tail of the input, character for character |
| JsString.TrimEnd | packages/web/src/session-search.ts:109 | the result is a prefix of the input, the characters removed from the end are all white space or line terminators, and the result does not end with one |
| JsString.Trim | packages/web/src/session-search.ts:109 | the result has no leading or trailing white space or line terminator, and it is empty exactly when the input is all white space |
| JsString.TrimIsInfix | packages/web/src/session-search.ts:109 | the result of `trim` is a contiguous piece of the input, and everything before and after that piece is white space |
| JsString.TrimTrimmed | packages/web/src/session-search.ts:109 | trimming a string that is already trimmed changes nothing |
| JsString.ContainsIffOccurs | packages/web/src/session-search.ts:150 | `includes` holds exactly when the needle occurs at some index of the string |
| JsString.NormalizeShape | packages/web/src/session-search.ts:127 | a normalised query is trimmed and has no upper-case ASCII letter |
| JsString.NormalizeIdempotent | packages/web/src/session-search.ts:127 | normalising twice gives the same as normalising once |
| JsString.NormalizeEmptyIff | packages/web/src/session-search.ts:127 | the normalised query is empty exactly when the raw query is all white space |
| SessionModel.SessionTitle | packages/web/src/session-search.ts:107-110 | the title is trimmed; it is the empty string when the item has no title element; otherwise it is the lower-cased label text with its leading and trailing white space cut off |
| SessionModel.SessionTitleIsNormal | packages/web/src/session-search.ts:107-110 | a title is already in the normal form of the query: normalising it again changes nothing |
| SessionModel.UntitledMatchesNothing | packages/web/src/session-search.ts:107-110 | an item without a title element matches no non-empty query |
| SessionModel.FilterItems | packages/web/src/session-search.ts:144-155 | every item keeps its position and body, and it is hidden exactly when the query is non-empty and its title does not include the query |
| SessionModel.FilterGroups | packages/web/src/session-search.ts:157-167 | a group without a body is left as it was; a group with a body is hidden exactly when the query is non-empty and no item of that body is visible |
| SessionModel.FilterButtons | packages/web/src/session-search.ts:169-179 | only buttons whose text includes "more session" or "fewer session" change, and they are hidden exactly when the query is non-empty |
| SessionModel.ClickMoreButtons | packages/web/src/session-search.ts:115-124 | exactly the buttons whose text includes "more session" get one more click; nothing else changes |
| SessionModel.ItemHiddenIffNoMatch | packages/web/src/session-search.ts:144-155 | after filtering with a non-empty query, item i is hidden exactly when its normalised title does not include the query; untitled items are always hidden |
| SessionModel.GroupHiddenIffNoMatch | packages/web/src/session-search.ts:157-167 | after filtering with a non-empty query, a group with a body is hidden exactly when no item of that body matches the query |
| SessionModel.FilteringIdempotent | packages/web/src/session-search.ts:142-179 | running the filtering pass twice with the same query gives the same list as running it once |
| SessionModel.LastQueryDecides | packages/web/src/session-search.ts:142-179 | filtering with a query after any earlier search gives the same list as filtering with that query directly; in particular clearing undoes any search |
| SessionModel.FilteringKeepsUntouchedVisible | packages/web/src/session-search.ts:157-179 | groups without a body and buttons that are not expansion controls stay visible |
| SessionModel.ClearShowsEverything | packages/web/src/session-search.ts:137-179 | on a list whose groups without a body and non-control buttons are visible, the empty query leaves no item, group or button hidden |
| SessionModel.SearchThenClearRestores | packages/web/src/session-search.ts:137-179 | from a list with nothing hidden, any search followed by clearing gives back exactly the original list |
| SessionModel.ExpandingChangesNoVisibility | packages/web/src/session-search.ts:130-135 | the expanding path changes no hidden class and adds one click to each "more session" button |
| SessionModel.FilteringKeepsFlag | packages/web/src/session-search.ts:130-140 | a non-empty query on an already expanded list filters, keeps the flag and schedules nothing |
| SessionModel.BlankQueryResets | packages/web/src/session-search.ts:137-140 | an all-white-space query clears the flag, schedules nothing and runs the empty-query pass |
| SessionModel.NonBlankQueryKeepsFlag | packages/web/src/session-search.ts:130-140 | after a query that is not all white space, the flag is set, on either path |
| SessionModel.FilterStepIdempotent | packages/web/src/session-search.ts:126-180 | a call that does not expand, repeated with the same query, changes nothing more |
| SessionModel.ExpandThenDeferredFilters | packages/web/src/session-search.ts:130-135 | from a state with nothing pending, the expanding call schedules exactly one re-run with the same query, and when it fires it filters the expanded list with that query and keeps the flag |
| SessionModel.StepKeepsUntouchedVisible | packages/web/src/session-search.ts:126-180 | no call of `filterSessions` hides a group without a body or a button that is not an expansion control |
| SessionModel.BlankStepShowsEverything | packages/web/src/session-search.ts:137-179 | on a list whose groups without a body and non-control buttons are visible, a call with a blank query leaves nothing hidden |
| SessionModel.ClearKeepsShownList | packages/web/src/session-search.ts:145-148 | filtering a list that has nothing hidden with the empty query changes nothing |
| SessionModel.ExpandWithoutButtons | packages/web/src/session-search.ts:115-135 | on a list without buttons, the expanding call only raises the flag and schedules the re-run |
| SessionModel.TypeThenClearLeavesRerun | packages/web/src/session-search.ts:126-140 | on a button-less list with nothing hidden, typing a non-blank query and then clearing gives back the list with the flag down, but the re-run scheduled by the first call is still pending |
| SessionModel.RerunExpandsAgain | packages/web/src/session-search.ts:130-135 | a re-run whose captured query is non-blank and that finds the flag down expands again: it clicks the "more session" buttons once more, raises the flag and schedules one more re-run with the same query |
| SessionModel.RerunFilters | packages/web/src/session-search.ts:130-155 | a re-run whose captured query is non-blank and that finds the flag up filters the list with that query |
| SessionModel.StaleRerunHides | packages/web/src/session-search.ts:133 | from the state left by typing and clearing, the pending re-run finds the flag cleared and expands again; the re-run after it filters with the typed query and hides a session that does not match it, although the box is now empty |
| SessionModel.StepKeepsMountInvariant | packages/web/src/session-search.ts:126-180 | any call of `filterSessions` keeps the untouched elements visible, and a call with a blank query leaves nothing hidden |
| SessionSearch.SessionFilter.constructor | packages/web/src/session-search.ts:112-113 | the engine starts on the host's list with the flag down and nothing scheduled |
| SessionSearch.SessionFilter.ExpandAllSessionGroups | packages/web/src/session-search.ts:115-124 | the buttons become `ClickMoreButtons` of the old buttons, the flag is raised, and items, groups and pending re-runs are unchanged |
| SessionSearch.SessionFilter.FilterSessions | packages/web/src/session-search.ts:126-180 | the new engine state is `FilterStep` of the old state and the query |
| SessionSearch.SessionFilter.ApplyVisibility | packages/web/src/session-search.ts:142-179 | the list becomes `Filtered` of the old list: items first, then groups over the filtered items, then buttons; the flag and the pending re-runs are unchanged |
| SessionSearch.SessionFilter.RunDeferred | packages/web/src/session-search.ts:133 | the oldest pending re-run is removed and `filterSessions` runs with the query it captured |
| SessionSearch.SessionFilter.ApplyItemVisibility | packages/web/src/session-search.ts:144-155 | the items become `FilterItems` of the old items; nothing else changes |
| SessionModel.NoVisibleIndexIff | packages/web/src/session-search.ts:161-162 | the set of visible items of a body is empty exactly when the body has no visible item |
| SessionSearch.SessionFilter.VisibleSessionCount | packages/web/src/session-search.ts:161-162 | the count is the number of items of the body without the hidden class, and it is zero exactly when the body has no visible item |
| SessionSearch.SessionFilter.ApplyGroupVisibility | packages/web/src/session-search.ts:157-167 | the groups become `FilterGroups` of the old groups over the current items; nothing else changes |
| SessionSearch.SessionFilter.ApplyButtonVisibility | packages/web/src/session-search.ts:169-179 | the buttons become `FilterButtons` of the old buttons; nothing else changes |
| SessionSearch.MountGuardIsUIHidden | packages/web/src/session-search.ts:195-196 | the mount guard gives the same answer as `isUIHidden('session-search')` on the same configuration |
| SessionSearch.SearchMount.constructor | packages/web/src/session-search.ts:193 | before mounting there is no observer, no box and an empty input, and the invariant holds |
| SessionSearch.SearchMount.Init | packages/web/src/session-search.ts:193-244 | when the feature is hidden or the box is already mounted, nothing changes; otherwise one more document observer is connected; the invariant is kept |
| SessionSearch.SearchMount.OnDocumentMutation | packages/web/src/session-search.ts:203-241 | the box is injected at most once over the page's life. When the insertion point exists and the box is absent, the box is injected, the session observer is connected exactly when the scrollable area exists, and this observer disconnects. Otherwise nothing changes |
| SessionSearch.SearchMount.OnInput | packages/web/src/session-search.ts:214-217 | from any mounted state, the input holds the new value and the engine takes one `FilterStep` with it; the full invariant holds afterwards, so a blank value leaves nothing hidden |
| SessionSearch.SearchMount.OnClear | packages/web/src/session-search.ts:219-224 | from any mounted state, the input is empty, the flag is down and the engine takes one `FilterStep` with the empty query; the full invariant holds afterwards, so nothing is hidden |
| SessionSearch.SearchMount.OnSessionMutation | packages/web/src/session-search.ts:227-231 | from any state with the observer connected, the engine filters with the input value when it is non-empty and is unchanged otherwise; the wiring is kept, the full invariant is kept when it held, and it holds afterwards whenever the input is non-empty |
| SessionSearch.SearchMount.RunDeferredWithLiveInput | packages/web/src/session-search.ts:130-135 | the oldest pending re-run is removed and the engine filters with the input value as it is when the re-run fires; from any wired state, the full invariant, including "a blank input leaves nothing hidden", holds afterwards |
| SessionSearch.MountAndType | packages/web/src/session-search.ts:193-217 | mounting the box on a button-less list and typing a non-blank query leaves the list as it was, the flag up and one re-run pending with that query |
| SessionSearch.TypeThenClear | packages/web/src/session-search.ts:214-224 | clearing the box after that leaves the input empty, the list as it was and the flag down, with the re-run still pending |
| SessionSearch.StaleDeferredRun | packages/web/src/session-search.ts:133 | with the re-runs as written, after both have fired the input is empty while a session that does not match the typed query is hidden; clicking clear again shows every session |
| SessionSearch.LiveDeferredRun | packages/web/src/session-search.ts:219-224 | with the re-run reading the input when it fires, after typing and clearing the input is empty and no session is hidden, on any button-less list |
| CustomConfig.GetUIConfig | packages/ui/src/lib/customConfig.ts:25-30 | without a window, or without a configuration on it, the result is the empty record; with a configuration set on the window, the result is that configuration |
| CustomConfig.GetVisibleTabs | packages/ui/src/lib/customConfig.ts:36-43 | never empty; a configured non-empty list is returned as it is; otherwise all six tabs in header order |
| CustomConfig.IsUIHidden | packages/ui/src/lib/customConfig.ts:48-55 | false when `hiddenUI` is absent; otherwise true exactly when some entry equals the feature identifier |
| CustomConfig.VisibleTabsSource | packages/ui/src/lib/customConfig.ts:36-43 | the visible tabs are either all tabs or exactly the list configured on the window |
| CustomConfig.NoConfigMeansDefaults | packages/ui/src/lib/customConfig.ts:25-55 | without a configuration every tab is visible and no feature is hidden |
| CustomConfig.DefaultWebConfigKeepsSessionSearch | packages/web/src/main.tsx:18-34 | under the default web configuration the session search is not hidden and four tabs are shown |

## Left out

- Styles, the search-box markup, focus handling and the clear button's `visible` toggle
  are not modelled. They change no session visibility.
- `findInsertionPoint` and the scrollable-area lookup are not modelled as selectors. Each
  is a boolean that the host passes to `SearchMount.OnDocumentMutation`, meaning "found".
- `MutationObserver` and `setTimeout` are not modelled as a scheduler. Each callback is a
  method that the host calls when it fires (`SessionFilter.RunDeferred`,
  `SearchMount.OnDocumentMutation`, `SearchMount.OnSessionMutation`). The 50 ms delay is
  only the FIFO order of the pending re-runs.
- What a click does to the page is host behaviour. The model counts clicks and leaves the
  list otherwise as it was. New sessions appearing after a click, or at any time, are not
  modelled.
- JsString.ToLower: lower-cases ASCII letters only. Full Unicode case mapping, including
  characters whose lower-case form is longer, is not modelled.
- `MainTab` is an unrestricted string. The UI store that defines the tab identifiers is not
  part of this model.
- The `customUI` list installed by the web entry point is not modelled. No function of
  the configuration reader reads it.
- The settings patcher that writes the configuration, the page bootstrap and the
  `DOMContentLoaded` wait are not part of this model.
- The DOM check in `initSessionSearch` (line 199) is modelled by the `injected` field. A
  box with the same id placed by other code is not modelled.
- SessionSearch.StaleDeferredRun and SessionSearch.LiveDeferredRun are stated for a
  list without body buttons; the first one is stated for the first session of the list.
  With expansion buttons, each expanding re-run would also click the "more session"
  buttons again. The filtering re-run of `StaleDeferredRun` would also hide every "more
  session" and "fewer session" button while the box is empty.

## Findings

| source | as written | input that shows it | evidently intended | confidence | as-written member | corrected member |
|---|---|---|---|---|---|---|
| packages/web/src/session-search.ts:133 | the deferred re-run filters with the `query` captured when it was scheduled | a session titled "Alpha"; type "zzz", click clear within 50 ms, let the timers fire: the first re-run finds the flag cleared and expands again, the second hides "Alpha", and the search box is empty | the re-run filters with the input's current value, so that clearing the box always leaves every session visible | not executed | SessionModel.StaleRerunHides | SessionSearch.SearchMount.RunDeferredWithLiveInput |
