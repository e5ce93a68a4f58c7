/**
 * The UI configuration readers: the optional process-wide configuration object
 * `window.__OPENCHAMBER_UI_CONFIG__` and the two lookups built on it, the list of
 * visible main tabs and the "is this feature hidden" test.
 */
module CustomConfig {

  import opened Wrappers

  /** A main tab identifier; the set of identifiers belongs to the UI store and is not
      restricted here. */
  type MainTab = string

  /** The upstream tab list, in header order. */
  const ALL_TABS: seq<MainTab> := ["chat", "plan", "git", "diff", "terminal", "files"]

  /** The configuration record: both fields may be absent. */
  datatype UIConfig = UIConfig(visibleTabs: Option<seq<MainTab>>, hiddenUI: Option<seq<string>>)

  /** The empty record `{}`. */
  const EMPTY_CONFIG := UIConfig(None, None)

  /** The global object, reduced to the configuration property it may carry. `None` for a
      `window` that is undefined (code running outside a browser). */
  datatype Window = Window(uiConfig: Option<UIConfig>)

  /** The configuration in force: the one set on `window`, or `{}` when there is no `window`
      or no configuration on it. */
  function GetUIConfig(window: Option<Window>): (c: UIConfig)
    ensures (window.None? || window.value.uiConfig.None?) ==> c == EMPTY_CONFIG
    ensures (window.Some? && window.value.uiConfig.Some?) ==> c == window.value.uiConfig.value
    ensures c != EMPTY_CONFIG ==> window == Some(Window(Some(c)))
  {
    if window.None? then EMPTY_CONFIG
    else match window.value.uiConfig
      case None => EMPTY_CONFIG
      case Some(c) => c
  }

  /** The tabs to show: the configured list when there is a non-empty one, as it is (no
      filtering against `ALL_TABS`, no reordering, no de-duplication), otherwise `ALL_TABS`.
      Never empty. */
  function GetVisibleTabs(window: Option<Window>): (tabs: seq<MainTab>)
    ensures tabs != []
    ensures var v := GetUIConfig(window).visibleTabs;
      (v.Some? && v.value != []) ==> tabs == v.value
    ensures var v := GetUIConfig(window).visibleTabs;
      (v.None? || v.value == []) ==> tabs == ALL_TABS
  {
    var visible := GetUIConfig(window).visibleTabs;
    if visible.None? || |visible.value| == 0 then ALL_TABS else visible.value
  }

  /** Whether feature `featureId` is configured as hidden: never when `hiddenUI` is absent,
      otherwise exactly when some entry of `hiddenUI` is that very string. */
  function IsUIHidden(window: Option<Window>, featureId: string): (hidden: bool)
    ensures GetUIConfig(window).hiddenUI.None? ==> !hidden
    ensures var h := GetUIConfig(window).hiddenUI;
      h.Some? ==> (hidden <==> exists i :: 0 <= i < |h.value| && h.value[i] == featureId)
  {
    var h := GetUIConfig(window).hiddenUI;
    if h.None? then false else featureId in h.value
  }

  /** Whatever the window, the visible tabs are either the default list or a configured
      non-empty list taken over unchanged. */
  lemma VisibleTabsSource(window: Option<Window>)
    ensures var tabs := GetVisibleTabs(window);
      tabs == ALL_TABS
      || (window.Some? && window.value.uiConfig.Some?
          && window.value.uiConfig.value.visibleTabs == Some(tabs))
  {
  }

  /** Without a `window`, or without a configuration on it, the defaults apply: every tab is
      shown and no feature is hidden. */
  lemma NoConfigMeansDefaults(window: Option<Window>, featureId: string)
    requires window.None? || window.value.uiConfig.None?
    ensures GetVisibleTabs(window) == ALL_TABS
    ensures !IsUIHidden(window, featureId)
  {
  }

  /** The default configuration the web entry point installs when none is set. */
  const DEFAULT_WEB_CONFIG := UIConfig(
    Some(["chat", "plan", "terminal", "files"]),
    Some(["git", "multi-run", "about", "message-fork", "message-new-session",
          "diff-view-tabs", "keyboard-shortcuts"]))

  /** Under the default web configuration the session search is not hidden and four tabs
      are shown. */
  lemma DefaultWebConfigKeepsSessionSearch()
    ensures !IsUIHidden(Some(Window(Some(DEFAULT_WEB_CONFIG))), "session-search")
    ensures GetVisibleTabs(Some(Window(Some(DEFAULT_WEB_CONFIG)))) == ["chat", "plan", "terminal", "files"]
  {
  }

}
