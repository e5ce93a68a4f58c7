/**
 * The session search as it runs in the page: the filter engine that hides and shows the
 * sessions in place (`filterSessions`, `expandAllSessionGroups` and the module-level
 * `expandedBySearch` flag), and the one-shot mount of the search box with its input,
 * clear and session-observer handlers (`initSessionSearch`).
 *
 * The document observers and the timer are host callbacks; here each callback is a
 * method the host calls: `SessionFilter.RunDeferred` when a scheduled re-run is due,
 * `SearchMount.OnDocumentMutation` and `SearchMount.OnSessionMutation` when an
 * observer fires.
 */
module SessionSearch {

  import opened Wrappers
  import opened JsString
  import opened CustomConfig
  import opened SessionModel

  /** The filter engine over the session list of one page. */
  class SessionFilter {

    var items: seq<Item>
    var groups: seq<Group>
    var buttons: seq<Button>
    /** Groups have been force-expanded by the current search. */
    var expandedBySearch: bool
    /** Queries captured by the re-runs scheduled with `setTimeout` and not yet run; they
        all wait the same delay, so they fire in this order. */
    var timers: seq<string>

    /** The list as it stands. */
    function List(): SessionList
      reads this
    {
      SessionList(items, groups, buttons)
    }

    /** The whole engine state. */
    function State(): EngineState
      reads this
    {
      EngineState(List(), expandedBySearch, timers)
    }

    /** The engine on the host's list, before any search: the hidden class is the engine's
        own, so no element carries it yet. */
    constructor (host: SessionList)
      requires NothingHidden(host)
      ensures State() == EngineState(host, false, [])
    {
      items, groups, buttons := host.items, host.groups, host.buttons;
      expandedBySearch := false;
      timers := [];
    }

    /** `expandAllSessionGroups`: clicks every body button whose text includes
        "more session" and sets the flag. */
    method ExpandAllSessionGroups()
      modifies this
      ensures buttons == ClickMoreButtons(old(buttons))
      ensures expandedBySearch
      ensures items == old(items) && groups == old(groups) && timers == old(timers)
    {
      ghost var want := ClickMoreButtons(buttons);
      var k := 0;
      while k < |buttons|
        invariant k <= |buttons| == |want|
        invariant forall j :: 0 <= j < k ==> buttons[j] == want[j]
        invariant forall j :: k <= j < |buttons| ==> buttons[j] == old(buttons)[j]
        invariant items == old(items) && groups == old(groups) && timers == old(timers)
      {
        var button := buttons[k];
        if Contains(button.text, MORE_SESSION) {
          buttons := buttons[k := button.(clicks := button.clicks + 1)];
        }
        k := k + 1;
      }
      expandedBySearch := true;
    }

    /** `filterSessions(query)`: one step of the engine, as `FilterStep` describes it. */
    method FilterSessions(query: string)
      modifies this
      ensures State() == FilterStep(old(State()), query)
    {
      var nq := Normalize(query);
      if nq != "" && !expandedBySearch {
        ExpandAllSessionGroups();
        timers := timers + [query];
        return;
      }
      if nq == "" {
        expandedBySearch := false;
      }
      ApplyVisibility(nq);
    }

    /** The three passes of `filterSessions` that follow the expansion test: items, then
        groups over the items as just filtered, then the expansion buttons. */
    method ApplyVisibility(nq: string)
      modifies this
      ensures List() == Filtered(old(List()), nq)
      ensures expandedBySearch == old(expandedBySearch) && timers == old(timers)
    {
      ApplyItemVisibility(nq);
      ApplyGroupVisibility(nq);
      ApplyButtonVisibility(nq);
    }

    /** The oldest scheduled re-run fires and calls `filterSessions` with the query it
        captured when it was scheduled. */
    method RunDeferred()
      requires timers != []
      modifies this
      ensures State() == SessionModel.RunDeferred(old(State()))
    {
      var query := timers[0];
      timers := timers[1..];
      FilterSessions(query);
    }

    /** The item pass of `filterSessions`. */
    method ApplyItemVisibility(nq: string)
      modifies this
      ensures items == FilterItems(old(items), nq)
      ensures groups == old(groups) && buttons == old(buttons)
      ensures expandedBySearch == old(expandedBySearch) && timers == old(timers)
    {
      ghost var want := FilterItems(items, nq);
      var i := 0;
      while i < |items|
        invariant i <= |items| == |want|
        invariant forall j :: 0 <= j < i ==> items[j] == want[j]
        invariant forall j :: i <= j < |items| ==> items[j] == old(items)[j]
        invariant groups == old(groups) && buttons == old(buttons)
        invariant expandedBySearch == old(expandedBySearch) && timers == old(timers)
      {
        var item := items[i];
        if nq == "" {
          items := items[i := item.(hidden := false)];
        } else {
          var title := SessionTitle(item);
          items := items[i := item.(hidden := !Contains(title, nq))];
        }
        i := i + 1;
      }
    }

    /** `body.querySelectorAll('& > div:not(.oc-search-hidden)').length`: the number of items
        of body `b` without the hidden class; zero exactly when the body has no visible
        item. */
    method VisibleSessionCount(b: BodyId) returns (n: nat)
      ensures n == |VisibleItemIndices(items, b, |items|)|
      ensures n == 0 <==> !HasVisibleItem(items, b)
    {
      n := 0;
      var i := 0;
      while i < |items|
        invariant i <= |items|
        invariant n == |VisibleItemIndices(items, b, i)|
      {
        if items[i].body == b && !items[i].hidden {
          assert VisibleItemIndices(items, b, i + 1) == VisibleItemIndices(items, b, i) + {i};
          n := n + 1;
        } else {
          assert VisibleItemIndices(items, b, i + 1) == VisibleItemIndices(items, b, i);
        }
        i := i + 1;
      }
      NoVisibleIndexIff(items, b);
    }

    /** The group pass of `filterSessions`, over the items as the item pass left them. */
    method ApplyGroupVisibility(nq: string)
      modifies this
      ensures groups == FilterGroups(old(groups), items, nq)
      ensures items == old(items) && buttons == old(buttons)
      ensures expandedBySearch == old(expandedBySearch) && timers == old(timers)
    {
      ghost var want := FilterGroups(groups, items, nq);
      var g := 0;
      while g < |groups|
        invariant g <= |groups| == |want|
        invariant forall j :: 0 <= j < g ==> groups[j] == want[j]
        invariant forall j :: g <= j < |groups| ==> groups[j] == old(groups)[j]
        invariant items == old(items) && buttons == old(buttons)
        invariant expandedBySearch == old(expandedBySearch) && timers == old(timers)
      {
        var group := groups[g];
        if group.body.Some? {
          var visible := VisibleSessionCount(group.body.value);
          groups := groups[g := group.(hidden := nq != "" && visible == 0)];
        }
        g := g + 1;
      }
    }

    /** The button pass of `filterSessions`. */
    method ApplyButtonVisibility(nq: string)
      modifies this
      ensures buttons == FilterButtons(old(buttons), nq)
      ensures items == old(items) && groups == old(groups)
      ensures expandedBySearch == old(expandedBySearch) && timers == old(timers)
    {
      ghost var want := FilterButtons(buttons, nq);
      var k := 0;
      while k < |buttons|
        invariant k <= |buttons| == |want|
        invariant forall j :: 0 <= j < k ==> buttons[j] == want[j]
        invariant forall j :: k <= j < |buttons| ==> buttons[j] == old(buttons)[j]
        invariant items == old(items) && groups == old(groups)
        invariant expandedBySearch == old(expandedBySearch) && timers == old(timers)
      {
        var button := buttons[k];
        if IsExpansionControl(button) {
          buttons := buttons[k := button.(hidden := nq != "")];
        }
        k := k + 1;
      }
    }
  }

  /** The feature identifier the mount guard looks up. */
  const SESSION_SEARCH_FEATURE := "session-search"

  /** The mount guard: the configuration on `window` lists the session search in
      `hiddenUI`. */
  predicate SessionSearchDisabled(config: Option<UIConfig>)
  {
    config.Some? && config.value.hiddenUI.Some? && SESSION_SEARCH_FEATURE in config.value.hiddenUI.value
  }

  /** The mount guard is the configuration reader's `isUIHidden` test for the session search
      feature. */
  lemma MountGuardIsUIHidden(config: Option<UIConfig>)
    ensures SessionSearchDisabled(config) == IsUIHidden(Some(Window(config)), SESSION_SEARCH_FEATURE)
  {
  }

  /** `initSessionSearch` and everything it installs: the document observers waiting for
      the insertion point, the injected search box, the input value, and the observer on
      the scrollable session area. */
  class SearchMount {

    const filter: SessionFilter
    /** Document observers connected and not yet disconnected. */
    var documentObservers: nat
    /** The search container is in the document, with its input and clear handlers. */
    var injected: bool
    /** The session observer is connected to the scrollable session area. */
    var sessionObserver: bool
    /** `input.value`. */
    var inputValue: string
    /** Number of times the search box was injected. */
    ghost var injections: nat

    /** What holds in every state the page reaches: the box is injected at most once,
        before that there is no session observer and the input is empty, and the engine
        never touches the elements it does not own. */
    ghost predicate Wired()
      reads this, filter
    {
      && injections <= 1 && (injected <==> injections == 1)
      && (!injected ==> !sessionObserver && inputValue == "")
      && UntouchedVisible(filter.List())
    }

    /** `Wired`, and a blank input leaves nothing hidden. The re-run as written can break the
        second part (see `StaleDeferredRun`); the input and clear handlers restore it. */
    ghost predicate Valid()
      reads this, filter
    {
      Wired() && (AllSpace(inputValue) ==> NothingHidden(filter.List()))
    }

    /** The page before `initSessionSearch` runs, over the host's session list. */
    constructor (host: SessionList)
      requires NothingHidden(host)
      ensures Valid() && fresh(filter)
      ensures filter.State() == EngineState(host, false, [])
      ensures documentObservers == 0 && !injected && !sessionObserver && inputValue == ""
    {
      filter := new SessionFilter(host);
      documentObservers := 0;
      injected := false;
      sessionObserver := false;
      inputValue := "";
      injections := 0;
    }

    /** `initSessionSearch()`, given the configuration set on `window`: a no-op when the
        feature is hidden or the box is already in the document, otherwise one more document
        observer is connected. */
    method Init(config: Option<UIConfig>)
      requires Valid()
      modifies this
      ensures Valid()
      ensures documentObservers
              == if SessionSearchDisabled(config) || old(injected) then old(documentObservers)
                 else old(documentObservers) + 1
      ensures injected == old(injected) && sessionObserver == old(sessionObserver)
      ensures inputValue == old(inputValue) && injections == old(injections)
    {
      if SessionSearchDisabled(config) {
        return;
      }
      if injected {
        return;
      }
      documentObservers := documentObservers + 1;
    }

    /** A document observer fires. When the insertion point exists and the box is not yet in
        the document, the box is injected, its handlers are installed, the session observer
        is connected when the scrollable area exists, and this observer disconnects.
        Otherwise nothing changes and the observer stays connected. */
    method OnDocumentMutation(insertionPoint: bool, scrollableArea: bool)
      requires Valid() && documentObservers > 0
      modifies this
      ensures Valid()
      ensures if insertionPoint && !old(injected) then
                && injected && injections == 1
                && sessionObserver == scrollableArea
                && documentObservers == old(documentObservers) - 1
              else
                && injected == old(injected) && injections == old(injections)
                && sessionObserver == old(sessionObserver)
                && documentObservers == old(documentObservers)
      ensures inputValue == old(inputValue)
    {
      if !insertionPoint || injected {
        return;
      }
      injected := true;
      injections := injections + 1;
      sessionObserver := scrollableArea;
      documentObservers := documentObservers - 1;
    }

    /** The input handler: the value changes and the engine filters with it. */
    method OnInput(value: string)
      requires Wired() && injected
      modifies this, filter
      ensures Valid()
      ensures inputValue == value
      ensures filter.State() == FilterStep(old(filter.State()), value)
      ensures injected && sessionObserver == old(sessionObserver)
      ensures documentObservers == old(documentObservers) && injections == old(injections)
    {
      inputValue := value;
      ghost var before := filter.State();
      filter.FilterSessions(value);
      StepKeepsMountInvariant(before, value);
    }

    /** The clear button: the input is emptied and the engine resets synchronously, leaving
        the flag cleared and, through `Valid`, nothing hidden. */
    method OnClear()
      requires Wired() && injected
      modifies this, filter
      ensures Valid()
      ensures inputValue == "" && !filter.expandedBySearch
      ensures filter.State() == FilterStep(old(filter.State()), "")
      ensures injected && sessionObserver == old(sessionObserver)
      ensures documentObservers == old(documentObservers) && injections == old(injections)
    {
      filter.FilterSessions("");
      StepKeepsMountInvariant(old(filter.State()), "");
      inputValue := "";
    }

    /** The session observer fires: the engine filters with the input value, but only when
        that value is not the empty string. */
    method OnSessionMutation()
      requires Wired() && sessionObserver
      modifies filter
      ensures Wired()
      ensures old(Valid()) ==> Valid()
      ensures inputValue != "" ==> Valid()
      ensures filter.State()
              == if inputValue != "" then FilterStep(old(filter.State()), inputValue)
                 else old(filter.State())
    {
      if inputValue != "" {
        ghost var before := filter.State();
        StepKeepsMountInvariant(before, inputValue);
        filter.FilterSessions(inputValue);
        assert filter.List() == FilterStep(before, inputValue).list;
      }
    }

    /** The oldest scheduled re-run fires and filters with the input value as it is now,
        not with the query captured when it was scheduled. */
    method RunDeferredWithLiveInput()
      requires Wired() && filter.timers != []
      modifies filter
      ensures Valid()
      ensures filter.State()
              == FilterStep(old(filter.State()).(timers := old(filter.timers)[1..]), inputValue)
    {
      filter.timers := filter.timers[1..];
      ghost var popped := filter.State();
      StepKeepsMountInvariant(popped, inputValue);
      filter.FilterSessions(inputValue);
      assert filter.List() == FilterStep(popped, inputValue).list;
    }
  }

  /** The page over the button-less `list` with the search box mounted and `typed` entered:
      the groups are expanded, nothing is filtered yet and one re-run is pending. */
  method MountAndType(list: SessionList, typed: string) returns (page: SearchMount)
    requires NothingHidden(list) && list.buttons == [] && Normalize(typed) != ""
    ensures fresh(page) && fresh(page.filter)
    ensures page.Valid() && page.injected && page.inputValue == typed
    ensures page.filter.State() == EngineState(list, true, [typed])
  {
    page := new SearchMount(list);
    page.Init(None);
    page.OnDocumentMutation(true, true);
    ExpandWithoutButtons(EngineState(list, false, []), typed);
    page.OnInput(typed);
  }

  /** The same page after the box was cleared again before the 50 ms delay ran out: the
      list is as it was and the re-run scheduled by the first keystroke is still pending. */
  method TypeThenClear(list: SessionList, typed: string) returns (page: SearchMount)
    requires NothingHidden(list) && list.buttons == [] && Normalize(typed) != ""
    ensures fresh(page) && fresh(page.filter)
    ensures page.Valid() && page.injected && page.inputValue == ""
    ensures page.filter.State() == EngineState(list, false, [typed])
  {
    page := MountAndType(list, typed);
    BlankQueryResets(EngineState(list, true, [typed]), "");
    ClearKeepsShownList(list);
    page.OnClear();
  }

  /** On a page without expansion buttons, type a query that the first session does not
      match, clear the box before the 50 ms delay runs out, and let the timers run as
      scheduled: the first one, holding the captured query, finds the flag cleared and
      expands again, and the second one filters. The box is empty, yet the session stays
      hidden, so the page is `Wired` but not `Valid`. Clicking clear once more shows every
      session again. */
  method StaleDeferredRun(list: SessionList, typed: string)
    returns (input: string, sessionHidden: bool, shownAfterClear: bool)
    requires NothingHidden(list) && list.buttons == [] && |list.items| > 0
    requires Normalize(typed) != "" && !Contains(SessionTitle(list.items[0]), Normalize(typed))
    ensures input == "" && sessionHidden && shownAfterClear
  {
    var page := TypeThenClear(list, typed);
    StaleRerunHides(list, typed);
    page.filter.RunDeferred();
    page.filter.RunDeferred();
    input := page.inputValue;
    sessionHidden := page.filter.items[0].hidden;
    FilteringKeepsUntouchedVisible(list, Normalize(typed));
    assert page.Wired() && !page.Valid();
    page.OnClear();
    shownAfterClear := forall i | 0 <= i < |page.filter.items| :: !page.filter.items[i].hidden;
  }

  /** The same events with a re-run that reads the input when it fires: the box is empty
      and no session is hidden. */
  method LiveDeferredRun(list: SessionList, typed: string) returns (input: string, allShown: bool)
    requires NothingHidden(list) && list.buttons == [] && Normalize(typed) != ""
    ensures input == "" && allShown
  {
    var page := TypeThenClear(list, typed);
    page.RunDeferredWithLiveInput();
    input := page.inputValue;
    allShown := forall i | 0 <= i < |page.filter.items| :: !page.filter.items[i].hidden;
  }

}
