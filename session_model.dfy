/**
 * The session list as the search engine sees it, and what one call of
 * `filterSessions` does to it, as pure functions.
 *
 * The document is reduced to three flat sequences, in document order, like the
 * results of the engine's `querySelectorAll` calls:
 *   - items: the `div` children of every `.oc-group-body`, each with the text of its
 *     `.typography-ui-label` element when it has one;
 *   - groups: every `.oc-group`, with the body its `querySelector('.oc-group-body')`
 *     finds, if any;
 *   - buttons: the `button` children of every `.oc-group-body`.
 * Bodies are named by a `BodyId`; items and buttons carry the id of their parent body.
 * `hidden` stands for carrying the `oc-search-hidden` class, `clicks` counts the
 * engine's `click()` calls on a button.
 */
module SessionModel {

  import opened Wrappers
  import opened JsString

  type BodyId = nat

  datatype Item = Item(body: BodyId, title: Option<string>, hidden: bool)

  datatype Group = Group(body: Option<BodyId>, hidden: bool)

  datatype Button = Button(body: BodyId, text: string, hidden: bool, clicks: nat)

  datatype SessionList = SessionList(items: seq<Item>, groups: seq<Group>, buttons: seq<Button>)

  /** The engine's whole state: the list, the `expandedBySearch` flag and the queries of the
      deferred re-runs scheduled and not yet run, in the order they will fire. */
  datatype EngineState = EngineState(list: SessionList, expandedBySearch: bool, timers: seq<string>)

  const MORE_SESSION := "more session"
  const FEWER_SESSION := "fewer session"

  // ---------------------------------------------------------------------------
  // Titles and matching
  // ---------------------------------------------------------------------------

  /** `getSessionTitle`: the normalised label text, or "" when the item has no label. */
  function SessionTitle(item: Item): (t: string)
    ensures IsTrimmed(t)
    ensures item.title.None? ==> t == ""
    ensures item.title.Some? ==> IsTrimOf(t, ToLower(item.title.value))
  {
    match item.title
    case None => ""
    case Some(text) => NormalizeShape(text); TrimIsInfix(ToLower(text)); Normalize(text)
  }

  /** A title is already in normal form: normalising it again changes nothing, so titles
      and queries are compared in the same form. */
  lemma SessionTitleIsNormal(item: Item)
    ensures Normalize(SessionTitle(item)) == SessionTitle(item)
  {
    if item.title.Some? {
      NormalizeIdempotent(item.title.value);
    }
  }

  /** The item's title includes the normalised query `nq`. */
  predicate Matches(item: Item, nq: string)
  {
    Contains(SessionTitle(item), nq)
  }

  /** An item without a label matches no non-empty query. */
  lemma UntitledMatchesNothing(item: Item, nq: string)
    requires item.title.None? && nq != ""
    ensures !Matches(item, nq)
  {
    EmptyContainsOnlyEmpty(nq);
  }

  // ---------------------------------------------------------------------------
  // The three visibility passes and the expansion pass
  // ---------------------------------------------------------------------------

  /** An item is shown under the normalised query `nq` when `nq` is empty or its title
      includes `nq`. */
  predicate Shown(item: Item, nq: string)
  {
    nq == "" || Matches(item, nq)
  }

  /** The item pass: under the normalised query `nq`, an item is hidden exactly when it is
      not shown; nothing else about it changes. */
  function FilterItems(items: seq<Item>, nq: string): (r: seq<Item>)
    ensures |r| == |items|
    ensures forall i :: 0 <= i < |items| ==> r[i] == items[i].(hidden := !Shown(items[i], nq))
  {
    if items == [] then []
    else [items[0].(hidden := !Shown(items[0], nq))] + FilterItems(items[1..], nq)
  }

  /** Body `b` has a `div` child without the hidden class. */
  predicate HasVisibleItem(items: seq<Item>, b: BodyId)
  {
    exists i :: 0 <= i < |items| && items[i].body == b && !items[i].hidden
  }

  /** The indices below `k` of the items of body `b` without the hidden class: the elements
      that `body.querySelectorAll('& > div:not(.oc-search-hidden)')` selects, for `k` the
      number of items. */
  function VisibleItemIndices(items: seq<Item>, b: BodyId, k: nat): set<nat>
    requires k <= |items|
  {
    set i: nat | i < k && items[i].body == b && !items[i].hidden
  }

  /** No index is selected exactly when the body has no visible item. */
  lemma NoVisibleIndexIff(items: seq<Item>, b: BodyId)
    ensures |VisibleItemIndices(items, b, |items|)| == 0 <==> !HasVisibleItem(items, b)
  {
    if HasVisibleItem(items, b) {
      var j :| 0 <= j < |items| && items[j].body == b && !items[j].hidden;
      assert j in VisibleItemIndices(items, b, |items|);
    }
  }

  /** The group pass, run over the items as the item pass left them: a group with a body is
      hidden exactly when the query is non-empty and its body has no visible item; a group
      without a body keeps its state. */
  function FilterGroups(groups: seq<Group>, items: seq<Item>, nq: string): (r: seq<Group>)
    ensures |r| == |groups|
    ensures forall g :: 0 <= g < |groups| ==> r[g].body == groups[g].body
    ensures forall g :: 0 <= g < |groups| && groups[g].body.None? ==> r[g] == groups[g]
    ensures forall g :: 0 <= g < |groups| && groups[g].body.Some? ==>
      (r[g].hidden <==> nq != "" && !HasVisibleItem(items, groups[g].body.value))
  {
    if groups == [] then []
    else
      var group := groups[0];
      var group' := match group.body
        case None => group
        case Some(b) => group.(hidden := nq != "" && !HasVisibleItem(items, b));
      [group'] + FilterGroups(groups[1..], items, nq)
  }

  /** A "Show N more sessions" or "Show fewer sessions" button. */
  predicate IsExpansionControl(button: Button)
  {
    Contains(button.text, MORE_SESSION) || Contains(button.text, FEWER_SESSION)
  }

  /** The button pass: an expansion control is hidden exactly when the query is non-empty;
      any other button is left as it is. */
  function FilterButtons(buttons: seq<Button>, nq: string): (r: seq<Button>)
    ensures |r| == |buttons|
    ensures forall k :: 0 <= k < |buttons| ==>
      r[k] == if IsExpansionControl(buttons[k]) then buttons[k].(hidden := nq != "") else buttons[k]
  {
    if buttons == [] then []
    else
      var button := buttons[0];
      var button' := if IsExpansionControl(button) then button.(hidden := nq != "") else button;
      [button'] + FilterButtons(buttons[1..], nq)
  }

  /** `expandAllSessionGroups` on the buttons: every button whose text includes
      "more session" is clicked once, and nothing else about any button changes. */
  function ClickMoreButtons(buttons: seq<Button>): (r: seq<Button>)
    ensures |r| == |buttons|
    ensures forall k :: 0 <= k < |buttons| ==>
      r[k] == buttons[k].(clicks := buttons[k].clicks + if Contains(buttons[k].text, MORE_SESSION) then 1 else 0)
  {
    if buttons == [] then []
    else
      var button := buttons[0];
      var button' := if Contains(button.text, MORE_SESSION) then button.(clicks := button.clicks + 1) else button;
      [button'] + ClickMoreButtons(buttons[1..])
  }

  /** The filtering pass of `filterSessions` under normalised query `nq`: items, then groups
      against the new items, then buttons. */
  function Filtered(list: SessionList, nq: string): SessionList
  {
    var items := FilterItems(list.items, nq);
    SessionList(items, FilterGroups(list.groups, items, nq), FilterButtons(list.buttons, nq))
  }

  // ---------------------------------------------------------------------------
  // One call of filterSessions, and one deferred re-run
  // ---------------------------------------------------------------------------

  /** The call goes the expanding way: a non-empty query while the list is not yet
      expanded by search. */
  predicate Expands(s: EngineState, query: string)
  {
    Normalize(query) != "" && !s.expandedBySearch
  }

  /** `filterSessions(query)`. Expanding: click the "more session" buttons, set the flag,
      schedule a re-run with the same `query`, change no visibility. Otherwise: run the
      filtering pass, and the flag ends up telling whether the query is non-empty. */
  function FilterStep(s: EngineState, query: string): EngineState
  {
    var nq := Normalize(query);
    if Expands(s, query) then
      EngineState(s.list.(buttons := ClickMoreButtons(s.list.buttons)), true, s.timers + [query])
    else
      EngineState(Filtered(s.list, nq), nq != "", s.timers)
  }

  /** The oldest scheduled re-run fires: `filterSessions` with the query it captured. */
  function RunDeferred(s: EngineState): EngineState
    requires s.timers != []
  {
    FilterStep(s.(timers := s.timers[1..]), s.timers[0])
  }

  // ---------------------------------------------------------------------------
  // Visibility views
  // ---------------------------------------------------------------------------

  /** No element of the list carries the hidden class. */
  predicate NothingHidden(list: SessionList)
  {
    && (forall i :: 0 <= i < |list.items| ==> !list.items[i].hidden)
    && (forall g :: 0 <= g < |list.groups| ==> !list.groups[g].hidden)
    && (forall k :: 0 <= k < |list.buttons| ==> !list.buttons[k].hidden)
  }

  /** The elements the engine never touches are visible: groups without a body and buttons
      that are not expansion controls. */
  predicate UntouchedVisible(list: SessionList)
  {
    && (forall g :: 0 <= g < |list.groups| && list.groups[g].body.None? ==> !list.groups[g].hidden)
    && (forall k :: 0 <= k < |list.buttons| && !IsExpansionControl(list.buttons[k]) ==> !list.buttons[k].hidden)
  }

  /** The hidden bits of two lists agree: same shape, same items, same groups, and the
      buttons differ at most in their click counts. */
  predicate SameVisibility(a: SessionList, b: SessionList)
  {
    && a.items == b.items && a.groups == b.groups
    && |a.buttons| == |b.buttons|
    && forall k :: 0 <= k < |a.buttons| ==> a.buttons[k] == b.buttons[k].(clicks := a.buttons[k].clicks)
  }

  // ---------------------------------------------------------------------------
  // Properties of the filtering pass
  // ---------------------------------------------------------------------------

  /** Per item: after the pass under a non-empty `nq`, an item is hidden exactly when its
      normalised title does not include `nq`; an item without a label is hidden. */
  lemma ItemHiddenIffNoMatch(list: SessionList, nq: string, i: nat)
    requires nq != "" && i < |list.items|
    ensures Filtered(list, nq).items[i].hidden <==> !Contains(SessionTitle(list.items[i]), nq)
    ensures list.items[i].title.None? ==> Filtered(list, nq).items[i].hidden
  {
    if list.items[i].title.None? {
      UntitledMatchesNothing(list.items[i], nq);
    }
  }

  /** Per group: after the pass under a non-empty `nq`, a group with body `b` is hidden
      exactly when no item of `b` has a title that includes `nq`. */
  lemma GroupHiddenIffNoMatch(list: SessionList, nq: string, g: nat)
    requires nq != "" && g < |list.groups| && list.groups[g].body.Some?
    ensures var b := list.groups[g].body.value;
      Filtered(list, nq).groups[g].hidden
      <==> forall i :: 0 <= i < |list.items| && list.items[i].body == b ==> !Matches(list.items[i], nq)
  {
    var b := list.groups[g].body.value;
    var items := FilterItems(list.items, nq);
    assert Filtered(list, nq).groups[g].hidden <==> !HasVisibleItem(items, b);
    forall i | 0 <= i < |list.items|
      ensures (items[i].body == b && !items[i].hidden)
              <==> (list.items[i].body == b && Matches(list.items[i], nq))
    {
      assert items[i] == list.items[i].(hidden := !Shown(list.items[i], nq));
    }
  }

  /** The filtering pass is idempotent: running it twice with the same query leaves the same
      list as running it once. */
  lemma FilteringIdempotent(list: SessionList, nq: string)
    ensures Filtered(Filtered(list, nq), nq) == Filtered(list, nq)
  {
    var once := Filtered(list, nq);
    var twice := Filtered(once, nq);
    assert twice.items == once.items;
    assert twice.groups == once.groups;
    assert twice.buttons == once.buttons;
  }

  /** Filtering with a query after any earlier search leaves the list exactly as filtering
      with it right away would: no stale visibility survives a change of query, and
      clearing (`nq2 == ""`) undoes any search. */
  lemma LastQueryDecides(list: SessionList, nq1: string, nq2: string)
    ensures Filtered(Filtered(list, nq1), nq2) == Filtered(list, nq2)
  {
    var searched := Filtered(list, nq1);
    var a := Filtered(searched, nq2);
    var b := Filtered(list, nq2);
    assert a.items == b.items;
    assert a.groups == b.groups;
    assert a.buttons == b.buttons;
  }

  /** The pass never touches groups without a body nor buttons that are not expansion
      controls, so it keeps them visible. */
  lemma FilteringKeepsUntouchedVisible(list: SessionList, nq: string)
    requires UntouchedVisible(list)
    ensures UntouchedVisible(Filtered(list, nq))
  {
  }

  /** The pass under the empty query unhides every item, every group with a body and every
      expansion control; with the untouched elements visible, nothing is left hidden. */
  lemma ClearShowsEverything(list: SessionList)
    requires UntouchedVisible(list)
    ensures NothingHidden(Filtered(list, ""))
  {
  }

  /** Round trip: starting from a list with nothing hidden, searching and then clearing gives
      back the very same list. */
  lemma SearchThenClearRestores(list: SessionList, nq: string)
    requires NothingHidden(list)
    ensures Filtered(Filtered(list, nq), "") == list
  {
    LastQueryDecides(list, nq, "");
    var cleared := Filtered(list, "");
    assert cleared.items == list.items;
    assert cleared.groups == list.groups;
    assert cleared.buttons == list.buttons;
  }

  // ---------------------------------------------------------------------------
  // Properties of one filterSessions call
  // ---------------------------------------------------------------------------

  /** The expanding call changes no hidden bit on any item, group or button, clicks exactly
      the buttons whose text includes "more session", sets the flag even when no button
      matched, and schedules one re-run with the query string as given. */
  lemma ExpandingChangesNoVisibility(s: EngineState, query: string)
    requires Expands(s, query)
    ensures var r := FilterStep(s, query);
      && SameVisibility(r.list, s.list)
      && (forall k :: 0 <= k < |s.list.buttons| ==>
            r.list.buttons[k].clicks
            == s.list.buttons[k].clicks + if Contains(s.list.buttons[k].text, MORE_SESSION) then 1 else 0)
      && r.expandedBySearch
      && r.timers == s.timers + [query]
  {
  }

  /** A non-empty query that does not expand runs the filtering pass and leaves the flag set
      and the scheduled re-runs alone. */
  lemma FilteringKeepsFlag(s: EngineState, query: string)
    requires Normalize(query) != "" && !Expands(s, query)
    ensures FilterStep(s, query) == s.(list := Filtered(s.list, Normalize(query)))
  {
  }

  /** A query that is empty once normalised (white space only) resets: the flag is cleared
      and the filtering pass runs with the empty query. */
  lemma BlankQueryResets(s: EngineState, query: string)
    requires AllSpace(query)
    ensures FilterStep(s, query) == EngineState(Filtered(s.list, ""), false, s.timers)
  {
    NormalizeEmptyIff(query);
  }

  /** Only a blank query resets: any other query either expands or filters with the flag
      set. */
  lemma NonBlankQueryKeepsFlag(s: EngineState, query: string)
    requires !AllSpace(query)
    ensures FilterStep(s, query).expandedBySearch
  {
    NormalizeEmptyIff(query);
  }

  /** Idempotence: once the call does not expand, calling again with the same query and an
      unchanged list leaves the same state. */
  lemma FilterStepIdempotent(s: EngineState, query: string)
    requires !Expands(s, query)
    ensures FilterStep(FilterStep(s, query), query) == FilterStep(s, query)
  {
    FilteringIdempotent(s.list, Normalize(query));
  }

  /** Expanding, then the deferred re-run with the same query: the list is filtered as it
      stands after the clicks, and nothing is left scheduled. */
  lemma ExpandThenDeferredFilters(s: EngineState, query: string)
    requires Expands(s, query) && s.timers == []
    ensures var expanded := FilterStep(s, query);
      && expanded.timers == [query]
      && RunDeferred(expanded)
         == EngineState(Filtered(expanded.list, Normalize(query)), true, [])
  {
  }

  /** No call touches groups without a body nor buttons that are not expansion controls, so
      every call keeps them visible. */
  lemma StepKeepsUntouchedVisible(s: EngineState, query: string)
    requires UntouchedVisible(s.list)
    ensures UntouchedVisible(FilterStep(s, query).list)
  {
    if !Expands(s, query) {
      FilteringKeepsUntouchedVisible(s.list, Normalize(query));
    }
  }

  /** A call with a blank query leaves nothing hidden, provided the untouched elements were
      visible. */
  lemma BlankStepShowsEverything(s: EngineState, query: string)
    requires UntouchedVisible(s.list) && Normalize(query) == ""
    ensures NothingHidden(FilterStep(s, query).list)
  {
    ClearShowsEverything(s.list);
  }

  /** Filtering a list that has nothing hidden under the empty query changes nothing. */
  lemma ClearKeepsShownList(list: SessionList)
    requires NothingHidden(list)
    ensures Filtered(list, "") == list
  {
    var cleared := Filtered(list, "");
    assert cleared.items == list.items;
    assert cleared.groups == list.groups;
    assert cleared.buttons == list.buttons;
  }

  /** The expanding way on a list without buttons only sets the flag and schedules. */
  lemma ExpandWithoutButtons(s: EngineState, query: string)
    requires Expands(s, query) && s.list.buttons == []
    ensures FilterStep(s, query) == EngineState(s.list, true, s.timers + [query])
  {
    assert ClickMoreButtons([]) == [];
    assert s.list.(buttons := []) == s.list;
  }

  /** Type `typed` into a button-less `list` with nothing hidden and clear before the delay
      runs out: the list is as it was, the flag is down, and the re-run scheduled by the
      first call is still pending. */
  lemma {:induction false} TypeThenClearLeavesRerun(list: SessionList, typed: string)
    requires NothingHidden(list) && list.buttons == [] && Normalize(typed) != ""
    ensures FilterStep(FilterStep(EngineState(list, false, []), typed), "")
            == EngineState(list, false, [typed])
  {
    var s0 := EngineState(list, false, []);
    ExpandWithoutButtons(s0, typed);
    var s1 := FilterStep(s0, typed);
    BlankQueryResets(s1, "");
    ClearKeepsShownList(list);
  }

  /** A re-run with a captured non-empty query that finds the flag down expands again:
      the "more session" buttons are clicked once more and one more re-run with the same
      query is scheduled. */
  lemma RerunExpandsAgain(s: EngineState)
    requires s.timers != []
    requires Normalize(s.timers[0]) != "" && !s.expandedBySearch
    ensures RunDeferred(s)
            == EngineState(s.list.(buttons := ClickMoreButtons(s.list.buttons)), true,
                           s.timers[1..] + [s.timers[0]])
  {
  }

  /** A re-run with a captured non-empty query that finds the flag up filters with that
      query. */
  lemma RerunFilters(s: EngineState)
    requires s.timers != [] && Normalize(s.timers[0]) != "" && s.expandedBySearch
    ensures RunDeferred(s) == EngineState(Filtered(s.list, Normalize(s.timers[0])), true, s.timers[1..])
  {
    FilteringKeepsFlag(s.(timers := s.timers[1..]), s.timers[0]);
  }

  /** After `typed`, which session 0 of a button-less `list` does not match, was typed and
      cleared before the delay ran out (see `TypeThenClearLeavesRerun`), the scheduled
      re-runs fire with their captured query: the first finds the flag cleared and expands
      again, the second filters, and session 0 ends up hidden although the last query
      typed was empty. */
  lemma {:induction false} StaleRerunHides(list: SessionList, typed: string)
    requires NothingHidden(list) && list.buttons == [] && |list.items| > 0
    requires Normalize(typed) != "" && !Contains(SessionTitle(list.items[0]), Normalize(typed))
    ensures var afterClear := EngineState(list, false, [typed]);
      && RunDeferred(afterClear) == EngineState(list, true, [typed])
      && RunDeferred(RunDeferred(afterClear)) == EngineState(Filtered(list, Normalize(typed)), true, [])
      && Filtered(list, Normalize(typed)).items[0].hidden
  {
    var afterClear := EngineState(list, false, [typed]);
    RerunExpandsAgain(afterClear);
    assert ClickMoreButtons([]) == [] && list.(buttons := []) == list;
    assert [typed][1..] + [typed] == [typed];
    var expanded := EngineState(list, true, [typed]);
    RerunFilters(expanded);
    assert [typed][1..] == [];
    ItemHiddenIffNoMatch(list, Normalize(typed), 0);
  }

  /** What the mount keeps across any call of `filterSessions`: the untouched elements stay
      visible, and a blank query leaves nothing hidden. */
  lemma StepKeepsMountInvariant(s: EngineState, query: string)
    requires UntouchedVisible(s.list)
    ensures UntouchedVisible(FilterStep(s, query).list)
    ensures AllSpace(query) ==> NothingHidden(FilterStep(s, query).list)
  {
    StepKeepsUntouchedVisible(s, query);
    NormalizeEmptyIff(query);
    if Normalize(query) == "" {
      BlankStepShowsEverything(s, query);
    }
  }

}
