/**
 * The `FilteredSelect` custom element: a widget object over a native select,
 * whose handlers update its fields, the select's value and the select's
 * change-event log in place.
 */
module Element {
  import opened Optional
  import opened Text
  import opened Backing
  import opened Options
  import opened Filter
  import opened Render

  /** The target of a click inside the results: its `data-value`, if it has one, and its text. */
  datatype ClickTarget = ClickTarget(value: Option<string>, text: string)

  /** The active group: the first box holding the offset, else the first box, else the empty string. */
  function GroupName(boxes: seq<GroupBox>, scroll: int): string
  {
    match FirstWithin(boxes, scroll)
    case Some(i) => boxes[i].title
    case None => if boxes == [] then "" else boxes[0].title
  }

  /** The active group is always one of the rendered titles, and empty when nothing is rendered. */
  lemma GroupNameIsShownTitle(boxes: seq<GroupBox>, scroll: int)
    ensures boxes == [] ==> GroupName(boxes, scroll) == ""
    ensures boxes != [] ==> exists i :: 0 <= i < |boxes| && GroupName(boxes, scroll) == boxes[i].title
  {
    if boxes != [] {
      match FirstWithin(boxes, scroll)
      case Some(i) => assert GroupName(boxes, scroll) == boxes[i].title;
      case None => assert GroupName(boxes, scroll) == boxes[0].title;
    }
  }

  /** The scan of `findGroupName` over the result containers. */
  method FindGroupName(boxes: seq<GroupBox>, scroll: int) returns (name: string)
    ensures name == GroupName(boxes, scroll)
    ensures forall i :: (0 <= i < |boxes| && Within(boxes[i], scroll) &&
                         forall j :: 0 <= j < i ==> !Within(boxes[j], scroll)) ==> name == boxes[i].title
    ensures (forall i :: 0 <= i < |boxes| ==> !Within(boxes[i], scroll)) ==>
              name == if boxes == [] then "" else boxes[0].title
  {
    for i := 0 to |boxes|
      invariant forall j :: 0 <= j < i ==> !Within(boxes[j], scroll)
    {
      if scroll >= boxes[i].offsetTop && scroll <= boxes[i].offsetTop + boxes[i].height {
        return boxes[i].title;
      }
    }
    name := if |boxes| > 0 then boxes[0].title else "";
  }

  /** The inner loop of `filterOptions`: the items whose lower-cased text `includes` the term. */
  method FilterList(items: seq<Item>, term: string) returns (matching: seq<Item>)
    ensures matching == FilterItems(items, term)
  {
    matching := [];
    for i := 0 to |items|
      invariant matching == FilterItems(items[..i], term)
    {
      assert items[..i + 1][..i] == items[..i];
      if term == "" || Contains(Lower(items[i].text), term) {
        matching := matching + [items[i]];
      }
    }
    assert items[..|items|] == items;
  }

  /** `filterOptions` in group mode: each group filtered, the empty ones dropped. */
  method FilterGroupList(groups: seq<Group>, term: string) returns (filtered: seq<Group>)
    ensures filtered == FilterGroups(groups, term)
  {
    filtered := [];
    for i := 0 to |groups|
      invariant filtered == FilterGroups(groups[..i], term)
    {
      assert groups[..i + 1][..i] == groups[..i];
      var groupMatching := FilterList(groups[i].options, term);
      if |groupMatching| > 0 {
        filtered := filtered + [Group(groups[i].name, groupMatching)];
      }
    }
    assert groups[..|groups|] == groups;
  }

  /** The filtered snapshot, always computed from the full one. */
  method FilterSnapshot(options: Snapshot, term: string) returns (filtered: Snapshot)
    ensures filtered == Apply(options, term)
  {
    match options
    case Grouped(groups) =>
      var gs := FilterGroupList(groups, term);
      filtered := Grouped(gs);
    case Flat(items) =>
      var xs := FilterList(items, term);
      filtered := Flat(xs);
  }

  /**
   * The body of `buildResults`: refresh the cached selection from the select,
   * render, track the display text, look up the group label in group mode and
   * move the scroll offset to the first highlighted button.
   */
  method Rebuild(shown: Snapshot, geo: Layout, selected: Option<string>, display: string, prevTitle: string,
                 hasGroups: bool, selectOptions: seq<OptionElement>, selectedIndex: int)
    returns (sel: Option<string>, view: View, text: string, scroll: int, title: string)
    requires selectedIndex < |selectOptions|
    ensures sel == Refresh(selected, selectOptions, selectedIndex)
    ensures view == RenderView(shown, sel)
    ensures text == DisplayAfter(display, view)
    ensures scroll == ScrollAfter(view, geo)
    ensures title == if hasGroups then GroupName(Boxes(view, geo), geo.scrollAfterRebuild) else prevTitle
  {
    sel := selected;
    if selectedIndex >= 0 {
      sel := Some(selectOptions[selectedIndex].value);
    }
    var lastText;
    view, lastText := RenderResults(shown, sel);
    text := display;
    if lastText.Some? {
      text := lastText.value;
    }
    title := prevTitle;
    scroll := geo.scrollAfterRebuild;
    if hasGroups {
      title := FindGroupName(Boxes(view, geo), scroll);
    }
    match FirstHighlighted(ViewItems(view)) {
      case Some(k) => scroll := Backoff(geo, k);
      case None =>
    }
  }

  class FilteredSelect {
    /** The slotted select; it is assumed present. */
    const select: SelectElement
    var hasGroups: bool
    var isOpen: bool
    var options: Snapshot
    /** The cached selected value; `None` plays the part of `null`. */
    var selected: Option<string>
    /** The display button's text. */
    var display: string
    var searchValue: string
    /** Whether the dropdown container has `display: block`. */
    var dropdownShown: bool
    var results: View
    var scrollTop: int
    var groupLabelShown: bool
    var groupLabelText: string

    /** The options and the rendered results have the shape group mode says. */
    ghost predicate Valid()
      reads this, select
    {
      select.Valid() && options.Grouped? == hasGroups && results.GroupedView? == hasGroups
    }

    /**
     * The state `buildResults(shown)` leaves: the refreshed selection, the
     * rendered view, the display text, the scroll offset and the group label,
     * given the values of `selected`, the display and the label before it.
     */
    ghost predicate Built(shown: Snapshot, geo: Layout, prevSelected: Option<string>, prevDisplay: string, prevLabel: string)
      reads this, select
    {
      select.Valid() &&
      selected == Refresh(prevSelected, AllOptions(select.children), select.selectedIndex) &&
      results == RenderView(shown, selected) &&
      display == DisplayAfter(prevDisplay, results) &&
      scrollTop == ScrollAfter(results, geo) &&
      groupLabelShown == hasGroups &&
      groupLabelText == (if hasGroups then GroupName(Boxes(results, geo), geo.scrollAfterRebuild) else prevLabel)
    }

    /** The mode and the snapshot are the ones the select's current children give. */
    ghost predicate Loaded()
      reads this, select
    {
      hasGroups == HasOptGroups(select.children) && options == Load(select.children, hasGroups)
    }

    /** `initializeSelect` on a present select: group test, load, initial display text. */
    constructor (select: SelectElement)
      requires select.Valid()
      ensures Valid()
      ensures this.select == select && Loaded()
      ensures display == if select.selectedIndex >= 0 then AllOptions(select.children)[select.selectedIndex].text else ""
      ensures !isOpen && !dropdownShown && selected == None && searchValue == ""
      ensures ViewItems(results) == [] && !groupLabelShown
    {
      this.select := select;
      isOpen, selected, display, searchValue, dropdownShown := false, None, "", "", false;
      scrollTop, groupLabelShown, groupLabelText := 0, false, "";
      options, results := Flat([]), FlatView([]);
      new;
      DetectAndLoad();
      var text := "";
      if select.selectedIndex >= 0 {
        text := AllOptions(select.children)[select.selectedIndex].text;
      }
      display, results := text, if hasGroups then GroupedView([]) else FlatView([]);
    }

    /** Group mode is on exactly when the select has an OPTGROUP, even an empty one. */
    method CheckForGroups()
      requires select.Valid()
      modifies this`hasGroups
      ensures hasGroups == HasOptGroups(select.children)
    {
      hasGroups := |OptGroups(select.children)| > 0;
    }

    /** Reloads the snapshot from scratch in the current mode. */
    method LoadOptionsData()
      requires select.Valid()
      modifies this`options
      ensures options == Load(select.children, hasGroups)
    {
      if hasGroups {
        var groups := LoadGroupedOptions(OptGroups(select.children));
        options := Grouped(groups);
      } else {
        var items := LoadFlatOptions(AllOptions(select.children));
        assert items == ToItems(AllOptions(select.children));
        options := Flat(items);
      }
    }

    /** Re-renders `shown`; the results' new shape is fixed by group mode. */
    method BuildResults(shown: Snapshot, geo: Layout)
      requires select.Valid() && options.Grouped? == hasGroups && shown.Grouped? == hasGroups
      modifies this
      ensures Valid()
      ensures Built(shown, geo, old(selected), old(display), old(groupLabelText))
      ensures hasGroups == old(hasGroups) && options == old(options) && isOpen == old(isOpen)
      ensures searchValue == old(searchValue) && dropdownShown == old(dropdownShown)
    {
      var sel, view, text, scroll, title :=
        Rebuild(shown, geo, selected, display, groupLabelText, hasGroups, AllOptions(select.children), select.selectedIndex);
      selected, results, display, scrollTop, groupLabelShown, groupLabelText := sel, view, text, scroll, hasGroups, title;
    }

    /** Filters the full snapshot by the lower-cased search text and renders the result. */
    method FilterOptions(geo: Layout)
      requires Valid()
      modifies this
      ensures Valid()
      ensures Built(Apply(options, Lower(searchValue)), geo, old(selected), old(display), old(groupLabelText))
      ensures hasGroups == old(hasGroups) && options == old(options) && isOpen == old(isOpen)
      ensures searchValue == old(searchValue) && dropdownShown == old(dropdownShown)
    {
      var term := Lower(searchValue);
      var filtered := FilterSnapshot(options, term);
      BuildResults(filtered, geo);
    }

    /** A keyup in the search box that leaves `typed` in it. */
    method HandleSearchChange(typed: string, geo: Layout)
      requires Valid()
      modifies this
      ensures Valid() && searchValue == typed
      ensures Built(Apply(options, Lower(typed)), geo, old(selected), old(display), old(groupLabelText))
      ensures hasGroups == old(hasGroups) && options == old(options) && isOpen == old(isOpen)
      ensures dropdownShown == old(dropdownShown)
    {
      searchValue := typed;
      FilterOptions(geo);
    }

    /** A click on the display or on the chevron: show, clear the search, render everything, open. */
    method ActivateDropdown(geo: Layout)
      requires Valid()
      modifies this
      ensures Valid()
      ensures dropdownShown && isOpen && searchValue == ""
      ensures Built(options, geo, old(selected), old(display), old(groupLabelText))
      ensures hasGroups == old(hasGroups) && options == old(options)
    {
      dropdownShown := true;
      searchValue := "";
      BuildResults(options, geo);
      isOpen := true;
    }

    /** Hides the dropdown and clears `isOpen`; also what the close button does. */
    method CloseDropdown()
      modifies this`dropdownShown, this`isOpen
      ensures !dropdownShown && !isOpen
    {
      dropdownShown := false;
      isOpen := false;
    }

    /** A click anywhere in the document closes the dropdown only when it is open. */
    method HandleBackgroundClick()
      modifies this`dropdownShown, this`isOpen
      ensures old(isOpen) ==> !dropdownShown && !isOpen
      ensures !old(isOpen) ==> dropdownShown == old(dropdownShown) && !isOpen
    {
      if isOpen {
        CloseDropdown();
      }
    }

    /** An Escape keyup anywhere closes the dropdown, whether or not it is open. */
    method HandleKeyup(key: string)
      modifies this`dropdownShown, this`isOpen
      ensures key == "Escape" ==> !dropdownShown && !isOpen
      ensures key != "Escape" ==> dropdownShown == old(dropdownShown) && isOpen == old(isOpen)
    {
      if key == "Escape" {
        CloseDropdown();
      }
    }

    /** Dispatches one non-bubbling, cancelable `change` event on the select, seen with the current state. */
    method DispatchChangeEvent()
      requires select.Valid()
      modifies select`events
      ensures select.events == old(select.events) + [ChangeEvent("change", false, true, isOpen, select.selectedIndex)]
    {
      select.DispatchChange(isOpen);
    }

    /**
     * A click in the results: on an option button it sets the select's value,
     * shows the button's text, closes and fires one change event; on anything
     * without a `data-value` it does nothing.
     */
    method HandleResultClick(target: ClickTarget)
      requires Valid()
      modifies this`display, this`dropdownShown, this`isOpen, select`selectedIndex, select`events
      ensures Valid()
      ensures target.value.Some? ==>
                select.selectedIndex == IndexOfValue(AllOptions(select.children), target.value.value) &&
                display == target.text && !isOpen && !dropdownShown &&
                select.events == old(select.events) +
                                 [ChangeEvent("change", false, true, false, IndexOfValue(AllOptions(select.children), target.value.value))]
      ensures target.value.None? ==>
                select.selectedIndex == old(select.selectedIndex) && display == old(display) &&
                isOpen == old(isOpen) && dropdownShown == old(dropdownShown) && select.events == old(select.events)
    {
      if target.value.Some? {
        select.SetValue(target.value.value);
        display := target.text;
        CloseDropdown();
        DispatchChangeEvent();
      }
    }

    /**
     * A scroll of the results to offset `scroll` (the browser's part, recorded
     * here) refreshes the group label in group mode.
     */
    method HandleResultScroll(scroll: int, geo: Layout)
      modifies this`scrollTop, this`groupLabelText
      ensures scrollTop == scroll
      ensures groupLabelText == if hasGroups then GroupName(Boxes(results, geo), scroll) else old(groupLabelText)
    {
      scrollTop := scroll;
      if hasGroups {
        groupLabelText := FindGroupName(Boxes(results, geo), scrollTop);
      }
    }

    /** The public `reload`: clear the display, re-detect the mode, reload from scratch, render everything. */
    method Reload(geo: Layout)
      requires Valid()
      modifies this
      ensures Valid()
      ensures Loaded()
      ensures Built(options, geo, old(selected), "", old(groupLabelText))
      ensures isOpen == old(isOpen) && dropdownShown == old(dropdownShown) && searchValue == old(searchValue)
    {
      ReloadData();
      BuildResults(options, geo);
    }

    /** The first steps of `reload`: clear the display, then the group test and a load from scratch. */
    method ReloadData()
      requires select.Valid()
      modifies this`display, this`hasGroups, this`options
      ensures Loaded() && display == ""
    {
      display := "";
      DetectAndLoad();
    }

    /** The group test followed by a load from scratch, as initialisation and `reload` both run them. */
    method DetectAndLoad()
      requires select.Valid()
      modifies this`hasGroups, this`options
      ensures Loaded()
    {
      CheckForGroups();
      LoadOptionsData();
    }
  }

  /**
   * The page rewrites the select's options and then calls `reload`: the widget
   * follows the new content, in the mode the new content calls for.
   */
  method ReplaceThenReload(w: FilteredSelect, newChildren: seq<Child>, newSelectedIndex: int, geo: Layout)
    requires w.Valid() && -1 <= newSelectedIndex < |AllOptions(newChildren)|
    modifies w, w.select
    ensures w.Valid() && w.select.children == newChildren
    ensures w.hasGroups == HasOptGroups(newChildren) && w.options == Load(newChildren, w.hasGroups)
    ensures w.selected == Refresh(old(w.selected), AllOptions(newChildren), newSelectedIndex)
    ensures w.display == DisplayAfter("", w.results)
  {
    w.select.Replace(newChildren, newSelectedIndex);
    w.Reload(geo);
  }

  /**
   * Two reloads of an unchanged select load the same snapshot and leave the same
   * selection, rendered results and display text: `first`, `shown` and `text`
   * are what the first reload left.
   */
  method ReloadTwice(w: FilteredSelect, geo: Layout)
    returns (first: Snapshot, sel: Option<string>, shown: View, text: string)
    requires w.Valid()
    modifies w
    ensures w.options == first && w.selected == sel && w.results == shown && w.display == text
  {
    w.Reload(geo);
    first, sel, shown, text := w.options, w.selected, w.results, w.display;
    w.Reload(geo);
  }
}
