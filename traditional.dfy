/**
 * The traditional `_filtered_select(container)` widget: a closure whose
 * handlers update captured variables, the select's value and its change-event
 * log. Group mode additionally caches the OPTGROUP list found by the group test.
 *
 * Its `find_group_name` reads the first group container when no container
 * holds the scroll offset, and so throws a TypeError when there are none; a
 * handler that reaches that point stops there. The model returns `ok := false`
 * for that outcome and leaves undone whatever the source would not reach.
 */
module Traditional {
  import opened Optional
  import opened Text
  import opened Backing
  import opened Options
  import opened Filter
  import opened Render
  import Element

  /** The active group, or `None` where the source throws: no group container at all. */
  function GroupName(boxes: seq<GroupBox>, scroll: int): Option<string>
  {
    match FirstWithin(boxes, scroll)
    case Some(i) => Some(boxes[i].title)
    case None => if boxes == [] then None else Some(boxes[0].title)
  }

  /** The two implementations agree on the active group whenever a group is rendered. */
  lemma GroupNameAgreesWithElement(boxes: seq<GroupBox>, scroll: int)
    ensures GroupName(boxes, scroll).None? <==> boxes == []
    ensures boxes != [] ==> GroupName(boxes, scroll) == Some(Element.GroupName(boxes, scroll))
    ensures boxes == [] ==> Element.GroupName(boxes, scroll) == ""
  {
  }

  /** The scan of `find_group_name`; `None` stands for the TypeError on an empty container list. */
  method FindGroupName(boxes: seq<GroupBox>, scroll: int) returns (name: Option<string>)
    ensures name == GroupName(boxes, scroll)
    ensures forall i :: (0 <= i < |boxes| && Within(boxes[i], scroll) &&
                         forall j :: 0 <= j < i ==> !Within(boxes[j], scroll)) ==> name == Some(boxes[i].title)
    ensures (forall i :: 0 <= i < |boxes| ==> !Within(boxes[i], scroll)) && boxes != [] ==> name == Some(boxes[0].title)
    ensures boxes == [] <==> name.None?
  {
    for i := 0 to |boxes|
      invariant forall j :: 0 <= j < i ==> !Within(boxes[j], scroll)
    {
      if scroll >= boxes[i].offsetTop && scroll <= boxes[i].offsetTop + boxes[i].height {
        return Some(boxes[i].title);
      }
    }
    if |boxes| == 0 {
      return None;
    }
    name := Some(boxes[0].title);
  }

  /** The flat loop of `search_changed`: the items whose lower-cased text has an `indexOf` the term. */
  method SearchItems(items: seq<Item>, term: string) returns (matching: seq<Item>)
    ensures matching == FilterItems(items, term)
  {
    matching := [];
    for i := 0 to |items|
      invariant matching == FilterItems(items[..i], term)
    {
      assert items[..i + 1][..i] == items[..i];
      IndexOfFoundIffContains(Lower(items[i].text), term);
      if term == "" || IndexOf(Lower(items[i].text), term) != -1 {
        matching := matching + [items[i]];
      }
    }
    assert items[..|items|] == items;
  }

  /** The group loop of `search_changed`: each group's matches, kept when there is at least one. */
  method SearchGroups(groups: seq<Group>, term: string) returns (filtered: seq<Group>)
    ensures filtered == FilterGroups(groups, term)
  {
    filtered := [];
    for i := 0 to |groups|
      invariant filtered == FilterGroups(groups[..i], term)
    {
      assert groups[..i + 1][..i] == groups[..i];
      var groupMatching := SearchItems(groups[i].options, term);
      if |groupMatching| > 0 {
        filtered := filtered + [Group(groups[i].name, groupMatching)];
      }
    }
    assert groups[..|groups|] == groups;
  }

  /** What `search_changed` hands to `build_results`: the full snapshot filtered by the term. */
  method Search(options: Snapshot, term: string) returns (filtered: Snapshot)
    ensures filtered == Apply(options, term)
  {
    match options
    case Grouped(groups) =>
      var gs := SearchGroups(groups, term);
      filtered := Grouped(gs);
    case Flat(items) =>
      var xs := SearchItems(items, term);
      filtered := Flat(xs);
  }

  /** `build_results(shown)` runs to its end unless group mode is handed no group at all. */
  predicate BuildSucceeds(shown: Snapshot)
  {
    shown.Flat? || shown.groups != []
  }

  /** A freshly loaded snapshot renders without error unless every OPTGROUP of a grouped select is empty. */
  lemma LoadedBuildSucceeds(children: seq<Child>, hasGroups: bool)
    ensures BuildSucceeds(Load(children, hasGroups)) <==>
            !hasGroups || exists j :: 0 <= j < |OptGroups(children)| && OptGroups(children)[j].options != []
  {
    var gs := OptGroups(children);
    if hasGroups {
      if exists j :: 0 <= j < |gs| && gs[j].options != [] {
        var j :| 0 <= j < |gs| && gs[j].options != [];
        LoadGroupsComplete(gs, j);
      }
      if LoadGroups(gs) != [] {
        LoadGroupsSound(gs, LoadGroups(gs)[0]);
        var j :| 0 <= j < |gs| && gs[j].options != [] && LoadGroups(gs)[0] == ToGroup(gs[j]);
        assert 0 <= j < |OptGroups(children)| && OptGroups(children)[j].options != [];
      }
    }
  }

  /**
   * The body of `build_results`: refresh the cached selection, render, track
   * the display text, show the group label and look up its text in group mode
   * (stopping there on the TypeError), then move the scroll offset to the first
   * highlighted button. In flat mode the label is hidden once per button, so
   * only when there is one.
   */
  method Rebuild(shown: Snapshot, geo: Layout, selected: Option<string>, display: string,
                 prevShown: bool, prevTitle: string, hasGroups: bool, selectOptions: seq<OptionElement>, selectedIndex: int)
    returns (sel: Option<string>, view: View, text: string, scroll: int, labelShown: bool, title: string, ok: bool)
    requires selectedIndex < |selectOptions| && shown.Grouped? == hasGroups
    ensures sel == Refresh(selected, selectOptions, selectedIndex)
    ensures view == RenderView(shown, sel)
    ensures text == DisplayAfter(display, view)
    ensures scroll == ScrollAfter(view, geo)
    ensures labelShown == if hasGroups then true else if ViewItems(view) == [] then prevShown else false
    ensures title == if hasGroups && GroupName(Boxes(view, geo), geo.scrollAfterRebuild).Some?
                     then GroupName(Boxes(view, geo), geo.scrollAfterRebuild).value else prevTitle
    ensures ok == BuildSucceeds(shown)
  {
    sel := selected;
    if selectedIndex >= 0 {
      sel := Some(selectOptions[selectedIndex].value);
    }
    var lastText;
    view, lastText := RenderResults(shown, sel);
    text := display;
    if lastText.Some? {
      text := lastText.value;
    }
    labelShown := if hasGroups then true else if ViewItems(view) == [] then prevShown else false;
    title, scroll, ok := prevTitle, geo.scrollAfterRebuild, true;
    if hasGroups {
      var name := FindGroupName(Boxes(view, geo), scroll);
      if name.None? {
        ok := false;
        return;
      }
      title := name.value;
    }
    match FirstHighlighted(ViewItems(view)) {
      case Some(k) => scroll := Backoff(geo, k);
      case None =>
    }
  }

  class Widget {
    /** The container's select; it is assumed present. */
    const select: SelectElement
    var hasGroups: bool
    /** The closure's `opened`. */
    var isOpen: bool
    var options: Snapshot
    /** The cached selected value; `None` plays the part of `null`. */
    var selected: Option<string>
    /** `els_optgroups`, as the last group test found it. */
    var optgroups: seq<OptGroupElement>
    var display: string
    var searchValue: string
    /** Whether the dropdown has `display: block`. */
    var dropdownShown: bool
    var results: View
    var scrollTop: int
    var groupLabelShown: bool
    var groupLabelText: string

    /** The options and the rendered results have the shape group mode says. */
    ghost predicate Valid()
      reads this, select
    {
      select.Valid() && options.Grouped? == hasGroups && results.GroupedView? == hasGroups
    }

    /**
     * The state `build_results(shown)` leaves, given the selection, the display
     * text and the group label before it. When the group lookup throws, the
     * label keeps its old text.
     */
    ghost predicate Built(shown: Snapshot, geo: Layout, prevSelected: Option<string>, prevDisplay: string,
                          prevLabelShown: bool, prevLabel: string)
      reads this, select
    {
      select.Valid() &&
      selected == Refresh(prevSelected, AllOptions(select.children), select.selectedIndex) &&
      results == RenderView(shown, selected) &&
      display == DisplayAfter(prevDisplay, results) &&
      scrollTop == ScrollAfter(results, geo) &&
      groupLabelShown == (if hasGroups then true else if ViewItems(results) == [] then prevLabelShown else false) &&
      groupLabelText == (if hasGroups && GroupName(Boxes(results, geo), geo.scrollAfterRebuild).Some?
                         then GroupName(Boxes(results, geo), geo.scrollAfterRebuild).value else prevLabel)
    }

    /** The mode, the cached optgroups and the snapshot are the ones the select's current children give. */
    ghost predicate Loaded()
      reads this, select
    {
      hasGroups == HasOptGroups(select.children) && optgroups == OptGroups(select.children) &&
      options == Load(select.children, hasGroups)
    }

    /** The set-up of `_filtered_select`: initial display text, group test, load. */
    constructor (select: SelectElement)
      requires select.Valid()
      ensures Valid()
      ensures this.select == select && Loaded()
      ensures display == if select.selectedIndex >= 0 then AllOptions(select.children)[select.selectedIndex].text else ""
      ensures !isOpen && !dropdownShown && selected == None && searchValue == ""
      ensures ViewItems(results) == [] && !groupLabelShown
    {
      this.select := select;
      isOpen, selected, display, searchValue, dropdownShown := false, None, "", "", false;
      scrollTop, groupLabelShown, groupLabelText := 0, false, "";
      hasGroups, optgroups, options, results := false, [], Flat([]), FlatView([]);
      new;
      DetectAndLoad();
      var text := "";
      if select.selectedIndex >= 0 {
        text := AllOptions(select.children)[select.selectedIndex].text;
      }
      display, results := text, if hasGroups then GroupedView([]) else FlatView([]);
    }

    /** `group_test`: caches the OPTGROUP list; group mode is on exactly when it is not empty. */
    method GroupTest()
      requires select.Valid()
      modifies this`optgroups, this`hasGroups
      ensures optgroups == OptGroups(select.children) && hasGroups == HasOptGroups(select.children)
    {
      optgroups, hasGroups := OptGroups(select.children), |OptGroups(select.children)| > 0;
    }

    /** `load_options_data`: the cached groups in group mode, every option of the select otherwise. */
    method LoadOptionsData()
      requires select.Valid()
      modifies this`options
      ensures options == if hasGroups then Grouped(LoadGroups(optgroups)) else Flat(ToItems(AllOptions(select.children)))
    {
      if hasGroups {
        var groups := LoadGroupedOptions(optgroups);
        options := Grouped(groups);
      } else {
        var items := LoadFlatOptions(AllOptions(select.children));
        assert items == ToItems(AllOptions(select.children));
        options := Flat(items);
      }
    }

    /** `build_results(shown)`; `ok` is false when the group lookup throws. */
    method BuildResults(shown: Snapshot, geo: Layout) returns (ok: bool)
      requires select.Valid() && options.Grouped? == hasGroups && shown.Grouped? == hasGroups
      modifies this
      ensures Valid() && ok == BuildSucceeds(shown)
      ensures Built(shown, geo, old(selected), old(display), old(groupLabelShown), old(groupLabelText))
      ensures hasGroups == old(hasGroups) && options == old(options) && optgroups == old(optgroups)
      ensures isOpen == old(isOpen) && searchValue == old(searchValue) && dropdownShown == old(dropdownShown)
    {
      var sel, view, text, scroll, labelShown, title;
      sel, view, text, scroll, labelShown, title, ok :=
        Rebuild(shown, geo, selected, display, groupLabelShown, groupLabelText, hasGroups,
                AllOptions(select.children), select.selectedIndex);
      selected, results, display, scrollTop, groupLabelShown, groupLabelText := sel, view, text, scroll, labelShown, title;
    }

    /**
     * `activate_dropdown`: show, clear the search, render everything, and only if
     * that did not throw, set `opened`.
     */
    method ActivateDropdown(geo: Layout) returns (ok: bool)
      requires Valid()
      modifies this
      ensures Valid() && ok == BuildSucceeds(options)
      ensures dropdownShown && searchValue == ""
      ensures isOpen == (ok || old(isOpen))
      ensures Built(options, geo, old(selected), old(display), old(groupLabelShown), old(groupLabelText))
      ensures hasGroups == old(hasGroups) && options == old(options) && optgroups == old(optgroups)
    {
      dropdownShown, searchValue := true, "";
      ok := BuildResults(options, geo);
      if ok {
        isOpen := true;
      }
    }

    /**
     * A click on the display or the chevron. A completed activation stops the
     * click; one that threw lets it bubble to the document's background handler.
     */
    method DisplayClicked(geo: Layout) returns (ok: bool)
      requires Valid()
      modifies this
      ensures Valid() && ok == BuildSucceeds(options)
      ensures ok ==> dropdownShown && isOpen
      ensures !ok && old(isOpen) ==> !dropdownShown && !isOpen
      ensures !ok && !old(isOpen) ==> dropdownShown && !isOpen
      ensures searchValue == "" && hasGroups == old(hasGroups) && options == old(options)
      ensures optgroups == old(optgroups)
      ensures Built(options, geo, old(selected), old(display), old(groupLabelShown), old(groupLabelText))
    {
      ok := ActivateDropdown(geo);
      if !ok {
        BackgroundClicked();
      }
    }

    /** `search_changed` with `typed` in the search box: filter the full snapshot and render it. */
    method SearchChanged(typed: string, geo: Layout) returns (ok: bool)
      requires Valid()
      modifies this
      ensures Valid() && searchValue == typed
      ensures ok == BuildSucceeds(Apply(options, Lower(typed)))
      ensures Built(Apply(options, Lower(typed)), geo, old(selected), old(display), old(groupLabelShown), old(groupLabelText))
      ensures hasGroups == old(hasGroups) && options == old(options) && isOpen == old(isOpen)
      ensures dropdownShown == old(dropdownShown) && optgroups == old(optgroups)
    {
      searchValue := typed;
      var filtered := Search(options, Lower(typed));
      ok := BuildResults(filtered, geo);
    }

    /**
     * `result_clicked`: on an option button it sets the select's value and shows
     * the button's text; on any click in the results it closes and fires one
     * change event.
     */
    method ResultClicked(target: Element.ClickTarget)
      requires Valid()
      modifies this`display, this`dropdownShown, this`isOpen, select`selectedIndex, select`events
      ensures Valid() && !isOpen && !dropdownShown
      ensures select.events == old(select.events) + [ChangeEvent("change", false, true, false, select.selectedIndex)]
      ensures target.value.Some? ==>
                select.selectedIndex == IndexOfValue(AllOptions(select.children), target.value.value) &&
                display == target.text
      ensures target.value.None? ==> select.selectedIndex == old(select.selectedIndex) && display == old(display)
    {
      if target.value.Some? {
        select.SetValue(target.value.value);
        display := target.text;
      }
      dropdownShown, isOpen := false, false;
      select.DispatchChange(isOpen);
    }

    /** `background_clicked`: hides the dropdown only when `opened`. */
    method BackgroundClicked()
      modifies this`dropdownShown, this`isOpen
      ensures old(isOpen) ==> !dropdownShown && !isOpen
      ensures !old(isOpen) ==> dropdownShown == old(dropdownShown) && !isOpen
    {
      if isOpen {
        dropdownShown, isOpen := false, false;
      }
    }

    /** The close button hides the dropdown and leaves `opened` as it was. */
    method CloseClicked()
      modifies this`dropdownShown
      ensures !dropdownShown && isOpen == old(isOpen)
    {
      dropdownShown := false;
    }

    /** A document keyup with code 27 or key "Escape" acts as a background click. */
    method EscapeKeyup(which: int, key: string)
      modifies this`dropdownShown, this`isOpen
      ensures (which == 27 || key == "Escape") && old(isOpen) ==> !dropdownShown && !isOpen
      ensures !(which == 27 || key == "Escape") || !old(isOpen) ==>
                dropdownShown == old(dropdownShown) && isOpen == old(isOpen)
    {
      if which == 27 || key == "Escape" {
        BackgroundClicked();
      }
    }

    /**
     * `result_scrolled` at offset `scroll`: in group mode the label takes the
     * active group's title; with no group rendered the lookup throws and the
     * label keeps its text.
     */
    method ResultScrolled(scroll: int, geo: Layout) returns (ok: bool)
      modifies this`scrollTop, this`groupLabelText
      ensures scrollTop == scroll
      ensures ok <==> !hasGroups || Boxes(results, geo) != []
      ensures groupLabelText == if hasGroups && GroupName(Boxes(results, geo), scroll).Some?
                                then GroupName(Boxes(results, geo), scroll).value else old(groupLabelText)
    {
      scrollTop, ok := scroll, true;
      if hasGroups {
        var name := FindGroupName(Boxes(results, geo), scroll);
        match name {
          case Some(t) => groupLabelText := t;
          case None => ok := false;
        }
      }
    }

    /** `this.reload`: clear the display, group test, load, render everything. */
    method Reload(geo: Layout) returns (ok: bool)
      requires Valid()
      modifies this
      ensures Valid() && Loaded() && ok == BuildSucceeds(options)
      ensures Built(options, geo, old(selected), "", old(groupLabelShown), old(groupLabelText))
      ensures isOpen == old(isOpen) && dropdownShown == old(dropdownShown) && searchValue == old(searchValue)
    {
      ReloadData();
      ok := BuildResults(options, geo);
    }

    /** The first steps of `reload`: clear the display, then the group test and a load. */
    method ReloadData()
      requires select.Valid()
      modifies this`display, this`hasGroups, this`optgroups, this`options
      ensures Loaded() && display == ""
    {
      display := "";
      DetectAndLoad();
    }

    /** The group test followed by a load from scratch. */
    method DetectAndLoad()
      requires select.Valid()
      modifies this`hasGroups, this`optgroups, this`options
      ensures Loaded()
    {
      GroupTest();
      LoadOptionsData();
    }
  }

  /**
   * The close button followed by a background click: the first hides the
   * dropdown but leaves `opened` set, which the second then clears.
   */
  method CloseThenBackgroundClick(w: Widget) returns (openAfterClose: bool)
    modifies w`dropdownShown, w`isOpen
    ensures openAfterClose == old(w.isOpen)
    ensures !w.dropdownShown && !w.isOpen
  {
    w.CloseClicked();
    openAfterClose := w.isOpen;
    w.BackgroundClicked();
  }

  /**
   * Two reloads of an unchanged select load the same snapshot and leave the same
   * selection, rendered results, display text and outcome as the first one did.
   */
  method ReloadTwice(w: Widget, geo: Layout)
    returns (first: Snapshot, sel: Option<string>, shown: View, text: string, firstOk: bool, secondOk: bool)
    requires w.Valid()
    modifies w
    ensures w.options == first && w.selected == sel && w.results == shown && w.display == text
    ensures firstOk == secondOk
  {
    firstOk := w.Reload(geo);
    first, sel, shown, text := w.options, w.selected, w.results, w.display;
    secondOk := w.Reload(geo);
  }
}
