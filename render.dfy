/**
 * What `buildResults` / `build_results` put on screen: the option buttons with
 * their highlight, the display text, the scroll "backoff", and the boxes that
 * the active-group search looks at. Layout geometry is an input.
 */
module Render {
  import opened Optional
  import opened Backing
  import opened Options

  /** An option button: its text, its `data-value`, and whether it carries the selected class. */
  datatype RenderedItem = RenderedItem(text: string, value: string, highlighted: bool)

  /** A group container: its title and its option buttons. */
  datatype RenderedGroup = RenderedGroup(title: string, items: seq<RenderedItem>)

  /** The children of the results container. */
  datatype View = FlatView(items: seq<RenderedItem>) | GroupedView(groups: seq<RenderedGroup>)

  /**
   * The browser's layout after a rebuild: `offsetTop` and `clientHeight` of the
   * k-th option button in document order, the results viewport's `clientHeight`,
   * the i-th group container's `offsetTop` and `clientHeight`, and the results'
   * `scrollTop` once their content has been replaced.
   */
  datatype Layout = Layout(itemTop: nat -> int, itemHeight: nat -> int, resultsHeight: nat,
                           groupTop: nat -> int, groupHeight: nat -> int, scrollAfterRebuild: int)

  /** A rendered group container as the active-group search sees it. */
  datatype GroupBox = GroupBox(offsetTop: int, height: int, title: string)

  /** The cached selection at the start of a render: refreshed only when `selectedIndex >= 0`. */
  function Refresh(selected: Option<string>, options: seq<OptionElement>, selectedIndex: int): Option<string>
    requires selectedIndex < |options|
  {
    if selectedIndex >= 0 then Some(options[selectedIndex].value) else selected
  }

  function Mark(x: Item, selected: Option<string>): RenderedItem
  {
    RenderedItem(x.text, x.value, selected == Some(x.value))
  }

  /** One button per item, highlighted exactly when its value is the cached selection. */
  function RenderItems(items: seq<Item>, selected: Option<string>): (r: seq<RenderedItem>)
    ensures |r| == |items|
  {
    if items == [] then []
    else RenderItems(items[..|items| - 1], selected) + [Mark(items[|items| - 1], selected)]
  }

  /** One container per group, titled with the group's name. */
  function RenderGroups(groups: seq<Group>, selected: Option<string>): (r: seq<RenderedGroup>)
    ensures |r| == |groups|
  {
    if groups == [] then []
    else
      var last := groups[|groups| - 1];
      RenderGroups(groups[..|groups| - 1], selected) + [RenderedGroup(last.name, RenderItems(last.options, selected))]
  }

  /** The k-th button is the k-th item marked against the selection. */
  lemma {:induction false} RenderItemsPointwise(items: seq<Item>, selected: Option<string>)
    ensures forall k :: 0 <= k < |items| ==> RenderItems(items, selected)[k] == Mark(items[k], selected)
  {
    if items != [] {
      var n := |items| - 1;
      RenderItemsPointwise(items[..n], selected);
      assert forall k :: 0 <= k < n ==> items[..n][k] == items[k];
    }
  }

  function RenderView(s: Snapshot, selected: Option<string>): View
  {
    match s
    case Flat(items) => FlatView(RenderItems(items, selected))
    case Grouped(groups) => GroupedView(RenderGroups(groups, selected))
  }

  function GroupedItems(groups: seq<RenderedGroup>): seq<RenderedItem>
  {
    if groups == [] then [] else GroupedItems(groups[..|groups| - 1]) + groups[|groups| - 1].items
  }

  /** The option buttons of a view, in document order. */
  function ViewItems(v: View): seq<RenderedItem>
  {
    match v
    case FlatView(items) => items
    case GroupedView(groups) => GroupedItems(groups)
  }

  /** The items of a snapshot, in order. */
  function SnapshotItems(s: Snapshot): seq<Item>
  {
    match s
    case Flat(items) => items
    case Grouped(groups) => GroupItems(groups)
  }

  /** The text of the last highlighted button: the loop overwrites the display text at each one. */
  function LastHighlighted(items: seq<RenderedItem>): Option<string>
  {
    if items == [] then None
    else if items[|items| - 1].highlighted then Some(items[|items| - 1].text)
    else LastHighlighted(items[..|items| - 1])
  }

  /** `LastHighlighted` finds nothing exactly when no button is highlighted, else the last one's text. */
  lemma {:induction false} LastHighlightedIsLast(items: seq<RenderedItem>)
    ensures LastHighlighted(items).None? <==> forall k :: 0 <= k < |items| ==> !items[k].highlighted
    ensures LastHighlighted(items).Some? ==>
              exists k :: 0 <= k < |items| && items[k].highlighted && items[k].text == LastHighlighted(items).value &&
                          forall j :: k < j < |items| ==> !items[j].highlighted
  {
    if items != [] {
      var n := |items| - 1;
      LastHighlightedIsLast(items[..n]);
      if !items[n].highlighted && LastHighlighted(items).Some? {
        var k :| 0 <= k < n && items[..n][k].highlighted && items[..n][k].text == LastHighlighted(items).value &&
                 forall j :: k < j < n ==> !items[..n][j].highlighted;
        assert items[k] == items[..n][k];
      }
    }
  }

  /** The button `querySelector` finds for the selected class: the first highlighted one. */
  function FirstHighlighted(items: seq<RenderedItem>): (r: Option<nat>)
    ensures r.Some? ==> r.value < |items|
  {
    if items == [] then None
    else if items[0].highlighted then Some(0)
    else
      match FirstHighlighted(items[1..])
      case None => None
      case Some(k) => Some(k + 1)
  }

  /** `FirstHighlighted` finds nothing exactly when no button is highlighted, else the first one. */
  lemma {:induction false} FirstHighlightedIsFirst(items: seq<RenderedItem>)
    ensures FirstHighlighted(items).None? <==> forall k :: 0 <= k < |items| ==> !items[k].highlighted
    ensures FirstHighlighted(items).Some? ==>
              items[FirstHighlighted(items).value].highlighted &&
              forall j :: 0 <= j < FirstHighlighted(items).value ==> !items[j].highlighted
  {
    if items != [] {
      FirstHighlightedIsFirst(items[1..]);
      if !items[0].highlighted {
        forall k | 0 < k < |items| ensures items[k] == items[1..][k - 1] { }
      }
    }
  }

  /** The display text after a render: the last highlighted text, or the text it had. */
  function DisplayAfter(display: string, v: View): string
  {
    match LastHighlighted(ViewItems(v))
    case Some(t) => t
    case None => display
  }

  /** `offsetTop - clientHeight - results.clientHeight / 2` for the k-th button. */
  function Backoff(geo: Layout, k: nat): int
  {
    geo.itemTop(k) - geo.itemHeight(k) - geo.resultsHeight / 2
  }

  /** The results' `scrollTop` after a render: the backoff when a button is highlighted. */
  function ScrollAfter(v: View, geo: Layout): int
  {
    match FirstHighlighted(ViewItems(v))
    case Some(k) => Backoff(geo, k)
    case None => geo.scrollAfterRebuild
  }

  /** The group containers of a view with their geometry; a flat view has none. */
  function Boxes(v: View, geo: Layout): (r: seq<GroupBox>)
    ensures v.FlatView? ==> r == []
    ensures v.GroupedView? ==> |r| == |v.groups|
  {
    match v
    case FlatView(_) => []
    case GroupedView(groups) =>
      seq(|groups|, i requires 0 <= i < |groups| => GroupBox(geo.groupTop(i), geo.groupHeight(i), groups[i].title))
  }

  /** The test of the active-group search; both ends are inclusive. */
  predicate Within(b: GroupBox, scroll: int)
  {
    b.offsetTop <= scroll <= b.offsetTop + b.height
  }

  /** The index of the first box that contains the scroll offset. */
  function FirstWithin(boxes: seq<GroupBox>, scroll: int): (r: Option<nat>)
    ensures r.Some? ==> r.value < |boxes| && Within(boxes[r.value], scroll) &&
                        forall j :: 0 <= j < r.value ==> !Within(boxes[j], scroll)
    ensures r.None? ==> forall j :: 0 <= j < |boxes| ==> !Within(boxes[j], scroll)
  {
    if boxes == [] then None
    else if Within(boxes[0], scroll) then Some(0)
    else
      match FirstWithin(boxes[1..], scroll)
      case None => None
      case Some(k) => Some(k + 1)
  }

  lemma RenderItemsAppend(a: seq<Item>, b: seq<Item>, selected: Option<string>)
    ensures RenderItems(a + b, selected) == RenderItems(a, selected) + RenderItems(b, selected)
  {
    var l, r := RenderItems(a + b, selected), RenderItems(a, selected) + RenderItems(b, selected);
    assert |l| == |r|;
    RenderItemsPointwise(a + b, selected);
    RenderItemsPointwise(a, selected);
    RenderItemsPointwise(b, selected);
    forall k | 0 <= k < |l| ensures l[k] == r[k] {
      if k < |a| {
        assert (a + b)[k] == a[k];
      } else {
        assert (a + b)[k] == b[k - |a|];
      }
    }
  }

  /** The buttons of a render are the snapshot's items in order, each marked against the selection. */
  lemma {:induction false} ViewItemsOfRender(s: Snapshot, selected: Option<string>)
    ensures ViewItems(RenderView(s, selected)) == RenderItems(SnapshotItems(s), selected)
    ensures |ViewItems(RenderView(s, selected))| == |SnapshotItems(s)|
    ensures forall k :: 0 <= k < |SnapshotItems(s)| ==>
              ViewItems(RenderView(s, selected))[k] == Mark(SnapshotItems(s)[k], selected)
  {
    if s.Grouped? {
      GroupedRenderItems(s.groups, selected);
    }
    RenderItemsPointwise(SnapshotItems(s), selected);
  }

  lemma {:induction false} GroupedRenderItems(groups: seq<Group>, selected: Option<string>)
    ensures GroupedItems(RenderGroups(groups, selected)) == RenderItems(GroupItems(groups), selected)
  {
    if groups != [] {
      var n := |groups| - 1;
      GroupedRenderItems(groups[..n], selected);
      var r := RenderGroups(groups, selected);
      assert r[..|r| - 1] == RenderGroups(groups[..n], selected);
      RenderItemsAppend(GroupItems(groups[..n]), groups[n].options, selected);
    }
  }

  /** A button is highlighted exactly when its value equals the cached selection. */
  lemma HighlightIffSelected(s: Snapshot, selected: Option<string>, k: nat)
    requires k < |SnapshotItems(s)|
    ensures |ViewItems(RenderView(s, selected))| == |SnapshotItems(s)|
    ensures ViewItems(RenderView(s, selected))[k].highlighted <==> selected == Some(SnapshotItems(s)[k].value)
    ensures ViewItems(RenderView(s, selected))[k].text == SnapshotItems(s)[k].text
  {
    ViewItemsOfRender(s, selected);
  }

  /**
   * After a render the display shows the text of the last item whose value is the
   * selection; when no item has that value the display keeps its old text.
   */
  lemma DisplayShowsSelectedText(display: string, s: Snapshot, selected: Option<string>)
    ensures (forall k :: 0 <= k < |SnapshotItems(s)| ==> selected != Some(SnapshotItems(s)[k].value)) ==>
              DisplayAfter(display, RenderView(s, selected)) == display
    ensures (exists k :: 0 <= k < |SnapshotItems(s)| && selected == Some(SnapshotItems(s)[k].value)) ==>
              exists k :: 0 <= k < |SnapshotItems(s)| && selected == Some(SnapshotItems(s)[k].value) &&
                          DisplayAfter(display, RenderView(s, selected)) == SnapshotItems(s)[k].text &&
                          forall j :: k < j < |SnapshotItems(s)| ==> selected != Some(SnapshotItems(s)[j].value)
  {
    ViewItemsOfRender(s, selected);
    LastHighlightedIsLast(ViewItems(RenderView(s, selected)));
  }

  /**
   * The scroll offset is moved to the backoff of the first item holding the
   * selection, and left where the rebuild put it when there is none.
   */
  lemma ScrollFollowsSelection(s: Snapshot, selected: Option<string>, geo: Layout)
    ensures (forall k :: 0 <= k < |SnapshotItems(s)| ==> selected != Some(SnapshotItems(s)[k].value)) ==>
              ScrollAfter(RenderView(s, selected), geo) == geo.scrollAfterRebuild
    ensures forall k :: 0 <= k < |SnapshotItems(s)| && selected == Some(SnapshotItems(s)[k].value) &&
                        (forall j :: 0 <= j < k ==> selected != Some(SnapshotItems(s)[j].value)) ==>
              ScrollAfter(RenderView(s, selected), geo) == Backoff(geo, k)
  {
    ViewItemsOfRender(s, selected);
    var items := ViewItems(RenderView(s, selected));
    FirstHighlightedIsFirst(items);
    forall k | 0 <= k < |SnapshotItems(s)| && selected == Some(SnapshotItems(s)[k].value) &&
               (forall j :: 0 <= j < k ==> selected != Some(SnapshotItems(s)[j].value))
      ensures ScrollAfter(RenderView(s, selected), geo) == Backoff(geo, k)
    {
      assert items[k].highlighted;
    }
  }

  lemma {:induction false} InGroupedOptions(optgroups: seq<OptGroupElement>, o: OptionElement)
    requires o in GroupedOptions(optgroups)
    ensures exists g :: g in optgroups && o in g.options
  {
    var n := |optgroups| - 1;
    if o !in optgroups[n].options {
      InGroupedOptions(optgroups[..n], o);
      var g :| g in optgroups[..n] && o in g.options;
      assert g in optgroups;
    }
  }

  /** Every loaded item is one of the select's options, in either mode. */
  lemma LoadedItemsComeFromOptions(children: seq<Child>, hasGroups: bool, x: Item)
    requires x in SnapshotItems(Load(children, hasGroups))
    ensures exists o :: o in AllOptions(children) && x == ToItem(o)
  {
    if hasGroups {
      var gs := OptGroups(children);
      GroupedLoadCollectsGroupedOptions(gs);
      var items := ToItems(GroupedOptions(gs));
      var k :| 0 <= k < |items| && items[k] == x;
      var o := GroupedOptions(gs)[k];
      InGroupedOptions(gs, o);
      var g :| g in gs && o in g.options;
      OptGroupsMembership(children, g);
      var i :| 0 <= i < |children| && children[i] == OptGroupChild(g);
      assert InChild(o, children[i]);
      AllOptionsMembership(children, o);
    } else {
      var k :| 0 <= k < |AllOptions(children)| && ToItems(AllOptions(children))[k] == x;
      assert AllOptions(children)[k] in AllOptions(children);
    }
  }

  /**
   * What `reload` renders when the select reports no selection (`selectedIndex == -1`)
   * and the cached value belongs to no option any more: no button is highlighted,
   * and the display it cleared stays empty.
   */
  lemma StaleSelectionShowsNothing(children: seq<Child>, hasGroups: bool, v: string)
    requires forall o :: o in AllOptions(children) ==> o.value != v
    ensures Refresh(Some(v), AllOptions(children), -1) == Some(v)
    ensures forall x :: x in ViewItems(RenderView(Load(children, hasGroups), Refresh(Some(v), AllOptions(children), -1))) ==>
              !x.highlighted
    ensures DisplayAfter("", RenderView(Load(children, hasGroups), Refresh(Some(v), AllOptions(children), -1))) == ""
  {
    var s := Load(children, hasGroups);
    var items := ViewItems(RenderView(s, Some(v)));
    ViewItemsOfRender(s, Some(v));
    forall k | 0 <= k < |items| ensures !items[k].highlighted {
      var x := SnapshotItems(s)[k];
      LoadedItemsComeFromOptions(children, hasGroups, x);
    }
    LastHighlightedIsLast(items);
  }

  /**
   * What `reload` renders in flat mode when the select does report a selection
   * (`selectedIndex == i`): whatever value was cached, the refreshed selection is
   * that option's value, and the display shows the text of the last option holding it.
   */
  lemma ReloadShowsSelectedOption(children: seq<Child>, cached: Option<string>, i: nat)
    requires i < |AllOptions(children)|
    ensures Refresh(cached, AllOptions(children), i) == Some(AllOptions(children)[i].value)
    ensures exists k :: i <= k < |AllOptions(children)| &&
              AllOptions(children)[k].value == AllOptions(children)[i].value &&
              DisplayAfter("", RenderView(Load(children, false), Refresh(cached, AllOptions(children), i))) ==
                AllOptions(children)[k].text &&
              forall j :: k < j < |AllOptions(children)| ==> AllOptions(children)[j].value != AllOptions(children)[i].value
  {
    var opts := AllOptions(children);
    var sel := Some(opts[i].value);
    var s := Load(children, false);
    var items := ToItems(opts);
    assert SnapshotItems(s) == items;
    assert items[i] == ToItem(opts[i]);
    DisplayShowsSelectedText("", s, sel);
    var k :| 0 <= k < |items| && sel == Some(items[k].value) &&
             DisplayAfter("", RenderView(s, sel)) == items[k].text &&
             forall j :: k < j < |items| ==> sel != Some(items[j].value);
    assert items[k] == ToItem(opts[k]);
    forall j | k < j < |opts|
      ensures opts[j].value != opts[i].value
    {
      assert items[j] == ToItem(opts[j]);
    }
    assert i <= k;
  }

  /** The render loop: one button per item (per group, per item), tracking the last highlighted text. */
  method RenderResults(results: Snapshot, selected: Option<string>) returns (view: View, lastText: Option<string>)
    ensures view == RenderView(results, selected)
    ensures lastText == LastHighlighted(ViewItems(view))
  {
    match results
    case Grouped(groups) =>
      var rendered;
      rendered, lastText := RenderGroupContainers(groups, selected);
      view := GroupedView(rendered);
    case Flat(items) =>
      var buttons;
      buttons, lastText := RenderButtons(items, selected);
      view := FlatView(buttons);
  }

  /** The outer loop of group mode: one titled container per group. */
  method RenderGroupContainers(groups: seq<Group>, selected: Option<string>)
    returns (rendered: seq<RenderedGroup>, lastText: Option<string>)
    ensures rendered == RenderGroups(groups, selected)
    ensures lastText == LastHighlighted(GroupedItems(rendered))
  {
    rendered, lastText := [], None;
    for i := 0 to |groups|
      invariant rendered == RenderGroups(groups[..i], selected)
      invariant lastText == LastHighlighted(GroupedItems(rendered))
    {
      var buttons, last := RenderButtons(groups[i].options, selected);
      var group := RenderedGroup(groups[i].name, buttons);
      AppendGroup(rendered, group);
      if last.Some? {
        lastText := last;
      }
      RenderGroupsStep(groups, i, selected);
      rendered := rendered + [group];
    }
    assert groups[..|groups|] == groups;
  }

  /** The inner loop: the buttons of a list of items, and the text of the last one highlighted. */
  method RenderButtons(items: seq<Item>, selected: Option<string>) returns (buttons: seq<RenderedItem>, lastText: Option<string>)
    ensures buttons == RenderItems(items, selected)
    ensures lastText == LastHighlighted(buttons)
  {
    buttons, lastText := [], None;
    for i := 0 to |items|
      invariant buttons == RenderItems(items[..i], selected)
      invariant lastText == LastHighlighted(buttons)
    {
      var button := RenderedItem(items[i].text, items[i].value, false);
      if selected == Some(items[i].value) {
        lastText := Some(items[i].text);
        button := button.(highlighted := true);
      }
      LastHighlightedSnoc(buttons, button);
      RenderItemsStep(items, i, selected);
      buttons := buttons + [button];
    }
    assert items[..|items|] == items;
  }

  lemma RenderItemsStep(items: seq<Item>, i: nat, selected: Option<string>)
    requires i < |items|
    ensures RenderItems(items[..i + 1], selected) == RenderItems(items[..i], selected) + [Mark(items[i], selected)]
  {
    assert items[..i + 1][..i] == items[..i];
  }

  lemma RenderGroupsStep(groups: seq<Group>, i: nat, selected: Option<string>)
    requires i < |groups|
    ensures RenderGroups(groups[..i + 1], selected) ==
            RenderGroups(groups[..i], selected) + [RenderedGroup(groups[i].name, RenderItems(groups[i].options, selected))]
  {
    assert groups[..i + 1][..i] == groups[..i];
  }

  /** Appending a group container appends its buttons; its last highlighted one wins. */
  lemma AppendGroup(rendered: seq<RenderedGroup>, group: RenderedGroup)
    ensures GroupedItems(rendered + [group]) == GroupedItems(rendered) + group.items
    ensures LastHighlighted(GroupedItems(rendered + [group])) ==
            if LastHighlighted(group.items).Some? then LastHighlighted(group.items)
            else LastHighlighted(GroupedItems(rendered))
  {
    assert (rendered + [group])[..|rendered|] == rendered;
    LastHighlightedAppend(GroupedItems(rendered), group.items);
  }

  lemma LastHighlightedSnoc(items: seq<RenderedItem>, x: RenderedItem)
    ensures LastHighlighted(items + [x]) == if x.highlighted then Some(x.text) else LastHighlighted(items)
  {
    assert (items + [x])[..|items|] == items;
  }

  /** The last highlighted button of two runs of buttons is the second run's, if it has one. */
  lemma {:induction false} LastHighlightedAppend(a: seq<RenderedItem>, b: seq<RenderedItem>)
    ensures LastHighlighted(a + b) == if LastHighlighted(b).Some? then LastHighlighted(b) else LastHighlighted(a)
  {
    if b == [] {
      assert a + b == a;
    } else {
      var n := |b| - 1;
      LastHighlightedAppend(a, b[..n]);
      assert (a + b)[..|a + b| - 1] == a + b[..n];
      assert (a + b)[|a + b| - 1] == b[n];
    }
  }
}
