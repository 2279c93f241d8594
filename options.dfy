/**
 * The options model: the backing select reduced to a flat list of items or to
 * a list of named groups, as `loadOptionsData` / `load_options_data` build it.
 */
module Options {
  import opened Backing
  import opened Seqs

  /** One choice: the option's text and its value. */
  datatype Item = Item(text: string, value: string)

  /** A named group of choices. */
  datatype Group = Group(name: string, options: seq<Item>)

  /** The widget's `options` array: items in flat mode, groups in group mode. */
  datatype Snapshot = Flat(items: seq<Item>) | Grouped(groups: seq<Group>)

  /** `hasGroups`: group mode is on when the select holds at least one OPTGROUP. */
  predicate HasOptGroups(children: seq<Child>)
  {
    |OptGroups(children)| > 0
  }

  /** Group mode depends on the presence of an optgroup, even an empty one, and on nothing else. */
  lemma HasOptGroupsIff(children: seq<Child>)
    ensures HasOptGroups(children) <==> exists i :: 0 <= i < |children| && children[i].OptGroupChild?
  {
    if exists i :: 0 <= i < |children| && children[i].OptGroupChild? {
      var i :| 0 <= i < |children| && children[i].OptGroupChild?;
      assert OptGroupChild(children[i].group) in children;
      OptGroupsMembership(children, children[i].group);
    } else if HasOptGroups(children) {
      var g := OptGroups(children)[0];
      OptGroupsMembership(children, g);
    }
  }

  function ToItem(o: OptionElement): Item
  {
    Item(o.text, o.value)
  }

  /** One item per option, in the same order. */
  function ToItems(elements: seq<OptionElement>): (r: seq<Item>)
    ensures |r| == |elements|
    ensures forall k :: 0 <= k < |elements| ==> r[k] == Item(elements[k].text, elements[k].value)
  {
    if elements == [] then []
    else ToItems(elements[..|elements| - 1]) + [ToItem(elements[|elements| - 1])]
  }

  function ToGroup(g: OptGroupElement): Group
  {
    Group(g.name, ToItems(g.options))
  }

  /** The groups of a grouped load: one per optgroup that holds an option, in order. */
  function LoadGroups(optgroups: seq<OptGroupElement>): (r: seq<Group>)
    ensures forall k :: 0 <= k < |r| ==> r[k].options != []
  {
    if optgroups == [] then []
    else
      var last := optgroups[|optgroups| - 1];
      LoadGroups(optgroups[..|optgroups| - 1]) + (if |last.options| > 0 then [ToGroup(last)] else [])
  }

  /** What `loadOptionsData` leaves in `options` for a given `hasGroups`. */
  function Load(children: seq<Child>, hasGroups: bool): (r: Snapshot)
    ensures r.Grouped? == hasGroups
  {
    if hasGroups then Grouped(LoadGroups(OptGroups(children)))
    else Flat(ToItems(AllOptions(children)))
  }

  /** Every optgroup that holds an option yields its group. */
  lemma {:induction false} LoadGroupsComplete(optgroups: seq<OptGroupElement>, j: nat)
    requires j < |optgroups| && optgroups[j].options != []
    ensures ToGroup(optgroups[j]) in LoadGroups(optgroups)
  {
    var n := |optgroups| - 1;
    var init := optgroups[..n];
    if j < n {
      LoadGroupsComplete(init, j);
      assert init[j] == optgroups[j];
    }
  }

  /** Every loaded group comes from an optgroup that holds an option. */
  lemma {:induction false} LoadGroupsSound(optgroups: seq<OptGroupElement>, g: Group)
    requires g in LoadGroups(optgroups)
    ensures exists j :: 0 <= j < |optgroups| && optgroups[j].options != [] && g == ToGroup(optgroups[j])
  {
    var n := |optgroups| - 1;
    var init := optgroups[..n];
    if g in LoadGroups(init) {
      LoadGroupsSound(init, g);
      var j :| 0 <= j < |init| && init[j].options != [] && g == ToGroup(init[j]);
      assert optgroups[j] == init[j];
    } else {
      assert optgroups[n].options != [] && g == ToGroup(optgroups[n]);
    }
  }

  function ToGroups(optgroups: seq<OptGroupElement>): (r: seq<Group>)
    ensures |r| == |optgroups|
    ensures forall k :: 0 <= k < |r| ==> r[k] == ToGroup(optgroups[k])
  {
    seq(|optgroups|, k requires 0 <= k < |optgroups| => ToGroup(optgroups[k]))
  }

  /** Loaded groups keep document order: they are the converted optgroups with the empty ones removed. */
  lemma {:induction false} LoadGroupsInOrder(optgroups: seq<OptGroupElement>)
    ensures IsSubsequence(LoadGroups(optgroups), ToGroups(optgroups))
  {
    if optgroups != [] {
      var n := |optgroups| - 1;
      var init := optgroups[..n];
      LoadGroupsInOrder(init);
      assert ToGroups(optgroups)[..n] == ToGroups(init);
      var last := optgroups[n];
      if |last.options| > 0 {
        var r := LoadGroups(optgroups);
        assert r == LoadGroups(init) + [ToGroup(last)];
        assert r[..|r| - 1] == LoadGroups(init);
      } else {
        assert LoadGroups(optgroups) == LoadGroups(init);
        SkipLast(LoadGroups(init), ToGroups(optgroups));
      }
    }
  }

  /** Dropping the last element of the longer sequence is allowed by IsSubsequence. */
  lemma SkipLast<T>(a: seq<T>, b: seq<T>)
    requires b != [] && IsSubsequence(a, b[..|b| - 1])
    ensures IsSubsequence(a, b)
  {
  }

  /** The options of all groups of a snapshot, one after the other. */
  function GroupItems(groups: seq<Group>): seq<Item>
  {
    if groups == [] then [] else GroupItems(groups[..|groups| - 1]) + groups[|groups| - 1].options
  }

  /** The options inside optgroups, one after the other. */
  function GroupedOptions(optgroups: seq<OptGroupElement>): seq<OptionElement>
  {
    if optgroups == [] then []
    else GroupedOptions(optgroups[..|optgroups| - 1]) + optgroups[|optgroups| - 1].options
  }

  lemma ToItemsAppend(a: seq<OptionElement>, b: seq<OptionElement>)
    ensures ToItems(a + b) == ToItems(a) + ToItems(b)
  {
  }

  /**
   * In group mode exactly the options inside optgroups are collected, in document
   * order: options outside any group are not, and skipping empty groups loses none.
   */
  lemma {:induction false} GroupedLoadCollectsGroupedOptions(optgroups: seq<OptGroupElement>)
    ensures GroupItems(LoadGroups(optgroups)) == ToItems(GroupedOptions(optgroups))
  {
    if optgroups != [] {
      var n := |optgroups| - 1;
      var init := optgroups[..n];
      GroupedLoadCollectsGroupedOptions(init);
      ToItemsAppend(GroupedOptions(init), optgroups[n].options);
      var r := LoadGroups(optgroups);
      if |optgroups[n].options| > 0 {
        assert r == LoadGroups(init) + [ToGroup(optgroups[n])];
        assert r[..|r| - 1] == LoadGroups(init);
        assert GroupItems(r) == GroupItems(LoadGroups(init)) + ToItems(optgroups[n].options);
      } else {
        assert r == LoadGroups(init);
        assert optgroups[n].options == [];
        assert GroupedOptions(optgroups) == GroupedOptions(init) + [];
      }
    }
  }

  /** The flat load: every option of the select, in document order. */
  method LoadFlatOptions(elements: seq<OptionElement>) returns (items: seq<Item>)
    ensures |items| == |elements|
    ensures forall k :: 0 <= k < |elements| ==> items[k] == Item(elements[k].text, elements[k].value)
  {
    items := [];
    for i := 0 to |elements|
      invariant |items| == i
      invariant forall k :: 0 <= k < i ==> items[k] == Item(elements[k].text, elements[k].value)
    {
      items := items + [Item(elements[i].text, elements[i].value)];
    }
  }

  /** The grouped load: the nested loops over the optgroups and their options. */
  method LoadGroupedOptions(optgroups: seq<OptGroupElement>) returns (groups: seq<Group>)
    ensures groups == LoadGroups(optgroups)
  {
    groups := [];
    for i := 0 to |optgroups|
      invariant groups == LoadGroups(optgroups[..i])
    {
      var elements := optgroups[i].options;
      if |elements| > 0 {
        var items: seq<Item> := [];
        for j := 0 to |elements|
          invariant |items| == j
          invariant forall k :: 0 <= k < j ==> items[k] == Item(elements[k].text, elements[k].value)
        {
          items := items + [Item(elements[j].text, elements[j].value)];
        }
        assert items == ToItems(elements);
        groups := groups + [Group(optgroups[i].name, items)];
      }
      assert optgroups[..i + 1][..i] == optgroups[..i];
      assert optgroups[..i + 1][i] == optgroups[i];
    }
    assert optgroups[..|optgroups|] == optgroups;
  }
}
