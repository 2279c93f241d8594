/**
 * The filter engine: which items and groups survive a (lower-cased) search term.
 * Both widget implementations are proved to compute `Apply` on their full `options`.
 */
module Filter {
  import opened Text
  import opened Seqs
  import opened Options

  /** The test of both implementations: empty term, or the lower-cased text contains the term. */
  predicate Matches(text: string, term: string)
  {
    term == "" || Contains(Lower(text), term)
  }

  /** The items whose text matches, in their original order. */
  function FilterItems(items: seq<Item>, term: string): seq<Item>
  {
    if items == [] then []
    else
      var last := items[|items| - 1];
      FilterItems(items[..|items| - 1], term) + (if Matches(last.text, term) then [last] else [])
  }

  /** A group with its options filtered (possibly left empty). */
  function FilterGroup(g: Group, term: string): Group
  {
    Group(g.name, FilterItems(g.options, term))
  }

  /** The groups filtered one by one, dropping those left empty. */
  function FilterGroups(groups: seq<Group>, term: string): (r: seq<Group>)
    ensures forall k :: 0 <= k < |r| ==> r[k].options != []
  {
    if groups == [] then []
    else
      var last := FilterGroup(groups[|groups| - 1], term);
      FilterGroups(groups[..|groups| - 1], term) + (if last.options != [] then [last] else [])
  }

  /** The filtered view of a snapshot; its shape is the snapshot's. */
  function Apply(s: Snapshot, term: string): (r: Snapshot)
    ensures r.Grouped? == s.Grouped?
  {
    match s
    case Flat(items) => Flat(FilterItems(items, term))
    case Grouped(groups) => Grouped(FilterGroups(groups, term))
  }

  /** Soundness and completeness: an item survives iff it was there and its text matches. */
  lemma {:induction false} FilterItemsMembership(items: seq<Item>, term: string, x: Item)
    ensures x in FilterItems(items, term) <==> x in items && Matches(x.text, term)
  {
    if items != [] {
      var n := |items| - 1;
      FilterItemsMembership(items[..n], term, x);
      assert items == items[..n] + [items[n]];
    }
  }

  /** Filtering keeps the relative order of the surviving items. */
  lemma {:induction false} FilterItemsInOrder(items: seq<Item>, term: string)
    ensures IsSubsequence(FilterItems(items, term), items)
  {
    if items != [] {
      var n := |items| - 1;
      var init := items[..n];
      FilterItemsInOrder(init, term);
      var r := FilterItems(items, term);
      if Matches(items[n].text, term) {
        assert r == FilterItems(init, term) + [items[n]];
        assert r[..|r| - 1] == FilterItems(init, term);
      } else {
        assert r == FilterItems(init, term);
        SkipLast(r, items);
      }
    }
  }

  /** The empty term keeps every item. */
  lemma {:induction false} FilterItemsEmptyTerm(items: seq<Item>)
    ensures FilterItems(items, "") == items
  {
    if items != [] {
      var n := |items| - 1;
      FilterItemsEmptyTerm(items[..n]);
      assert items == items[..n] + [items[n]];
    }
  }

  /** Re-filtering the filtered view with the same term changes nothing. */
  lemma {:induction false} FilterItemsIdempotent(items: seq<Item>, term: string)
    ensures FilterItems(FilterItems(items, term), term) == FilterItems(items, term)
  {
    if items != [] {
      var n := |items| - 1;
      var init := items[..n];
      FilterItemsIdempotent(init, term);
      var f := FilterItems(init, term);
      if Matches(items[n].text, term) {
        var r := f + [items[n]];
        assert FilterItems(items, term) == r;
        assert r[..|r| - 1] == f;
        assert r[|r| - 1] == items[n];
        assert FilterItems(r, term) == FilterItems(f, term) + [items[n]];
      } else {
        assert FilterItems(items, term) == f;
      }
    }
  }

  /** Completeness: a group that keeps some option survives, with exactly the kept options. */
  lemma {:induction false} FilterGroupsComplete(groups: seq<Group>, term: string, j: nat)
    requires j < |groups| && FilterGroup(groups[j], term).options != []
    ensures FilterGroup(groups[j], term) in FilterGroups(groups, term)
  {
    var n := |groups| - 1;
    var init := groups[..n];
    FilterGroupsSnoc(init, groups[n], term);
    assert init + [groups[n]] == groups;
    if j < n {
      assert init[j] == groups[j];
      FilterGroupsComplete(init, term, j);
    }
  }

  /** Soundness: every surviving group is some group with its options filtered, and not empty. */
  lemma {:induction false} FilterGroupsSound(groups: seq<Group>, term: string, g: Group)
    requires g in FilterGroups(groups, term)
    ensures g.options != [] && exists j :: 0 <= j < |groups| && g == FilterGroup(groups[j], term)
  {
    var n := |groups| - 1;
    var init := groups[..n];
    FilterGroupsSnoc(init, groups[n], term);
    assert init + [groups[n]] == groups;
    if g in FilterGroups(init, term) {
      FilterGroupsSound(init, term, g);
      var j :| 0 <= j < |init| && g == FilterGroup(init[j], term);
      assert groups[j] == init[j];
    } else {
      assert g == FilterGroup(groups[n], term);
    }
  }

  /** Every group filtered on its own, empty ones included. */
  function FilterEach(groups: seq<Group>, term: string): (r: seq<Group>)
    ensures |r| == |groups|
    ensures forall k :: 0 <= k < |r| ==> r[k] == FilterGroup(groups[k], term)
  {
    seq(|groups|, k requires 0 <= k < |groups| => FilterGroup(groups[k], term))
  }

  /** Surviving groups keep their original order. */
  lemma {:induction false} FilterGroupsInOrder(groups: seq<Group>, term: string)
    ensures IsSubsequence(FilterGroups(groups, term), FilterEach(groups, term))
  {
    if groups != [] {
      var n := |groups| - 1;
      var init := groups[..n];
      FilterGroupsInOrder(init, term);
      assert FilterEach(groups, term)[..n] == FilterEach(init, term);
      var last := FilterGroup(groups[n], term);
      var r := FilterGroups(groups, term);
      if last.options != [] {
        assert r == FilterGroups(init, term) + [last];
        assert r[..|r| - 1] == FilterGroups(init, term);
      } else {
        assert r == FilterGroups(init, term);
        SkipLast(r, FilterEach(groups, term));
      }
    }
  }

  /** The empty term keeps every group that has options, as loaded groups all do. */
  lemma {:induction false} FilterGroupsEmptyTerm(groups: seq<Group>)
    requires forall k :: 0 <= k < |groups| ==> groups[k].options != []
    ensures FilterGroups(groups, "") == groups
  {
    if groups != [] {
      var n := |groups| - 1;
      var init := groups[..n];
      FilterGroupsEmptyTerm(init);
      assert init + [groups[n]] == groups;
      FilterGroupsEmptyTermStep(init, groups[n]);
    }
  }

  /** One step of the induction above: a non-empty group appended to an unchanged prefix is kept. */
  lemma FilterGroupsEmptyTermStep(init: seq<Group>, g: Group)
    requires FilterGroups(init, "") == init && g.options != []
    ensures FilterGroups(init + [g], "") == init + [g]
  {
    FilterItemsEmptyTerm(g.options);
    assert FilterGroup(g, "") == g;
    FilterGroupsSnoc(init, g, "");
  }

  /** On a freshly loaded snapshot the empty term is the identity filter. */
  lemma ApplyEmptyTermToLoad(children: seq<Backing.Child>, hasGroups: bool)
    ensures Apply(Load(children, hasGroups), "") == Load(children, hasGroups)
  {
    if hasGroups {
      FilterGroupsEmptyTerm(LoadGroups(Backing.OptGroups(children)));
    } else {
      FilterItemsEmptyTerm(ToItems(Backing.AllOptions(children)));
    }
  }

  /** Each item is decided on its own: filtering distributes over concatenation. */
  lemma {:induction false} FilterItemsAppend(a: seq<Item>, b: seq<Item>, term: string)
    ensures FilterItems(a + b, term) == FilterItems(a, term) + FilterItems(b, term)
  {
    if b == [] {
      assert a + b == a;
    } else {
      var n := |b| - 1;
      FilterItemsAppend(a, b[..n], term);
      assert (a + b)[..|a + b| - 1] == a + b[..n];
      assert (a + b)[|a + b| - 1] == b[n];
    }
  }

  /** Each group is decided on its own: group filtering distributes over concatenation. */
  lemma {:induction false} FilterGroupsAppend(a: seq<Group>, b: seq<Group>, term: string)
    ensures FilterGroups(a + b, term) == FilterGroups(a, term) + FilterGroups(b, term)
  {
    if b == [] {
      assert a + b == a;
    } else {
      var n := |b| - 1;
      FilterGroupsAppend(a, b[..n], term);
      assert (a + b)[..|a + b| - 1] == a + b[..n];
      assert (a + b)[|a + b| - 1] == b[n];
    }
  }

  /** Whether a label matches a one-letter term, decided on its lower-cased characters. */
  lemma MatchesChar(text: string, lowered: string, c: char)
    requires Lower(text) == lowered
    ensures Matches(text, [c]) <==> c in lowered
  {
    ContainsChar(lowered, c);
  }

  /** Filtering one more item appends it exactly when it matches. */
  lemma FilterSnoc(items: seq<Item>, x: Item, term: string)
    ensures FilterItems(items + [x], term) == FilterItems(items, term) + (if Matches(x.text, term) then [x] else [])
  {
    assert (items + [x])[..|items|] == items;
  }

  /** Filtering five items of which the first, second and fourth match. */
  lemma FilterFiveKeeps124(a: Item, b: Item, c: Item, d: Item, e: Item, term: string)
    requires Matches(a.text, term) && Matches(b.text, term) && Matches(d.text, term)
    requires !Matches(c.text, term) && !Matches(e.text, term)
    ensures FilterItems([a, b, c, d, e], term) == [a, b, d]
  {
    FilterSnoc([], a, term);
    assert [] + [a] == [a];
    FilterSnoc([a], b, term);
    assert [a] + [b] == [a, b];
    FilterSnoc([a, b], c, term);
    assert [a, b] + [c] == [a, b, c];
    FilterSnoc([a, b, c], d, term);
    assert [a, b, c] + [d] == [a, b, c, d];
    FilterSnoc([a, b, c, d], e, term);
    assert [a, b, c, d] + [e] == [a, b, c, d, e];
  }

  /** Filtering three items that all match keeps them all. */
  lemma FilterThreeKeepsAll(x: Item, y: Item, z: Item, term: string)
    requires Matches(x.text, term) && Matches(y.text, term) && Matches(z.text, term)
    ensures FilterItems([x, y, z], term) == [x, y, z]
  {
    FilterSnoc([], x, term);
    assert [] + [x] == [x];
    FilterSnoc([x], y, term);
    assert [x] + [y] == [x, y];
    FilterSnoc([x, y], z, term);
    assert [x, y] + [z] == [x, y, z];
  }

  /** Filtering two items of which neither matches keeps nothing. */
  lemma FilterTwoKeepsNone(u: Item, v: Item, term: string)
    requires !Matches(u.text, term) && !Matches(v.text, term)
    ensures FilterItems([u, v], term) == []
  {
    FilterSnoc([], u, term);
    assert [] + [u] == [u];
    FilterSnoc([u], v, term);
    assert [u] + [v] == [u, v];
  }

  /** Filtering two groups: the first kept whole, the second left empty and dropped. */
  lemma FilterTwoGroupsKeepsFirst(g: Group, h: Group, term: string)
    requires g.options != [] && FilterGroup(g, term) == g && FilterGroup(h, term).options == []
    ensures FilterGroups([g, h], term) == [g]
  {
    FilterGroupsSnoc([], g, term);
    assert [] + [g] == [g];
    FilterGroupsSnoc([g], h, term);
    assert [g] + [h] == [g, h];
  }

  /** Filtering one more group appends its filtered form exactly when that keeps an option. */
  lemma FilterGroupsSnoc(groups: seq<Group>, g: Group, term: string)
    ensures FilterGroups(groups + [g], term) ==
            FilterGroups(groups, term) + (if FilterGroup(g, term).options != [] then [FilterGroup(g, term)] else [])
  {
    assert (groups + [g])[..|groups|] == groups;
  }

  lemma MatchesOne() ensures Matches("One", "o") { MatchesChar("One", "one", 'o'); }
  lemma MatchesTwo() ensures Matches("Two", "o") { MatchesChar("Two", "two", 'o'); assert "two"[2] == 'o'; }
  lemma MatchesFour() ensures Matches("Four", "o") { MatchesChar("Four", "four", 'o'); assert "four"[1] == 'o'; }
  lemma NoMatchThree() ensures !Matches("Three", "o") { MatchesChar("Three", "three", 'o'); }
  lemma NoMatchFive() ensures !Matches("Five", "o") { MatchesChar("Five", "five", 'o'); }

  /** The flat example of the test suite: "o" keeps One, Two and Four, in that order. */
  lemma FlatExample()
    ensures Apply(Flat([Item("One", "1"), Item("Two", "2"), Item("Three", "3"), Item("Four", "4"), Item("Five", "5")]),
                  Lower("o"))
         == Flat([Item("One", "1"), Item("Two", "2"), Item("Four", "4")])
  {
    assert Lower("o") == "o";
    MatchesOne();
    MatchesTwo();
    NoMatchThree();
    MatchesFour();
    NoMatchFive();
    FilterFiveKeeps124(Item("One", "1"), Item("Two", "2"), Item("Three", "3"), Item("Four", "4"), Item("Five", "5"), "o");
  }

  lemma MatchesAlpha() ensures Matches("Alpha", "a") { MatchesChar("Alpha", "alpha", 'a'); assert "alpha"[0] == 'a'; }
  lemma MatchesBravo() ensures Matches("Bravo", "a") { MatchesChar("Bravo", "bravo", 'a'); assert "bravo"[2] == 'a'; }
  lemma MatchesCharlie() ensures Matches("Charlie", "a") { MatchesChar("Charlie", "charlie", 'a'); assert "charlie"[2] == 'a'; }
  lemma NoMatchOne() ensures !Matches("One", "a") { MatchesChar("One", "one", 'a'); }
  lemma NoMatchTwo() ensures !Matches("Two", "a") { MatchesChar("Two", "two", 'a'); }

  /** The grouped example: "a" keeps the Letters group whole and drops Numbers. */
  lemma GroupedExample()
    ensures Apply(Grouped([Group("Letters", [Item("Alpha", "A"), Item("Bravo", "B"), Item("Charlie", "C")]),
                           Group("Numbers", [Item("One", "1"), Item("Two", "2")])]),
                  Lower("a"))
         == Grouped([Group("Letters", [Item("Alpha", "A"), Item("Bravo", "B"), Item("Charlie", "C")])])
  {
    assert Lower("a") == "a";
    MatchesAlpha();
    MatchesBravo();
    MatchesCharlie();
    NoMatchOne();
    NoMatchTwo();
    FilterThreeKeepsAll(Item("Alpha", "A"), Item("Bravo", "B"), Item("Charlie", "C"), "a");
    FilterTwoKeepsNone(Item("One", "1"), Item("Two", "2"), "a");
    FilterTwoGroupsKeepsFirst(Group("Letters", [Item("Alpha", "A"), Item("Bravo", "B"), Item("Charlie", "C")]),
                              Group("Numbers", [Item("One", "1"), Item("Two", "2")]), "a");
  }
}
