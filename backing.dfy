/**
 * The backing native `<select>`: its children in document order, its
 * `selectedIndex`, and the change events dispatched on it.
 */
module Backing {

  /** An `<option>`: its text (`text` / `innerText`) and its `value`. */
  datatype OptionElement = OptionElement(text: string, value: string)

  /** An `<optgroup>` with its `label` attribute (here `name`) and the options inside it. */
  datatype OptGroupElement = OptGroupElement(name: string, options: seq<OptionElement>)

  /** A child of the select: a loose option or an option group. */
  datatype Child = OptionChild(option: OptionElement) | OptGroupChild(group: OptGroupElement)

  /**
   * An event dispatched on the select: the flags of `initEvent`, and what a
   * `change` listener can observe at that moment, namely whether the widget was
   * open and the select's `selectedIndex`.
   */
  datatype ChangeEvent = ChangeEvent(eventType: string, bubbles: bool, cancelable: bool, widgetOpen: bool, selectedIndex: int)

  /** `querySelectorAll('OPTION')`, which is also `select.options`: every option, in document order. */
  function AllOptions(children: seq<Child>): seq<OptionElement>
  {
    if children == [] then []
    else
      var last := children[|children| - 1];
      AllOptions(children[..|children| - 1]) + ChildOptions(last)
  }

  function ChildOptions(c: Child): seq<OptionElement>
  {
    match c
    case OptionChild(o) => [o]
    case OptGroupChild(g) => g.options
  }

  predicate InChild(o: OptionElement, c: Child)
  {
    o in ChildOptions(c)
  }

  /** `querySelectorAll('OPTGROUP')`: the option groups, in document order. */
  function OptGroups(children: seq<Child>): seq<OptGroupElement>
  {
    if children == [] then []
    else
      var last := children[|children| - 1];
      OptGroups(children[..|children| - 1]) + (if last.OptGroupChild? then [last.group] else [])
  }

  /** An option is collected exactly when some child is that option or a group holding it. */
  lemma {:induction false} AllOptionsMembership(children: seq<Child>, o: OptionElement)
    ensures o in AllOptions(children) <==> exists i :: 0 <= i < |children| && InChild(o, children[i])
  {
    if children != [] {
      var n := |children| - 1;
      AllOptionsMembership(children[..n], o);
      if o in AllOptions(children) && !InChild(o, children[n]) {
        var i :| 0 <= i < n && InChild(o, children[..n][i]);
        assert children[i] == children[..n][i];
      }
      if exists i :: 0 <= i < |children| && InChild(o, children[i]) {
        var i :| 0 <= i < |children| && InChild(o, children[i]);
        if i < n {
          assert InChild(o, children[..n][i]);
        }
      }
    }
  }

  /** A group is collected exactly when it is one of the children. */
  lemma {:induction false} OptGroupsMembership(children: seq<Child>, g: OptGroupElement)
    ensures g in OptGroups(children) <==> OptGroupChild(g) in children
  {
    if children != [] {
      var n := |children| - 1;
      OptGroupsMembership(children[..n], g);
      assert children == children[..n] + [children[n]];
    }
  }

  /**
   * The index that `select.value = v` selects, per the HTML standard's rule
   * for a single select: the first option whose value is `v`, or -1.
   */
  function IndexOfValue(options: seq<OptionElement>, v: string): (r: int)
    ensures -1 <= r < |options|
    ensures r >= 0 ==> options[r].value == v && forall j :: 0 <= j < r ==> options[j].value != v
    ensures r == -1 <==> forall j :: 0 <= j < |options| ==> options[j].value != v
  {
    if options == [] then -1
    else if options[0].value == v then 0
    else
      var k := IndexOfValue(options[1..], v);
      if k == -1 then -1 else k + 1
  }

  class SelectElement {
    var children: seq<Child>
    var selectedIndex: int
    /** Every event dispatched on the select so far, oldest first. */
    var events: seq<ChangeEvent>

    ghost predicate Valid()
      reads this
    {
      -1 <= selectedIndex < |AllOptions(children)|
    }

    constructor (children: seq<Child>, selectedIndex: int)
      requires -1 <= selectedIndex < |AllOptions(children)|
      ensures Valid()
      ensures this.children == children && this.selectedIndex == selectedIndex && events == []
    {
      this.children := children;
      this.selectedIndex := selectedIndex;
      events := [];
    }

    /** `select.value = v`. */
    method SetValue(v: string)
      requires Valid()
      modifies this`selectedIndex
      ensures Valid()
      ensures selectedIndex == IndexOfValue(AllOptions(children), v)
    {
      selectedIndex := IndexOfValue(AllOptions(children), v);
    }

    /** `dispatchEvent` of an event made by `initEvent("change", false, true)`, while the widget's open flag is `widgetOpen`. */
    method DispatchChange(widgetOpen: bool)
      modifies this`events
      ensures events == old(events) + [ChangeEvent("change", false, true, widgetOpen, selectedIndex)]
    {
      events := events + [ChangeEvent("change", false, true, widgetOpen, selectedIndex)];
    }

    /** The host page rewriting the select's content (what `reload` exists for). */
    method Replace(newChildren: seq<Child>, newSelectedIndex: int)
      requires -1 <= newSelectedIndex < |AllOptions(newChildren)|
      modifies this`children, this`selectedIndex
      ensures Valid()
      ensures children == newChildren && selectedIndex == newSelectedIndex
    {
      children := newChildren;
      selectedIndex := newSelectedIndex;
    }
  }
}
