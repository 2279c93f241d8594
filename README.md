# Filtered select widget — a Dafny model

This project models how the filtered select widget manages its options and its selection. The widget replaces a native `<select>` with three parts:

- a display button;
- a dropdown with a search box;
- a list of option buttons that can be filtered, optionally grouped under OPTGROUP titles.

The repository ships the widget twice:

- **`FilteredSelect`** (`filtered-select-element.js`) is a custom element, a class whose methods update its fields. The model is module `Element`, class `FilteredSelect`.
- **`_filtered_select`** (`filtered_select.js`) is the traditional version, a closure whose inner functions reassign captured variables. The model is module `Traditional`, class `Widget`.

It also has a theme helper (`template.js`). `createFilteredSelectTheme` merges a custom object over a copy of the default settings, and the dark and rounded example themes are built with it. The model is module `Theme`.

The other modules are shared:

| module | what it holds |
|---|---|
| `Backing` | The native select: its children (options and option groups), its `selectedIndex`, and the log of events dispatched on it. `select.value = v` selects the first option with value `v`, or none. |
| `Options` | The snapshot the widget keeps. In flat mode it is every option as an item. In group mode it is one group per OPTGROUP that has options. |
| `Filter` | The search: lower-case the term, keep the items whose lower-cased text contains it, drop the groups left empty. |
| `Render` | What a rebuild shows: one button per item, which buttons are highlighted, the display text, the scroll "backoff", and the first group container that contains a scroll offset. |
| `Text` | ASCII lower-casing, `includes` and `indexOf`. |

Layout geometry is an input of type `Render.Layout`:

- `offsetTop` and `clientHeight` of each button and each group container;
- the `clientHeight` of the results viewport;
- the `scrollTop` left after the results are replaced.

The scroll offset seen by the scroll handlers is a parameter.

The handlers of both implementations are methods. Each states the widget's new state in terms of specification functions:

- `Built` is the state a rebuild leaves, stated with `Refresh`, `RenderView`, `DisplayAfter`, `ScrollAfter` and the group lookup.
- `Loaded` is the snapshot a load produces, stated with `Load`.

The lemmas then prove what those functions promise: highlight if and only if selected, the display text is the last highlighted item's text, the scroll goes to the first highlighted item, and filters are sound, complete and keep order.

The two implementations differ in several observable ways. The model keeps each difference.

- **Result click.** `result_clicked` closes the dropdown and dispatches a change event on every click in the results. The element does both only for a target with `data-value`.
- **Close button.** The traditional close button hides the dropdown but leaves `opened` set. A later background click or Escape clears it (`Traditional.CloseThenBackgroundClick`).
- **Escape.** The element closes on key `"Escape"` in every case. The traditional widget acts on code 27 or key `"Escape"`, and only through `background_clicked`, so only while `opened` is set.
- **No group to show.** The element's `findGroupName` returns `''` when no group is rendered. The traditional `find_group_name` reads `els_groups[0]` and throws a TypeError. The model returns `None` there, and each handler returns `ok == false` and leaves undone what the source skips:
  - `activate_dropdown` shows the dropdown but does not set `opened`, and the click then bubbles to the background handler;
  - the label keeps its text.
  This happens when a search in group mode matches nothing, or when every OPTGROUP is empty.
- **Group label in flat mode.** The traditional widget hides the group label inside the per-button loop, so with zero results the label keeps its visibility. The element hides it unconditionally.

The model also follows the code on three further points:

- **Label text.** Item labels are the options' text as is. An empty label is not replaced by the value.
- **Event order.** Both implementations set the select's value and close the dropdown before they dispatch the change event. Each logged event records the select's `selectedIndex` at dispatch, which a `change` listener reads, and the widget's open flag. For the element that flag is its public `opened` field, so a listener can read it too. For the traditional widget it is the closure-local `opened`, which listeners cannot see (`el_select.widget` exposes only `reload`); there the recorded `false` agrees with what they can see, a hidden dropdown. The result-click contracts state both.
- **Display after reload.** `reload` clears the display itself, then renders. The render first refreshes the cached value from `selectedIndex` whenever that index is not -1.
  - With an index of -1 and a cached value that no option holds any more, nothing is highlighted and the display stays empty (`Render.StaleSelectionShowsNothing`).
  - In flat mode with an index set, the display shows the text of the last option holding the selected option's value (`Render.ReloadShowsSelectedOption`).

## Model

| member | source | states |
|---|---|---|
| Text.Lower | filtered-select-element.js:459 | `toLowerCase` acts character by character: same length, each character lowered |
| Text.Contains | filtered-select-element.js:468 | `includes`: the term is a prefix of the string or of one of its suffixes (no ensures; see `ContainsIffOccurs`) |
| Text.ContainsIffOccurs | filtered-select-element.js:468 | `includes(term)` holds exactly when the term occurs at some position |
| Text.IndexOf | filtered_select.js:144 | `indexOf` is the first position where the term occurs, or -1 when it occurs nowhere |
| Text.IndexOfFoundIffContains | filtered_select.js:161 | `indexOf(term) !== -1` is the same test as `includes(term)` |
| Backing.AllOptions | filtered-select-element.js:289 | the options in document order: each loose option, and each group's options in place (no ensures; its meaning is proved in the membership lemma below) |
| Backing.OptGroups | filtered-select-element.js:258 | the child OPTGROUPs in document order (no ensures; see the membership lemma below) |
| Backing.AllOptionsMembership | filtered-select-element.js:289 | `querySelectorAll('OPTION')` collects exactly the options that are children or inside a child group |
| Backing.OptGroupsMembership | filtered-select-element.js:258 | `querySelectorAll('OPTGROUP')` collects exactly the child groups |
| Backing.IndexOfValue | filtered-select-element.js:362 | `select.value = v` selects the first option whose value is v, or -1 when none has it |
| Backing.SelectElement.SetValue | filtered-select-element.js:362 | the select's index becomes that first matching option |
| Backing.SelectElement.Replace | filtered-select-element.js:515-521 | the host page rewriting the select's options and selection, the change `reload` is there to pick up: the select stays well formed with exactly the new content |
| Backing.SelectElement.DispatchChange | filtered-select-element.js:505-509 | exactly one event is appended to the log: `change`, not bubbling, cancelable, recording the widget's open flag and the select's `selectedIndex` at that moment |
| Options.HasOptGroups | filtered-select-element.js:258-259 | the group test: the OPTGROUP list is not empty (no ensures; see `HasOptGroupsIff`) |
| Options.HasOptGroupsIff | filtered-select-element.js:257-260 | group mode holds exactly when some child is an OPTGROUP, even an empty one |
| Options.Load | filtered-select-element.js:262-298 | `loadOptionsData` from scratch: the snapshot's shape is group mode exactly when `hasGroups` |
| Options.ToItems | filtered-select-element.js:289-296 | flat loading keeps every option, in order, as (text, value) |
| Options.LoadGroups | filtered-select-element.js:265-287 | every loaded group has at least one option |
| Options.LoadGroupsComplete | filtered-select-element.js:268-286 | every OPTGROUP that has options is loaded as a group with its name and its options in order |
| Options.LoadGroupsSound | filtered-select-element.js:268-286 | every loaded group comes from an OPTGROUP that has options |
| Options.LoadGroupsInOrder | filtered-select-element.js:268-286 | loaded groups keep document order |
| Options.GroupedLoadCollectsGroupedOptions | filtered-select-element.js:265-287 | group mode collects exactly the grouped options, in order; loose options are not collected |
| Options.LoadFlatOptions | filtered-select-element.js:289-296 | the flat loop pushes every option in order |
| Options.LoadGroupedOptions | filtered-select-element.js:265-287 | the nested loop builds exactly the non-empty groups |
| Filter.Matches | filtered-select-element.js:468 | the per-option test: the empty term, or the lower-cased label containing the term (no ensures; it is the definition the filter lemmas use) |
| Filter.FilterItems | filtered-select-element.js:481-485 | the flat filter from the back, in order (no ensures; its meaning is proved in the lemmas below) |
| Filter.Apply | filtered-select-element.js:458-486 | `filterOptions` on a snapshot: the result has the snapshot's shape |
| Filter.FilterItemsMembership | filtered-select-element.js:481-485 | an item survives if and only if it was there and its lower-cased text contains the term |
| Filter.FilterItemsInOrder | filtered-select-element.js:481-485 | survivors keep their relative order |
| Filter.FilterItemsEmptyTerm | filtered-select-element.js:482 | the empty term keeps every item |
| Filter.FilterItemsIdempotent | filtered-select-element.js:481-485 | filtering the filtered list again with the same term changes nothing |
| Filter.FilterItemsAppend | filtered-select-element.js:481-485 | each item is decided on its own: filtering distributes over concatenation |
| Filter.FilterGroup | filtered-select-element.js:464-476 | one group filtered: it keeps its name and holds exactly its matching options, in order, possibly none (no ensures; a definition the group lemmas use) |
| Filter.FilterGroupsComplete | filtered-select-element.js:463-479 | a group with at least one matching option survives, with exactly its matching options |
| Filter.FilterGroupsSound | filtered-select-element.js:463-479 | a surviving group is some group with its options filtered, and it is not empty |
| Filter.FilterGroups | filtered-select-element.js:473-478 | no surviving group is empty |
| Filter.FilterGroupsInOrder | filtered-select-element.js:463-479 | surviving groups keep their order |
| Filter.FilterGroupsEmptyTerm | filtered-select-element.js:468 | the empty term keeps every non-empty group unchanged |
| Filter.FilterGroupsAppend | filtered-select-element.js:463-479 | groups are decided one by one: filtering distributes over concatenation |
| Filter.ApplyEmptyTermToLoad | filtered-select-element.js:458-489 | on a freshly loaded snapshot the empty term is the identity, in both modes |
| Filter.FlatExample | tests/nightwatch/modern-filtered-select.test.js:119-133 | "o" over One…Five keeps exactly One, Two, Four, in that order |
| Filter.GroupedExample | tests/nightwatch/modern-filtered-select.test.js:233-247 | "a" keeps the Letters group whole and drops Numbers |
| Render.Mark | filtered-select-element.js:413-443 | one result button, grouped or flat: the item's text and value, highlighted exactly when its value is the cached selection; the traditional widget builds its buttons by the same rule (filtered_select.js:100, 117) (no ensures; a definition) |
| Render.RenderItemsPointwise | filtered-select-element.js:431-443 | the k-th button shows the k-th item and is highlighted exactly when its value is the cached selection |
| Render.ViewItemsOfRender | filtered-select-element.js:399-446 | in both modes the buttons are the snapshot's items in document order |
| Render.Refresh | filtered-select-element.js:393-395 | the cached value becomes the selected option's value when `selectedIndex >= 0`, and is kept otherwise (no ensures; a definition) |
| Render.RenderItems | filtered-select-element.js:431-443 | one button per item, same length as the items; each button's text, value and highlight are given by `RenderItemsPointwise` |
| Render.RenderGroups | filtered-select-element.js:400-426 | one titled container per group, same length as the groups, each holding its group's buttons |
| Render.LastHighlighted | filtered-select-element.js:417-418 | the display text the overwriting loop leaves: the last highlighted button's text, or none (no ensures; see `LastHighlightedIsLast`) |
| Render.FirstHighlighted | filtered-select-element.js:448 | `querySelector` of the selected class: the index of the first highlighted button, always a valid index |
| Render.Boxes | filtered-select-element.js:493-497 | the result's children as the scroll lookup sees them: none in flat mode, one per rendered group in group mode |
| Render.Within | filtered-select-element.js:496-497 | the inclusive test `offsetTop <= scrollTop <= offsetTop + clientHeight` (no ensures; a definition) |
| Render.RenderView | filtered-select-element.js:399-446 | the rendered view is grouped or flat as the snapshot is (no ensures; see `ViewItemsOfRender`) |
| Render.DisplayAfter | filtered-select-element.js:417-418 | the display after a render: the last highlighted item's text, else the old text (no ensures; see `DisplayShowsSelectedText`) |
| Render.Backoff | filtered-select-element.js:450-453 | `offsetTop - clientHeight - results.clientHeight / 2` of one button (no ensures; a definition) |
| Render.ScrollAfter | filtered-select-element.js:448-455 | the scroll after a render: the first highlighted button's backoff, else the post-rebuild scroll (no ensures; see `ScrollFollowsSelection`) |
| Render.HighlightIffSelected | filtered-select-element.js:417-420 | a button is highlighted if and only if its value equals `selected`, and it shows the item's text |
| Render.LastHighlightedIsLast | filtered-select-element.js:417-420 | the tracked display text is the text of the last highlighted button, and nothing when none is highlighted |
| Render.FirstHighlightedIsFirst | filtered-select-element.js:448-449 | `querySelector` of the selected class finds the first highlighted button |
| Render.DisplayShowsSelectedText | filtered-select-element.js:417-420 | after a render the display shows the last item holding the selection, or keeps its text when no item holds it |
| Render.ScrollFollowsSelection | filtered-select-element.js:448-455 | the scroll is set to the first selected item's backoff, and left as the rebuild left it when nothing is selected |
| Render.FirstWithin | filtered-select-element.js:495-500 | the first container whose inclusive extent holds the offset, or none when no container holds it |
| Render.LoadedItemsComeFromOptions | filtered-select-element.js:262-298 | every loaded item is the text and value of one of the select's options |
| Render.StaleSelectionShowsNothing | filtered-select-element.js:516-521 | when `reload` runs with `selectedIndex == -1` and the cached value belongs to no option, the render keeps that value, highlights nowhere, and the cleared display stays empty |
| Render.ReloadShowsSelectedOption | filtered-select-element.js:393-395 | when `reload` runs in flat mode with `selectedIndex == i`, the cached value becomes option i's value and the display shows the text of the last option holding that value |
| Render.RenderResults | filtered-select-element.js:397-446 | the render loop produces `RenderView` and tracks the last highlighted text |
| Render.RenderGroupContainers | filtered-select-element.js:400-426 | the group loop renders one titled container per group |
| Render.RenderButtons | filtered-select-element.js:431-443 | the button loop renders one button per item and tracks the last highlighted text |
| Render.LastHighlightedAppend | filtered-select-element.js:417-420 | across two runs of buttons the display text comes from the second run when it highlights anything |
| Element.GroupName | filtered-select-element.js:491-503 | the title of the first container holding the offset, else the first title, else `''` (no ensures; see `GroupNameIsShownTitle`) |
| Element.GroupNameIsShownTitle | filtered-select-element.js:491-503 | the active group is always one of the rendered titles when a group is rendered, and `''` when none is |
| Element.FindGroupName | filtered-select-element.js:491-503 | the title of the first container holding the offset; else the first title; else `''` |
| Element.FilterList | filtered-select-element.js:481-485 | the flat filter loop computes `FilterItems` |
| Element.FilterGroupList | filtered-select-element.js:462-479 | the grouped filter loop computes `FilterGroups` |
| Element.FilterSnapshot | filtered-select-element.js:458-486 | `filterOptions` filters the full snapshot in its own mode |
| Element.Rebuild | filtered-select-element.js:392-456 | a rebuild refreshes `selected` only when `selectedIndex >= 0`, renders, and sets the display, the scroll and the group label |
| Element.FilteredSelect.constructor | filtered-select-element.js:222-255 | initialisation runs the group test and the load; the display shows the option at `selectedIndex` when there is one; the dropdown is closed |
| Element.FilteredSelect.CheckForGroups | filtered-select-element.js:257-260 | `hasGroups` holds exactly when the select has an OPTGROUP |
| Element.FilteredSelect.LoadOptionsData | filtered-select-element.js:262-298 | the snapshot is reloaded from scratch in the current mode |
| Element.FilteredSelect.DetectAndLoad | filtered-select-element.js:241-244 | after the group test and the load, the state is `Loaded` |
| Element.FilteredSelect.Built | filtered-select-element.js:392-456 | the state `buildResults(shown)` leaves: refreshed selection, rendered view, display, scroll backoff and group label (a predicate the handlers' ensures use) |
| Element.FilteredSelect.Loaded | filtered-select-element.js:257-298 | the mode and snapshot that the group test and the load give for the select's current children (a predicate) |
| Element.FilteredSelect.BuildResults | filtered-select-element.js:392-456 | the new state is `Built`; the mode, the snapshot, the search text and `opened` are unchanged |
| Element.FilteredSelect.FilterOptions | filtered-select-element.js:458-489 | renders the full snapshot filtered by the lower-cased search text, never the previous result |
| Element.FilteredSelect.HandleSearchChange | filtered-select-element.js:353-355 | a keyup re-filters from the full snapshot with the typed text |
| Element.FilteredSelect.ActivateDropdown | filtered-select-element.js:377-385 | shows the dropdown, clears the search, renders the unfiltered snapshot and sets `opened` |
| Element.FilteredSelect.CloseDropdown | filtered-select-element.js:387-390 | hides the dropdown and clears `opened` |
| Element.FilteredSelect.HandleBackgroundClick | filtered-select-element.js:332-336 | a background click closes only when `opened` |
| Element.FilteredSelect.HandleKeyup | filtered-select-element.js:347-351 | Escape always closes; other keys change nothing |
| Element.FilteredSelect.DispatchChangeEvent | filtered-select-element.js:505-513 | one `change` event, not bubbling, cancelable, on the select, seen with the widget's current open flag and index |
| Element.FilteredSelect.HandleResultClick | filtered-select-element.js:357-369 | with `data-value`, it sets the select's value and the display, closes, and only then fires one event, which sees the widget closed and the new index; without it, nothing changes |
| Element.FilteredSelect.HandleResultScroll | filtered-select-element.js:371-375 | in group mode the label becomes the active group at the new offset |
| Element.FilteredSelect.Reload | filtered-select-element.js:516-521 | clears the display, re-detects the mode, reloads from scratch and renders everything |
| Element.FilteredSelect.ReloadData | filtered-select-element.js:517-519 | after the first three steps of `reload` the state is `Loaded` and the display is `''` |
| Element.ReplaceThenReload | filtered-select-element.js:516-521 | after the page rewrites the select and calls `reload`, the mode and the snapshot are those of the new content, the cached value is refreshed from the new index, and the display starts from `''` |
| Element.ReloadTwice | filtered-select-element.js:516-521 | a second reload of an unchanged select leaves the same snapshot, selection, rendered results and display text as the first |
| Traditional.GroupName | filtered_select.js:232-241 | the same lookup with `None` where `els_groups[0]` throws (no ensures; see `GroupNameAgreesWithElement`) |
| Traditional.BuildSucceeds | filtered_select.js:85-110 | `build_results` completes unless it renders in group mode with no group at all (no ensures; a definition) |
| Traditional.GroupNameAgreesWithElement | filtered_select.js:232-241 | the lookup fails exactly when no group is rendered; otherwise it agrees with the element's |
| Traditional.FindGroupName | filtered_select.js:232-241 | the same inclusive test; the fallback to the first group; `None` (the TypeError) exactly when there is no group |
| Traditional.SearchItems | filtered_select.js:159-165 | the `indexOf` loop computes `FilterItems` |
| Traditional.SearchGroups | filtered_select.js:139-157 | the nested `indexOf` loops compute `FilterGroups` |
| Traditional.Search | filtered_select.js:135-167 | `search_changed` filters the full snapshot in its own mode |
| Traditional.LoadedBuildSucceeds | filtered_select.js:85-110 | rendering the loaded snapshot fails exactly in group mode with every OPTGROUP empty |
| Traditional.Rebuild | filtered_select.js:80-133 | same refresh, highlight, display and backoff as the element; the label shown per mode; `ok` is false exactly when group mode has no group |
| Traditional.Widget.constructor | filtered_select.js:3-14 | the initial display is the text of the option at `selectedIndex`; the closure runs the group test and the load; the dropdown is closed |
| Traditional.Widget.GroupTest | filtered_select.js:24-32 | caches the OPTGROUP list; group mode holds exactly when that list is not empty |
| Traditional.Widget.LoadOptionsData | filtered_select.js:34-68 | loads the cached groups in group mode, or every option in flat mode |
| Traditional.Widget.DetectAndLoad | filtered_select.js:249-250 | after the group test and the load, the state is `Loaded` |
| Traditional.Widget.Built | filtered_select.js:80-133 | the state `build_results(shown)` leaves; the label keeps its text where the lookup throws, and in flat mode keeps its visibility when nothing is rendered (a predicate the handlers' ensures use) |
| Traditional.Widget.Loaded | filtered_select.js:24-68 | the mode, the cached OPTGROUP list and the snapshot that the group test and the load give (a predicate) |
| Traditional.Widget.BuildResults | filtered_select.js:80-133 | the new state is `Built`; `ok` tells whether the group lookup threw |
| Traditional.Widget.ActivateDropdown | filtered_select.js:70-78 | shows the dropdown, clears the search and renders; sets `opened` only if the render did not throw |
| Traditional.Widget.DisplayClicked | filtered_select.js:253-254 | when activation throws, the click reaches the background handler |
| Traditional.Widget.SearchChanged | filtered_select.js:135-167 | renders the full snapshot filtered by the lowered text |
| Traditional.Widget.ResultClicked | filtered_select.js:169-187 | always closes, then fires one change event, which sees the widget closed and the current index; sets the value and the display first, only with `data-value` |
| Traditional.Widget.BackgroundClicked | filtered_select.js:189-194 | closes only when `opened` |
| Traditional.Widget.CloseClicked | filtered_select.js:258-260 | hides the dropdown and keeps `opened` |
| Traditional.Widget.EscapeKeyup | filtered_select.js:262-266 | code 27 or key Escape closes only when `opened`; otherwise nothing changes |
| Traditional.Widget.ResultScrolled | filtered_select.js:243-247 | in group mode the label becomes the active group; with no group it throws and keeps its text |
| Traditional.Widget.Reload | filtered_select.js:270-275 | clears the display, re-runs the group test, the load and the render |
| Traditional.Widget.ReloadData | filtered_select.js:271-273 | after the first three steps of `reload` the state is `Loaded` and the display is `''` |
| Traditional.ReloadTwice | filtered_select.js:270-275 | a second reload of an unchanged select leaves the same snapshot, selection, rendered results, display text and outcome as the first |
| Traditional.CloseThenBackgroundClick | filtered_select.js:258-260 | after the close button `opened` is still set; the next background click clears it |
| Theme.DefaultTheme | template.js:10-41 | the default theme: the 21 CSS settings with their default values and the style generator (a constant; see `DefaultThemeKeys`) |
| Theme.DarkOverrides | template.js:238-251 | the settings the dark theme passes to `createFilteredSelectTheme` (a constant) |
| Theme.DarkTheme | template.js:238-251 | the dark overrides merged over the defaults (a constant; see `DarkThemeColours`, `DarkThemeKeepsDefaults`) |
| Theme.RoundedOverrides | template.js:253-263 | the settings the rounded theme passes to `createFilteredSelectTheme` (a constant) |
| Theme.RoundedTheme | template.js:253-263 | the rounded overrides merged over the defaults (a constant; see `RoundedThemeShapes`, `RoundedThemeKeepsDefaults`) |
| Theme.DefaultThemeKeys | template.js:10-41 | the defaults define every named setting, each as CSS except `generateStyles` |
| Theme.OtherNeverSpellsADefault | template.js:10-41 | every default property's name is listed, and no `Other` key has such a name, so a custom value for a default property always lands on that property's key |
| Theme.Merged | template.js:225-235 | the defaults with each custom key overriding (no ensures; see `MergedValues`) |
| Theme.MergedValues | template.js:225-235 | custom keys, including unknown ones, take the custom value; every other default key keeps its default |
| Theme.CreateTheme | template.js:225-235 | the copy-then-assign loop builds exactly the merged theme, whatever order the keys come in |
| Theme.NoArgumentGivesDefaults | template.js:225-227 | with no argument the result equals the defaults |
| Theme.ExampleThemesKeepTheKeys | template.js:238-263 | the dark and rounded themes have exactly the default keys |
| Theme.DarkThemeColours | template.js:238-251 | the dark theme has background `#333`, text `#eee`, selected `#0066cc` and radius `4px` |
| Theme.DarkThemeKeepsDefaults | template.js:238-251 | the dark theme keeps font size `14px`, border width, item padding, transition and the generator |
| Theme.RoundedThemeShapes | template.js:253-263 | the rounded theme has radius `20px`, font size `16px`, its item padding, shadow and transition |
| Theme.RoundedThemeKeepsDefaults | template.js:253-263 | the rounded theme keeps background `white`, text `black`, border width and the generator |

## Left out

- Markup and styles are not modelled: `render` (filtered-select-element.js:46-220), `build_widget` (filtered_select.js:202-230) and the CSS text of `generateStyles` (template.js:43-221). A theme's `generateStyles` entry is the opaque value `StyleGenerator`.
- Event plumbing is not modelled: listener registration and removal, `focus()`, `stopPropagation`/`preventDefault`, `handleWidgetClick` (filtered-select-element.js) and `widget_clicked` (filtered_select.js:196-199). The bubbling those calls stop appears only in `Traditional.Widget.DisplayClicked`. For the element, the display and chevron handlers are `ActivateDropdown` and the close handler is `CloseDropdown`.
- `dispatchChangeEvent` (filtered-select-element.js:505-513) and `result_clicked` (filtered_select.js:179-186) keep only their `createEvent` branch. Their `fireEvent("onchange")` branches for old browsers (filtered-select-element.js:511, filtered_select.js:185) are left out. An event records its flags, the select's `selectedIndex` and the widget's open flag at dispatch; the traditional widget's flag is internal to its closure. Other state a listener could read, such as the display text, is not recorded.
- Inputs the model does not compute:
  - Slot discovery and the `widget` back-reference are left out, and the select is assumed present.
  - Layout is an input: offsets, heights and the `scrollTop` left after the results are replaced. The browser's clamping of `scrollTop` is not modelled.
  - The viewport's `/ 2` is integer halving, where the source uses floating point.
- Text.Lower: lowers ASCII letters only. Full Unicode case folding is not modelled.
- Option text: an option's `text` and `innerText` are taken as the same string.
- The traditional widget's DOM node references: `els_optgroups` caches OPTGROUP nodes, and `load_options_data` reads each group's options from that cached node's current children. The model caches OPTGROUP values and reads each group's options from the cached value's `options`. The two agree whenever the group test and the load run back to back, as they always do, with no change to the select in between.
- Element.FilteredSelect.Reload and Traditional.Widget.Reload: both render the full snapshot even when a search term is still in the box. So does the source, and the model does not change it.
- Disabled, placeholder and `setTheme` behaviour: the themed tests expect it, but neither source file implements it.
- Theme keys: the names the defaults define are constructors of `Theme.Key`. Any other name is `Other(name)`, where `name` has type `ExtraName`, which excludes the default names. The model does not parse property-name strings into keys.
