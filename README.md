# react-gears widget state, in Dafny

This project models the state bookkeeping behind four widgets of the react-gears
component library, and proves what that bookkeeping promises.

- **List** (`ListComponent`, `list_component.dfy`). The selection is a finite map
  from an item's key (the caller's `selectedKeyMapper`) to the item. Class `List`
  holds it and changes it in place with `add`, `remove`, `clear` and `replace`.
  On top of these sit the per-item toggle, the select-all button, the prune
  effect that drops entries whose item has left `items`, and the wholesale
  replacement by a new `selected` prop. Checkbox and switch lists treat the
  selection as a set; radio lists and lists without a control treat it like a
  radio button. Pure predicates decide the select-all box (checked, disabled,
  indeterminate) and whether the header shows. The sort state is a property and
  a direction; a guard decides when `onSort` hears about it. Each method is
  proved against a function of the old state (`Toggled`, `SelectAllResult`,
  `Pruned`, `SelectionOf`), and lemmas prove what those functions promise:
  no dangling selection after pruning, the tri-state select-all box agreeing
  with the selection, select-all flipping the box, toggles being idempotent,
  and checkbox/switch toggles of different items commuting.
- **SortableTable** (`SortableTableComponent`, `sortable_table.dfy`). `render`
  copies the columns, puts a select column in front when `rowSelected` is given
  and an expand column at the back when `onExpand` is given. It then lays out the
  colgroup, the header row, three row slots per data row (the main row, plus a
  hidden spacer row and a full-width detail row when the row is expanded) and the
  footer. Markup is reduced to class-name tokens, widths, keys, spans and which
  optional parts are present.
- **BlockPanel** (`BlockPanelComponent`, `block_panel.dfy`). The panel keeps two
  booleans, `open` and `closed`. They are driven by the toggle, the collapse's
  exit callback and changes of the `open` prop. Two display predicates are read
  off them.
- **ExpandableSection** (`ExpandableSectionComponent`, `expandable_section.dfy`).
  A single `open` flag, flipped by a header click; the content shows while open.

`wrappers.dfy` holds the `Option` type used for props that may be undefined.

The code behaves as follows where one might expect otherwise:

- Select-all pressed twice returns to the original selection only when that
  selection was empty or full. A partial selection becomes full, then empty
  (`SelectAllTwice`).
- A radio list clears and re-adds only when the clicked item is not yet
  selected. Clicking the selected item changes nothing (`Toggled`).
- `onSort` is compared against the current `sort` prop, not against the last
  value it was sent (`SortNotification`).
- The panel keeps two booleans, `open` and `closed`, and nothing ties them
  together. `onClosed` arriving while the panel is open would leave
  `open && closed`. The model states that each transition except `onClosed`
  establishes or preserves `open ==> !closed`, and that `onClosed` does so
  only when the panel is closed.

## Model

| member | source | states |
|---|---|---|
| `ListComponent.KeysOf` | src/components/List/List.tsx:93 | a key is in the set exactly when some item has it |
| `ListComponent.SelectionOf` | src/components/List/List.tsx:78-85 | the selection built from a list has exactly the list's keys, files every entry under its own key, and holds only listed items |
| `ListComponent.Added` | src/components/List/List.tsx:81 | `add` makes the item's key present, files a new key under the item, and leaves every other entry alone |
| `ListComponent.Toggled` | src/components/List/List.tsx:103-111 | checkbox/switch: `checked` adds the key and unchecked removes it, with no other key touched; other modes: an unselected item becomes the only selection, a selected one leaves the selection unchanged, and at most one selected stays at most one |
| `ListComponent.SelectAllResult` | src/components/List/List.tsx:113-116 | a selection as large as `items` becomes empty; any other becomes the selection built from `items`: exactly their keys, each filed under its own item |
| `ListComponent.Pruned` | src/components/List/List.tsx:92-95 | an entry stays exactly when its item's key occurs among `items`; kept entries are unchanged; every remaining key occurs among `items` |
| `ListComponent.Checked` | src/components/List/List.tsx:143 | a checked select-all box is never disabled |
| `ListComponent.Disabled` | src/components/List/List.tsx:144 | the select-all box is disabled exactly when there are no items |
| `ListComponent.Indeterminate` | src/components/List/List.tsx:99 | an indeterminate box is neither checked nor disabled, and the selection is nonempty |
| `ListComponent.ShowHeader` | src/components/List/List.tsx:132-138 | the header shows whenever `header`, `onFilter` or `onSort` is given, and a checkbox or switch list always shows it for its select-all box; with none of the three, only such a list shows one |
| `ListComponent.AscendingInitial` | src/components/List/List.tsx:119 | the direction is ascending when `sort.ascending` is undefined, else as given |
| `ListComponent.SortNotification` | src/components/List/List.tsx:122-130 | `onSort` is called only when given, and then with the current property and direction; never when the state agrees with the `sort` prop; always when it is given and the state differs |
| `ListComponent.List.constructor` | src/components/List/List.tsx:78-85 | the selection starts as the `selected` items under their keys; the sort state starts from the `sort` prop and so triggers no `onSort` |
| `ListComponent.List.Has` | src/components/List/List.tsx:80 | in a well-formed list, an item counts as selected exactly when some selected item shares its key |
| `ListComponent.List.Add` | src/components/List/List.tsx:81 | the new selection is `Added` of the old one |
| `ListComponent.List.Remove` | src/components/List/List.tsx:82 | the item's key is removed and nothing else changes |
| `ListComponent.List.Clear` | src/components/List/List.tsx:83 | the selection becomes empty |
| `ListComponent.List.Replace` | src/components/List/List.tsx:84 | the selection becomes the given items under their keys |
| `ListComponent.List.HandleSelection` | src/components/List/List.tsx:103-111 | built from `remove`/`add`/`clear`, the new selection is `Toggled` of the old one, still keyed correctly |
| `ListComponent.List.HandleSelectAll` | src/components/List/List.tsx:113-116 | the new selection is `SelectAllResult` of the old one |
| `ListComponent.List.ReceiveSelected` | src/components/List/List.tsx:90 | a new `selected` prop replaces the selection wholesale |
| `ListComponent.List.Prune` | src/components/List/List.tsx:92-95 | the loop that removes stale entries one by one leaves exactly `Pruned` of the old selection |
| `ListComponent.List.SetSortProperty` | src/components/List/List.tsx:118 | the sort header's setter replaces the property |
| `ListComponent.List.SetAscending` | src/components/List/List.tsx:120 | the sort header's setter replaces the direction |
| `ListComponent.KeysOfSize` | src/components/List/List.tsx:93 | there are never more distinct keys than items, and exactly as many when keys are unique |
| `ListComponent.SelectionOfUnique` | src/components/List/List.tsx:114-115 | with unique keys, `replace(items)` holds one entry per item, each under its own key |
| `ListComponent.IndeterminateWhenReconciled` | src/components/List/List.tsx:99 | once every selected key occurs among `items`, the box is indeterminate exactly when 0 < selected < items |
| `ListComponent.CheckedWhenReconciled` | src/components/List/List.tsx:143 | once every selected key occurs among unique-keyed `items`, the box is checked exactly when every item is selected |
| `ListComponent.PrunedIsReconciled` | src/components/List/List.tsx:92-99 | after pruning no key dangles and the indeterminate state is exactly "some but not all selected" |
| `ListComponent.SelectAllFlipsChecked` | src/components/List/List.tsx:113-116 | with unique keys and items present, select-all flips the checked state of the box |
| `ListComponent.SelectAllTwice` | src/components/List/List.tsx:113-116 | with unique keys and items present, two presses restore a full selection and empty every other one, the empty one included |
| `ListComponent.ToggleIdempotent` | src/components/List/List.tsx:103-110 | toggling an item twice with the same `checked` equals toggling it once, in every mode |
| `ListComponent.MultiToggleIsAddOrRemove` | src/components/List/List.tsx:104-106 | in checkbox/switch mode a toggle is an add when `checked` and a removal of the key otherwise |
| `ListComponent.MultiTogglesCommute` | src/components/List/List.tsx:104-106 | in checkbox/switch mode, toggles of items with different keys commute |
| `SortableTableComponent.ClassNames` | src/components/SortableTable.js:11-17 | `classnames` keeps exactly the non-empty arguments, never more tokens than arguments, and no empty token |
| `SortableTableComponent.ClassNamesAppend` | src/components/SortableTable.js:11-17 | `classnames` of concatenated arguments is the tokens of the first part followed by those of the second, so arguments keep their order and multiplicity |
| `SortableTableComponent.GenerateColumnClassName` | src/components/SortableTable.js:11-17 | `text-truncate` first when truncating, `text-<align>` next when aligned, the column's class last; no other token |
| `SortableTableComponent.ExpandColumn` | src/components/SortableTable.js:154-169 | key `expand`, centred, `2rem` wide unless `expandableColumn` overrides the field; its class name, `active`, `ascending`, footer and sort action are exactly what `expandableColumn` gives (none by default); with nothing overridden, exactly the defaults |
| `SortableTableComponent.Assembled` | src/components/SortableTable.js:114-170 | the caller's columns in order, one select column in front exactly when selectable, one expand column at the back exactly when expandable |
| `SortableTableComponent.AssembleColumns` | src/components/SortableTable.js:114-170 | copying then `unshift`/`push` yields `Assembled` |
| `SortableTableComponent.ShowColgroup` | src/components/SortableTable.js:107 | shown whenever selectable or expandable, and otherwise exactly when some column has a width |
| `SortableTableComponent.ColgroupIffSomeWidth` | src/components/SortableTable.js:177-182 | unless `expandableColumn` blanks the expand width, the colgroup shows exactly when some assembled column has a width |
| `SortableTableComponent.SelectColumnLeads` | src/components/SortableTable.js:116-150 | a selectable table's first column is keyed `select`, centred, `2rem` wide, with no footer and no sort action, and its cells are classed `text-center` |
| `SortableTableComponent.ShowFooter` | src/components/SortableTable.js:108 | column footers show exactly when some column has a footer |
| `SortableTableComponent.ShowFooterSection` | src/components/SortableTable.js:203 | the `<tfoot>` is emitted whenever `footer` is given, and otherwise exactly when column footers show |
| `SortableTableComponent.HeaderSortArgument` | src/components/SortableTable.js:193 | a header has a sort action exactly when its column has `onSort`; it requests the opposite direction, undefined counting as descending |
| `SortableTableComponent.HeaderSortAlternates` | src/components/SortableTable.js:193 | a column that adopts the requested direction requests the other one next |
| `SortableTableComponent.TableLayout` | src/components/SortableTable.js:109-112 | a layout in the caller's style wins; otherwise `fixed` exactly when truncating and `auto` otherwise |
| `SortableTableComponent.IsSelected` | src/components/SortableTable.js:24 | a table without `rowSelected` selects no row; with it, a row is selected exactly when `rowSelected(row)` holds |
| `SortableTableComponent.DerivedKey` | src/components/SortableTable.js:34-37 | a derived row key exists exactly when the row has a key, and is that key followed by the suffix |
| `SortableTableComponent.DefaultRenderRow` | src/components/SortableTable.js:19-46 | three slots: a main row with one cell per column; when expanded, a hidden row and a detail row whose one cell spans every column, otherwise two falsy slots; the main row's classes are `table-primary` when selected followed by the caller's `rowClassName(row)` when non-empty, and the detail row's are `table-primary` when selected followed by `tr-expanded` |
| `SortableTableComponent.ColumnsOf` | src/components/SortableTable.js:105-106 | the table lays out n + [selectable] + [expandable] columns |
| `SortableTableComponent.HeaderRow` | src/components/SortableTable.js:186-198 | one header cell per column, with the column's classes, its `active` and `ascending` passed on, and the sort action `HeaderSortArgument` (requesting `!ascending`) exactly on sortable columns |
| `SortableTableComponent.BodyRows` | src/components/SortableTable.js:201 | each row is `defaultRenderRow` of that row over the assembled columns (its key, `table-primary` marking and cell classes); a detail row appears exactly for expanded rows and spans all assembled columns |
| `SortableTableComponent.ColWidths` | src/components/SortableTable.js:177-182 | one `<col>` per assembled column, carrying that column's width |
| `SortableTableComponent.FooterRow` | src/components/SortableTable.js:205-216 | one footer cell per assembled column, classed like the column |
| `SortableTableComponent.DetailSpansEveryColumn` | src/components/SortableTable.js:40 | a detail row's single cell spans the caller's columns plus the added select and expand columns |
| `SortableTableComponent.Render` | src/components/SortableTable.js:98-222 | the layout, and the colgroup (present exactly when `showColgroup`), header row, body rows and column footers (present exactly when `showFooter`) over the assembled columns; the `<tfoot>` exactly when `showFooter` or `footer` |
| `BlockPanelComponent.DefaultOpen` | src/components/BlockPanel.js:41 | the `open` prop defaults to true |
| `BlockPanelComponent.CollapseOpen` | src/components/BlockPanel.js:132 | the collapse is closed without children, always open for a non-expandable panel with children, and otherwise follows `open` |
| `BlockPanelComponent.BodyRendered` | src/components/BlockPanel.js:135 | the body is dropped exactly when the panel is expandable, not `hideOnToggle`, and closed |
| `BlockPanelComponent.OpenCollapseShowsBody` | src/components/BlockPanel.js:132-135 | when `open ==> !closed`, an open collapse always has its body rendered |
| `BlockPanelComponent.BlockPanel.constructor` | src/components/BlockPanel.js:47-54 | `open` as the prop says and `closed` its negation |
| `BlockPanelComponent.BlockPanel.Toggle` | src/components/BlockPanel.js:56-62 | `open` flips; opening clears `closed`, closing leaves it; `onToggle` gets the new `open`; `open ==> !closed` holds afterwards |
| `BlockPanelComponent.BlockPanel.OnClosed` | src/components/BlockPanel.js:64-66 | `closed` becomes true and `open` is unchanged |
| `BlockPanelComponent.BlockPanel.ReceiveProps` | src/components/BlockPanel.js:68-76 | nothing moves unless the `open` prop changed; to true opens and clears `closed`; to false clears `open` only; `open ==> !closed` is preserved |
| `ExpandableSectionComponent.DefaultOpen` | src/components/ExpandableSection.js:46-48 | the `open` prop defaults to false |
| `ExpandableSectionComponent.ExpandableSection.constructor` | src/components/ExpandableSection.js:12-14 | the state starts from the `open` prop |
| `ExpandableSectionComponent.ExpandableSection.Toggle` | src/components/ExpandableSection.js:17 | `open` flips and nothing else changes |
| `ExpandableSectionComponent.ExpandableSection.RenderedContent` | src/components/ExpandableSection.js:35 | the children are rendered exactly while open |
| `ExpandableSectionComponent.ExpandableSection.ToggleTwice` | src/components/ExpandableSection.js:17 | two toggles restore the state |

## Left out

- ListComponent.Added: does not claim what `add` does to an entry already filed under the item's key. The `useMap` hook (src/hooks/useMap) is not part of this model. The body keeps the old entry.
- ListComponent.SelectionOf: with two items sharing a key, does not claim which one is kept. The body keeps the later one, as a JavaScript `Map` built from entries would.
- ListComponent.SortNotification: property arrays are compared by value. JavaScript compares them by reference, so an equal but new array would also trigger `onSort`.
- SortableTableComponent.ClassNames: takes string arguments only. The object and array forms of `classnames` are not modelled, and the result is the token list before it is joined with spaces.
- SortableTableComponent.ExpandColumn: `expandableColumn` can override `ascending` only to a defined value. A spread of an explicit `undefined` is not modelled.
- The `onSelect` notification (List.tsx line 89) passes the selection's values in insertion order. A Dafny map has no order, so only the map is modelled.
- Effect scheduling (`useEffect`, `useDeepCompareEffect`) and `setState` batching are the framework's. Each effect body and each `setState` is one synchronous transition here.
- The DOM write of the `indeterminate` flag through a ref. Only the predicate it writes is modelled.
- `lodash.uniqueid` element ids. They come from a hidden global counter and only name DOM elements.
- JSX markup is not modelled: the list rows, the filter and sort headers, cell, header and footer contents, labels and inputs, panel header classes, icons and their rotation, and the edit button. `FilterHeader`, `SortHeader`, `ListItem`, `Header`, `Collapse` are not part of this model.
- The select column's checkboxes only forward `allSelected`, `onSelectAll` and `onSelect` to the caller. There is no state there to model.
- A caller-supplied `renderRow` replaces `defaultRenderRow`. Only the default renderer is modelled.
- Row keys may be numbers in the source; they are strings here, with "" for a missing key.
- Item expansion in `List` (`item.expanded || false`) only feeds the row renderer. It is not modelled separately.
- Actual sorting and filtering of rows happen outside these components, which only report intent.
