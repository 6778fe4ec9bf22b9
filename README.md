# DetailsList advanced example: grouping and paging engine

This project models the data logic of the advanced DetailsList example of Office UI Fabric React. The example keeps a list of generated rows. It can do four things with that list:

- sort it by a column;
- group it by a column and nest a further grouping level under every leaf group;
- cap how many rows a collapsed group shows;
- simulate lazy loading, which fills empty slots one page at a time from the master rows after a delay.

The model is split into modules:

- `Rows` holds the data rows, the list positions and the string order used for sorting. A position (`Slot`) is either a loaded row or an empty slot of a sparse array.
- `Sorting` holds the sorted copy made by `_groupItems` and `_onSortColumn`.
- `GroupKeys` holds the composite group keys and `_getLeafGroupKey`.
- `Groups` holds `_getGroups`: one pass over a sorted list that cuts it into runs.
- `Regrouping` holds `_groupByKey`, which adds a grouping level to a group tree.
- `Limits` holds `getGroupItemLimit` and the parsing of the typed limit.
- `Paging` holds the page arithmetic and the splice done by the lazy-load refill.
- `View` holds the component: a class with the view state and one method per handler.

`_getGroups`, `_groupByKey` and the column marking in `_onGroupByColumn` are loops that update their data step by step, so they are methods with loops. `_getGroups` and `_groupByKey` are proved against the functions that specify them (`Runs`, `Regroup`), and the properties are proved about those functions as lemmas. The column marking (`MarkGrouped`) states its result directly in its own `ensures`.

A child group's `startIndex` is an absolute position in the list: the code adds the parent's `startIndex` to the position in the slice (line 557), so the model adds `Base(parent)` to every index.

## Model

| member | source | states |
|---|---|---|
| Rows.Items | packages/office-ui-fabric-react/src/components/DetailsList/examples/DetailsList.Advanced.Example.tsx:57-65 | the list of master rows holds each row at its own position |
| Rows.Slice | packages/office-ui-fabric-react/src/components/DetailsList/examples/DetailsList.Advanced.Example.tsx:534 | `slice` with clamped bounds: the plain sub-sequence when in range, otherwise the clamped length |
| Rows.LessTotal | packages/office-ui-fabric-react/src/components/DetailsList/examples/DetailsList.Advanced.Example.tsx:545 | string `<` orders any two different values one way and never both ways |
| Rows.LessTransitive | packages/office-ui-fabric-react/src/components/DetailsList/examples/DetailsList.Advanced.Example.tsx:545 | string `<` is transitive, so the comparator defines a consistent order |
| Rows.LessIrreflexive | packages/office-ui-fabric-react/src/components/DetailsList/examples/DetailsList.Advanced.Example.tsx:545 | no value is below itself |
| Sorting.InOrderTotal | packages/office-ui-fabric-react/src/components/DetailsList/examples/DetailsList.Advanced.Example.tsx:477 | any two slots may be placed one before the other in at least one order |
| Sorting.InOrderTransitive | packages/office-ui-fabric-react/src/components/DetailsList/examples/DetailsList.Advanced.Example.tsx:477 | the order of the sort comparator, with holes last, is transitive |
| Sorting.InsertMultiset | packages/office-ui-fabric-react/src/components/DetailsList/examples/DetailsList.Advanced.Example.tsx:545 | inserting one element adds exactly that element |
| Sorting.InsertSorted | packages/office-ui-fabric-react/src/components/DetailsList/examples/DetailsList.Advanced.Example.tsx:545 | inserting into a list ordered by the comparator keeps it ordered |
| Sorting.SortedCopy | packages/office-ui-fabric-react/src/components/DetailsList/examples/DetailsList.Advanced.Example.tsx:544-546 | the sorted copy has the input's length |
| Sorting.SortedCopyPermutes | packages/office-ui-fabric-react/src/components/DetailsList/examples/DetailsList.Advanced.Example.tsx:544-546 | `_groupItems` returns a permutation of its input |
| Sorting.SortedCopySorted | packages/office-ui-fabric-react/src/components/DetailsList/examples/DetailsList.Advanced.Example.tsx:544-546 | the sorted copy is ordered by the column, holes last: ascending as `_groupItems` sorts, and in either direction as `_onSortColumn` (line 477) sorts |
| Sorting.SortedRowsFirst | packages/office-ui-fabric-react/src/components/DetailsList/examples/DetailsList.Advanced.Example.tsx:545 | in a sorted list the loaded rows form a prefix as long as their number, and only empty slots follow |
| GroupKeys.Split | packages/office-ui-fabric-react/src/components/DetailsList/examples/DetailsList.Advanced.Example.tsx:573 | `split` always yields at least one segment |
| GroupKeys.JoinSplit | packages/office-ui-fabric-react/src/components/DetailsList/examples/DetailsList.Advanced.Example.tsx:573 | joining the segments of a split gives back the string |
| GroupKeys.SplitJoin | packages/office-ui-fabric-react/src/components/DetailsList/examples/DetailsList.Advanced.Example.tsx:573 | splitting a join of separator-free segments gives back the segments |
| GroupKeys.SplitLast | packages/office-ui-fabric-react/src/components/DetailsList/examples/DetailsList.Advanced.Example.tsx:573-574 | the last segment is a separator-free suffix, preceded by the separator unless it is the whole string |
| GroupKeys.SplitAppend | packages/office-ui-fabric-react/src/components/DetailsList/examples/DetailsList.Advanced.Example.tsx:573 | appending `-` and a separator-free value appends exactly one segment |
| GroupKeys.SplitWithoutSeparator | packages/office-ui-fabric-react/src/components/DetailsList/examples/DetailsList.Advanced.Example.tsx:572-575 | a string without the separator splits into itself |
| GroupKeys.LeafKeySpec | packages/office-ui-fabric-react/src/components/DetailsList/examples/DetailsList.Advanced.Example.tsx:570-577 | the leaf key has no separator, is the key itself when the key has none, and is otherwise the suffix after the last separator |
| GroupKeys.LeafKeyOfChild | packages/office-ui-fabric-react/src/components/DetailsList/examples/DetailsList.Advanced.Example.tsx:570-577 | the leaf key of `parent + '-' + value` is `value` for a separator-free value |
| Groups.GetGroups | packages/office-ui-fabric-react/src/components/DetailsList/examples/DetailsList.Advanced.Example.tsx:548-568 | the reduce loop computes `Runs`; every group is opened with the key, name and level of its first row; over loaded rows the groups tile the parent's range; with separator-free values every covered row has its group's leaf key |
| Groups.RunsNext | packages/office-ui-fabric-react/src/components/DetailsList/examples/DetailsList.Advanced.Example.tsx:550 | the groups of one more position are one more `reduce` callback step on the groups so far |
| Groups.StepOpens | packages/office-ui-fabric-react/src/components/DetailsList/examples/DetailsList.Advanced.Example.tsx:553-560 | a row whose value differs from the last group's leaf key, or that comes first, pushes a new group for that value |
| Groups.StepCounts | packages/office-ui-fabric-react/src/components/DetailsList/examples/DetailsList.Advanced.Example.tsx:561-562 | a row with the last group's leaf key only increments that group's count |
| Groups.RunsSpec | packages/office-ui-fabric-react/src/components/DetailsList/examples/DetailsList.Advanced.Example.tsx:548-568 | the partition's fields, tiling, labels and distinct neighbours, gathered |
| Groups.TilingShape | packages/office-ui-fabric-react/src/components/DetailsList/examples/DetailsList.Advanced.Example.tsx:557-558 | a tiling has no groups exactly for an empty range; it starts at the base; each group starts where the previous ends; counts are at least 1 and sum to the length |
| Groups.RunsTile | packages/office-ui-fabric-react/src/components/DetailsList/examples/DetailsList.Advanced.Example.tsx:550-565 | over loaded rows the groups tile `[base, base + length)` |
| Groups.RunsLabelled | packages/office-ui-fabric-react/src/components/DetailsList/examples/DetailsList.Advanced.Example.tsx:553-563 | each row a group covers has the group's leaf key as its value, and neighbouring groups have different leaf keys |
| Groups.NewGroupLeaf | packages/office-ui-fabric-react/src/components/DetailsList/examples/DetailsList.Advanced.Example.tsx:554-560 | a new group's leaf key is the value it was opened for |
| Groups.StepLabelled | packages/office-ui-fabric-react/src/components/DetailsList/examples/DetailsList.Advanced.Example.tsx:551-564 | one callback step over a tiling keeps every covered row labelled with its group's leaf key and keeps neighbours distinct |
| Groups.OpenLabelled | packages/office-ui-fabric-react/src/components/DetailsList/examples/DetailsList.Advanced.Example.tsx:553-560 | opening a group for a new value keeps every row labelled |
| Groups.OpenDistinct | packages/office-ui-fabric-react/src/components/DetailsList/examples/DetailsList.Advanced.Example.tsx:553 | a group is opened only when its value differs from the previous group's leaf key |
| Groups.ExtendLabelled | packages/office-ui-fabric-react/src/components/DetailsList/examples/DetailsList.Advanced.Example.tsx:561-562 | counting a row of the same value into the last group keeps every row labelled |
| Groups.RunsFields | packages/office-ui-fabric-react/src/components/DetailsList/examples/DetailsList.Advanced.Example.tsx:554-560 | key `parent.key + '-' + value` (or `value`), name `column: value`, level parent level + 1 (or 0), no children |
| Groups.StepFields | packages/office-ui-fabric-react/src/components/DetailsList/examples/DetailsList.Advanced.Example.tsx:551-564 | one callback step keeps the group fields right |
| Groups.AllOpenedAtGrows | packages/office-ui-fabric-react/src/components/DetailsList/examples/DetailsList.Advanced.Example.tsx:550 | later rows do not change which row a group was opened for |
| Groups.OpenFields | packages/office-ui-fabric-react/src/components/DetailsList/examples/DetailsList.Advanced.Example.tsx:554-560 | a newly pushed group carries the fields of the row it was opened for |
| Groups.ExtendFields | packages/office-ui-fabric-react/src/components/DetailsList/examples/DetailsList.Advanced.Example.tsx:562 | `count++` changes only the count |
| Groups.OpenedAtGrows | packages/office-ui-fabric-react/src/components/DetailsList/examples/DetailsList.Advanced.Example.tsx:550 | a group's first row stays its first row as the list grows |
| Groups.RunsIgnoreTrailingEmpty | packages/office-ui-fabric-react/src/components/DetailsList/examples/DetailsList.Advanced.Example.tsx:550 | `reduce` skips holes, so trailing empty slots add no groups |
| Regrouping.GroupByKey | packages/office-ui-fabric-react/src/components/DetailsList/examples/DetailsList.Advanced.Example.tsx:526-542 | the loop computes `Regroup`; every group, at every level, keeps its fields except children; the items are a permutation of the leaf slices |
| Regrouping.RegroupKeepsFields | packages/office-ui-fabric-react/src/components/DetailsList/examples/DetailsList.Advanced.Example.tsx:529-539 | at every level of the tree (`SameFields`), groups keep key, name, range and level and only get new children; groups with children recurse |
| Regrouping.RegroupPermutes | packages/office-ui-fabric-react/src/components/DetailsList/examples/DetailsList.Advanced.Example.tsx:529-539 | the returned items are a permutation of the rows of the leaf ranges |
| Regrouping.FlatTreeTiling | packages/office-ui-fabric-react/src/components/DetailsList/examples/DetailsList.Advanced.Example.tsx:537 | groups without children that tile a range are a tree tiling it, and are their own leaves |
| Regrouping.LeafSlicesCover | packages/office-ui-fabric-react/src/components/DetailsList/examples/DetailsList.Advanced.Example.tsx:534 | the leaf ranges of a tree tiling `[lo, hi)` read back exactly `items[lo..hi]` |
| Regrouping.RegroupPermutesItems | packages/office-ui-fabric-react/src/components/DetailsList/examples/DetailsList.Advanced.Example.tsx:526-542 | when the tree tiles the first `n` positions the result has length `n` and is a permutation of those rows |
| Regrouping.ConcatAppend | packages/office-ui-fabric-react/src/components/DetailsList/examples/DetailsList.Advanced.Example.tsx:532-536 | concatenation of parts distributes over appending parts |
| Regrouping.ConcatAt | packages/office-ui-fabric-react/src/components/DetailsList/examples/DetailsList.Advanced.Example.tsx:532-536 | parts as long as the groups of a tiling of `[0, hi)`, concatenated, sit exactly at those groups' ranges |
| Regrouping.SortedSlices | packages/office-ui-fabric-react/src/components/DetailsList/examples/DetailsList.Advanced.Example.tsx:534-535 | one sorted part per leaf |
| Regrouping.SortedSlicesAppend | packages/office-ui-fabric-react/src/components/DetailsList/examples/DetailsList.Advanced.Example.tsx:529 | the per-leaf parts of two leaf lists are appended |
| Regrouping.SortedSlicesOne | packages/office-ui-fabric-react/src/components/DetailsList/examples/DetailsList.Advanced.Example.tsx:534-536 | a single leaf contributes its sorted rows |
| Regrouping.RegroupItemsLeafwise | packages/office-ui-fabric-react/src/components/DetailsList/examples/DetailsList.Advanced.Example.tsx:526-542 | the returned items are the re-sorted leaf slices concatenated in tree order |
| Regrouping.TilingAppend | packages/office-ui-fabric-react/src/components/DetailsList/examples/DetailsList.Advanced.Example.tsx:557 | tilings of adjacent ranges append to a tiling of their union |
| Regrouping.LeavesTile | packages/office-ui-fabric-react/src/components/DetailsList/examples/DetailsList.Advanced.Example.tsx:530-534 | the leaves of a tree tiling a range tile it |
| Regrouping.RegroupLeafInRange | packages/office-ui-fabric-react/src/components/DetailsList/examples/DetailsList.Advanced.Example.tsx:534-535 | a leaf within the list is re-sorted from exactly its own rows |
| Regrouping.SortedSlicesInRange | packages/office-ui-fabric-react/src/components/DetailsList/examples/DetailsList.Advanced.Example.tsx:534-535 | over a tiling, each leaf's part is the sorted copy of its rows and as long as its range |
| Regrouping.RegroupSortsEachLeaf | packages/office-ui-fabric-react/src/components/DetailsList/examples/DetailsList.Advanced.Example.tsx:526-542 | when the tree tiles the first `n` positions, the result has `n` positions and each leaf's range of it holds exactly the sorted copy of the rows it held: each range is permuted only within itself |
| Regrouping.LoadedByCount | packages/office-ui-fabric-react/src/components/DetailsList/examples/DetailsList.Advanced.Example.tsx:181 | a list has no hole exactly when it counts none |
| Regrouping.RegroupLeafSpec | packages/office-ui-fabric-react/src/components/DetailsList/examples/DetailsList.Advanced.Example.tsx:533-538 | a leaf with loaded rows gets at least one child; the children tile its range, have no children, and (separator-free values) are labelled and distinct; its other fields stay |
| Regrouping.FlatRuns | packages/office-ui-fabric-react/src/components/DetailsList/examples/DetailsList.Advanced.Example.tsx:548-568 | the groups of a loaded list under a parent tile the parent's range as a flat tree, with at least one group when there is a row |
| Regrouping.RegroupTiles | packages/office-ui-fabric-react/src/components/DetailsList/examples/DetailsList.Advanced.Example.tsx:526-542 | over loaded rows a tree tiling `[lo, hi)` still tiles it after the new level is added |
| Regrouping.SeparatorFreePermuted | packages/office-ui-fabric-react/src/components/DetailsList/examples/DetailsList.Advanced.Example.tsx:545 | sorting keeps every value free of the separator |
| Regrouping.FirstGrouping | packages/office-ui-fabric-react/src/components/DetailsList/examples/DetailsList.Advanced.Example.tsx:509-511 | the first grouping's loaded rows come first; its groups are those of that prefix and tile it as a flat tree |
| Regrouping.LabelledExtend | packages/office-ui-fabric-react/src/components/DetailsList/examples/DetailsList.Advanced.Example.tsx:550 | rows after all groups' ranges, appended to the list, do not disturb their labels |
| Regrouping.FirstGroupingLabelled | packages/office-ui-fabric-react/src/components/DetailsList/examples/DetailsList.Advanced.Example.tsx:509-511 | with separator-free values each group of the first grouping covers only rows of its key, and neighbours differ |
| Regrouping.PrefixLabelled | packages/office-ui-fabric-react/src/components/DetailsList/examples/DetailsList.Advanced.Example.tsx:550 | the groups of a loaded prefix label that prefix within the whole list, and neighbours differ |
| Limits.ItemLimit | packages/office-ui-fabric-react/src/components/DetailsList/examples/DetailsList.Advanced.Example.tsx:106-112 | with a group: its count when showing all, otherwise the smaller of count and limit, so never above the count; without a group: the list length |
| Limits.LeadingDigits | packages/office-ui-fabric-react/src/components/DetailsList/examples/DetailsList.Advanced.Example.tsx:222 | the longest prefix made of digits |
| Limits.DigitValue | packages/office-ui-fabric-react/src/components/DetailsList/examples/DetailsList.Advanced.Example.tsx:222 | a digit's value is below 10 |
| Limits.ParseLimit | packages/office-ui-fabric-react/src/components/DetailsList/examples/DetailsList.Advanced.Example.tsx:222-225 | input that does not start with a digit gives `DEFAULT_ITEM_LIMIT` (5) |
| Limits.Digit | packages/office-ui-fabric-react/src/components/DetailsList/examples/DetailsList.Advanced.Example.tsx:222 | the digit for `d` has value `d` |
| Limits.Decimal | packages/office-ui-fabric-react/src/components/DetailsList/examples/DetailsList.Advanced.Example.tsx:222 | a rendering is a non-empty run of digits |
| Limits.DigitsValueDecimal | packages/office-ui-fabric-react/src/components/DetailsList/examples/DetailsList.Advanced.Example.tsx:222 | the digits of `n` denote `n` |
| Limits.LeadingDigitsOf | packages/office-ui-fabric-react/src/components/DetailsList/examples/DetailsList.Advanced.Example.tsx:222 | the leading digits of digits followed by a non-digit are those digits |
| Limits.ParseDecimal | packages/office-ui-fabric-react/src/components/DetailsList/examples/DetailsList.Advanced.Example.tsx:222-225 | a typed number, optionally followed by text not starting with a digit, sets exactly that limit |
| Paging.PageStart | packages/office-ui-fabric-react/src/components/DetailsList/examples/DetailsList.Advanced.Example.tsx:151 | the page start is a multiple of `PAGING_SIZE` with `start <= index < start + PAGING_SIZE` |
| Paging.PageStartUnique | packages/office-ui-fabric-react/src/components/DetailsList/examples/DetailsList.Advanced.Example.tsx:151 | it is the only such boundary |
| Paging.RefillSpec | packages/office-ui-fabric-react/src/components/DetailsList/examples/DetailsList.Advanced.Example.tsx:158-160 | a page within the list and the master rows gets the master rows; every other position and the length stay |
| Paging.RefillLoadsMiss | packages/office-ui-fabric-react/src/components/DetailsList/examples/DetailsList.Advanced.Example.tsx:150-164 | on a full-length list, refilling the page of a miss at `index` loads the row at `index` |
| Paging.LazyItemsSpec | packages/office-ui-fabric-react/src/components/DetailsList/examples/DetailsList.Advanced.Example.tsx:181 | lazy items: `ITEMS_COUNT` positions, the first `PAGING_SIZE` master rows, then only empty slots |
| View.Ungrouped | packages/office-ui-fabric-react/src/components/DetailsList/examples/DetailsList.Advanced.Example.tsx:482-490 | rebuilt columns keep their keys and are not grouped |
| View.AdvancedExample.constructor | packages/office-ui-fabric-react/src/components/DetailsList/examples/DetailsList.Advanced.Example.tsx:54-88 | initial state: all master rows in their created order, no groups, default limit, stored sort key `name` ascending, not lazy, not fetching |
| View.AdvancedExample.OnSortColumn | packages/office-ui-fabric-react/src/components/DetailsList/examples/DetailsList.Advanced.Example.tsx:474-494 | items become an ordered permutation of the master rows; groups are cleared; the sort key and direction are stored; nothing else changes |
| View.AdvancedExample.MarkGrouped | packages/office-ui-fabric-react/src/components/DetailsList/examples/DetailsList.Advanced.Example.tsx:514-517 | exactly the columns with the key become grouped; nothing else changes |
| View.AdvancedExample.OnGroupByColumn | packages/office-ui-fabric-react/src/components/DetailsList/examples/DetailsList.Advanced.Example.tsx:496-524 | grouped column: re-sort on the stored key and direction, groups cleared; otherwise `_groupByKey` under existing groups, or a sorted copy (a permutation) with its runs tiling the loaded prefix; matching columns marked grouped; the stored sort key and direction stay, so a later ungroup re-sorts by them |
| View.AdvancedExample.OnDataMiss | packages/office-ui-fabric-react/src/components/DetailsList/examples/DetailsList.Advanced.Example.tsx:150-167 | schedules the page of `index` only when nothing is in flight; the flag is set; the list does not change yet |
| View.AdvancedExample.FinishDataMiss | packages/office-ui-fabric-react/src/components/DetailsList/examples/DetailsList.Advanced.Example.tsx:156-165 | clears the flag and splices the pending page; within bounds exactly that page changes, to master rows |
| View.AdvancedExample.OnToggleLazyLoad | packages/office-ui-fabric-react/src/components/DetailsList/examples/DetailsList.Advanced.Example.tsx:174-183 | flips the mode; on: first page then empty slots, `ITEMS_COUNT` long; off: all master rows |
| View.AdvancedExample.OnItemLimitChanged | packages/office-ui-fabric-react/src/components/DetailsList/examples/DetailsList.Advanced.Example.tsx:221-229 | the limit becomes the parsed value, 5 for input not starting with a digit |
| View.AdvancedExample.OnAddRow | packages/office-ui-fabric-react/src/components/DetailsList/examples/DetailsList.Advanced.Example.tsx:579-583 | the new row goes in front and the list grows by one |
| View.AdvancedExample.OnDeleteRow | packages/office-ui-fabric-react/src/components/DetailsList/examples/DetailsList.Advanced.Example.tsx:585-589 | the first row is dropped; an empty list stays empty |

## Left out

- Rendering, the command bar, contextual menus, the stylesheet, console logging and the DOM check in `_onItemContextMenu`: presentation and event plumbing, not data logic.
- `createListItems`, `buildColumns` and `_buildColumns` are not part of this model. They are foreign calls. The master rows and the initial columns are constructor parameters. The row added by `_onAddRow` is a parameter.
- View.AdvancedExample.OnSortColumn: the columns rebuilt by `buildColumns` are modelled as the old columns with no column grouped. The library's column rebuilding is not visible here.
- `setTimeout` and React's `setState` batching: the delayed refill is the explicit step `FinishDataMiss`, which the caller may run once a refill is scheduled. `PAGING_DELAY` and the timing are not modelled.
- Field values are strings. A row missing a column reads as the empty string, while JavaScript reads `undefined`. Coercion of other value types in `<` and `!==` is not modelled.
- String `<` compares characters of Dafny strings. JavaScript compares UTF-16 code units, so the order differs only for characters outside the basic plane.
- The order of equal keys after `Array.prototype.sort` is left to the JavaScript engine: `_groupItems`' comparator (line 545) returns 1 on ties and `_onSortColumn`'s (line 477) returns -1, so neither is consistent and the engine decides the order of equal keys. The sort is modelled as an insertion sort, which picks one legal order. The handlers' contracts (`OnSortColumn`, `OnGroupByColumn`) and the predicate `LeavesSorted` name that order through `SortedCopy`; the properties proved about the sort rely only on `SortedCopyPermutes` and `SortedCopySorted`, which hold for every legal order.
- Limits.ParseLimit: only a leading run of decimal digits is parsed. `parseInt`'s leading whitespace, sign and very large numbers are not modelled.
- `_groupByKey` writes `children` into group objects shared with the previous state (`groups.concat([])` is a shallow copy). The model builds a new tree instead, so that aliasing is not captured.
- Regrouping.GroupByKey: the ensures states the result and the permutation. The tiling and per-leaf sorting facts are separate lemmas (`RegroupTiles`, `RegroupSortsEachLeaf`, `RegroupLeafSpec`) because they need the tree to tile the list, which the handler does not check.
- Groups.GetGroups: distinct neighbouring leaf keys are proved in `RunsSpec` and not repeated in the method's ensures.
