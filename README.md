# Commit-graph layout, graph cell and row selection of a jj history viewer

This project models, in Dafny, the part of the history viewer that has real
logic. It has three parts:

- **The lane allocator** (`compute_graph_layout`, src/lib/graph_layout.ts).
  It walks the commits in log order and keeps a growable lane table. Each slot
  of the table is empty or holds the id of a parent that a later row is
  expected to fill. Each commit gets one `GraphRow`: its column, whether a lane
  from above ends at it (`has_child`), and its connector segments (`straight`,
  `merge`, `fork`).
- **The graph cell** (`RevsetGraph_`, src/components/revset_tree.tsx). It maps
  one `GraphRow` and the metrics (row height, column width, left padding) to
  drawing decisions: the canvas width, a line or cubic curve per segment, the
  incoming stub and the node marker.
- **Row selection** (`handleRowClick` and `handleDragStart`,
  src/components/revset_table.tsx). These update the selected row indices and
  the shift-range anchor.

Files:

- `wrappers.dfy`: `Option`.
- `numbers.dfy`: `Min` and `Max` of two indices.
- `bindings.dfy`: the `Commit` record (src-tauri/src/bindings.rs), with the
  fields the core reads.
- `graph_layout.dfy`: module `GraphLayout`.
  - The specification functions, one per step of a row: `Resolve` (column and
    release), `Passthrough`, `AssignParent`/`AssignParents`, `LayoutRow`, then
    `Run` and `Layout` over the whole list.
  - The program's loop, `ComputeGraphLayout`. Its lane table is a `seq` that
    the loop reassigns: `lanes[c] = …` is a sequence update and `push(null)`
    appends `None`.
  - The steps of the one TypeScript function are written as helper methods.
    Each cites the lines it covers and is proved equal to its specification
    function.
- `layout_properties.dfy`: module `LayoutProperties`, the lemmas about the
  allocator.
- `revset_tree.dfy`: module `RevsetTree`, the geometry. It is pure, with real
  numbers for pixels.
- `revset_table.dfy`: module `RevsetTable`.
  - The class `RowSelection` has the fields `selected` and `anchor`. Its
    methods `Click` and `DragStart` are proved to produce the state given by the
    functions `AfterClick` and `AfterDragStart`.
  - The lemmas state what those functions mean.

In the graph cell, every non-straight segment whose `from` is the row's
column and differs from its `to` is drawn as a curve out of the node at
mid-row. This holds for merges and forks alike
(src/components/revset_tree.tsx:40-48). A segment with `from == to` is always
a vertical line, whatever its kind (line 33). For example, the allocator
draws a `merge` back into the same column when a commit lists one parent
twice.

## Model

| member | source | states |
|---|---|---|
| GraphLayout.IndexOf | src/lib/graph_layout.ts:16 | `indexOf`: `None` exactly when the value is absent; otherwise the position holds it and no earlier position does |
| GraphLayout.FreeSlot | src/lib/graph_layout.ts:23-27 | a new lane opens in the lowest empty slot; when no slot is empty it opens at `lanes.length` |
| GraphLayout.GrowTo | src/lib/graph_layout.ts:24-27 | `push(null)` happens only when the slot is one past the end; it adds exactly one empty slot and keeps every existing slot |
| GraphLayout.Resolve | src/lib/graph_layout.ts:16-31 | `has_child` holds iff some slot awaits the commit, and then the column is the lowest such slot; otherwise the column is the free slot; the table grows by one exactly when the column is `lanes.length`; the column is emptied and every other slot is unchanged |
| GraphLayout.Passthrough | src/lib/graph_layout.ts:40-48 | every passthrough segment is `straight {i,i}` for an occupied slot i, in strictly ascending i |
| GraphLayout.AssignParent | src/lib/graph_layout.ts:54-92 | the segment is `merge` iff a slot already awaits the parent; a merge goes into the lowest such slot and leaves the table unchanged; otherwise the first parent takes the empty column and any other parent takes the free slot, that slot then awaits the parent and nothing else changes; the kind is `straight` iff the slot is the column, else `fork` |
| GraphLayout.AssignParents | src/lib/graph_layout.ts:52-94 | exactly one segment per parent; each leaves from the row's column and ends inside the table; the table never shrinks |
| GraphLayout.LayoutRow | src/lib/graph_layout.ts:14-101 | the row carries its commit; the `has_child` and column-resolution rules hold; column and every segment end are slots of the table after the row |
| GraphLayout.Run | src/lib/graph_layout.ts:11-102 | after n commits there are n rows, row i carrying `commits[i]` |
| GraphLayout.Layout | src/lib/graph_layout.ts:10-105 | one row per input commit, in input order |
| GraphLayout.ComputeGraphLayout | src/lib/graph_layout.ts:10-105 | the program's loop yields exactly `Layout(commits)`: one row per commit, row i carrying `commits[i]` |
| GraphLayout.ResolveColumn | src/lib/graph_layout.ts:16-31 | the imperative column lookup, push and release equal `Resolve` |
| GraphLayout.OpenLane | src/lib/graph_layout.ts:70-74 | `indexOf(null)`, else `push(null)`, gives the free slot and the grown table; the slot is empty |
| GraphLayout.PassthroughLines | src/lib/graph_layout.ts:40-48 | the `for` loop over the slots builds exactly `Passthrough` |
| GraphLayout.AssignParentLanes | src/lib/graph_layout.ts:52-94 | the `forEach` over the parents produces the table and segments of `AssignParents` |
| LayoutProperties.RowAfter | src/lib/graph_layout.ts:14-102 | the table before row k+1 is the one row k leaves |
| LayoutProperties.RunStep | src/lib/graph_layout.ts:14-101 | one more commit appends exactly its row and replaces the table with the one that row leaves |
| LayoutProperties.RunRowAt | src/lib/graph_layout.ts:96-101 | row i of any prefix of the run is `LayoutRow` of commit i against the table left by rows 0..i-1 |
| LayoutProperties.LayoutRowAt | src/lib/graph_layout.ts:96-104 | row i of the layout is commit i laid out against the table the earlier rows left |
| LayoutProperties.PassthroughCovers | src/lib/graph_layout.ts:40-48 | every occupied slot gets its straight line, so the passthrough lines are exactly the occupied slots |
| LayoutProperties.RowShape | src/lib/graph_layout.ts:31-94 | a row's segments are first the passthrough lines of the released table, which never touch the column and cover every awaiting slot, then exactly one segment per parent, each from the column |
| LayoutProperties.ParentSegmentAt | src/lib/graph_layout.ts:52-94 | parent segment k is the one parent k gets against the table the earlier parents left, so segments follow parent order |
| LayoutProperties.FirstParentKeepsColumn | src/lib/graph_layout.ts:66-67 | an untracked first parent always gets `straight {column, column}`, because the column is empty at that point |
| LayoutProperties.AssignParentWritesEmptySlot | src/lib/graph_layout.ts:64-77 | one parent step changes only a slot that was empty or pushed, and writes the parent's id there |
| LayoutProperties.AssignParentsWritesEmptySlots | src/lib/graph_layout.ts:52-94 | over all parents, each slot keeps its value or was empty and now awaits one of the parents |
| LayoutProperties.FirstCommitOpensColumnZero | src/lib/graph_layout.ts:16-48 | the first commit of a run, against the empty table, opens column 0 with no child and draws no passthrough line |
| LayoutProperties.RepeatedParentFirstStep | src/lib/graph_layout.ts:64-85 | the first occurrence of a parent, with the column empty, takes the column and draws `straight {0,0}` |
| LayoutProperties.RepeatedParentSteps | src/lib/graph_layout.ts:52-94 | a parent listed twice gives `straight {0,0}` and then `merge {0,0}`, because the second occurrence finds it already awaited (lines 54-62) |
| LayoutProperties.RepeatedParentSegments | src/lib/graph_layout.ts:14-94 | a first commit listing one parent twice gets exactly the segments `straight {0,0}`, `merge {0,0}` |
| LayoutProperties.ParentsAwaited | src/lib/graph_layout.ts:54-77 | after a row's parents, every parent is awaited by some slot |
| LayoutProperties.AssignParentsKeepNoDuplicates | src/lib/graph_layout.ts:54-77 | assigning parents never makes two slots await the same id |
| LayoutProperties.AssignParentKeepsNoDuplicates | src/lib/graph_layout.ts:54-77 | one parent step never makes two slots await the same id: an id is written only where it was not awaited |
| LayoutProperties.RowChangesOnly | src/lib/graph_layout.ts:16-94 | a row changes only its column (emptied at line 31) and slots that were empty (filled with a parent at line 77); the table never shrinks; no id becomes awaited twice |
| LayoutProperties.RowKeepsOtherPending | src/lib/graph_layout.ts:31-77 | a slot awaiting an id other than the row's commit still awaits it after the row |
| LayoutProperties.LanesNeverDuplicate | src/lib/graph_layout.ts:14-102 | before every row, no id is awaited by two slots |
| LayoutProperties.LanesNeverShrink | src/lib/graph_layout.ts:14-102 | the lane table never shrinks from one row to a later one |
| LayoutProperties.LayoutInBounds | src/lib/graph_layout.ts:19-94 | a row's column and every `from`/`to` are below the table length after that row, and after every later row |
| LayoutProperties.PendingStep | src/lib/graph_layout.ts:31-77 | one row keeps a pending id that is not its commit's id, in the same slot |
| LayoutProperties.PendingPersists | src/lib/graph_layout.ts:14-102 | an id stays pending in its slot over every row whose commit is not that id |
| LayoutProperties.DanglingParentStaysPending | src/lib/graph_layout.ts:52-102 | a parent that no later commit carries as its id is still pending at the end of the run |
| LayoutProperties.RootFreesColumn | src/lib/graph_layout.ts:31-52 | a commit with no parents leaves its column empty and draws only straight passthrough lines off its column |
| LayoutProperties.RowCurvesLeaveColumn | src/lib/graph_layout.ts:56-92 | in a row, every `merge` or `fork` segment leaves from the row's column |
| LayoutProperties.LayoutCurvesLeaveColumn | src/lib/graph_layout.ts:58-90 | in every row of the layout, every `merge` or `fork` segment leaves from that row's column |
| RevsetTree.ColumnX | src/components/revset_tree.tsx:29-30 | the x-coordinate of a column, `column * col_width + padding_left`; the same expression gives x1, x2 (lines 29-30), the stub (line 74) and `cx` (line 85) |
| RevsetTree.GraphWidth | src/components/revset_tree.tsx:17-18 | the canvas width before the 100-pixel floor: `(max_index + 1) * col_width`; `WidthFitsTouchedColumns` states what it covers |
| RevsetTree.ConnectorOf | src/components/revset_tree.tsx:33-58 | which branch a segment takes: a line when `straight` or `from == to`, else a curve from the node when `from` is the row's column, else the fallback curve; `SegmentShape` and `LayoutNeverCrosses` state its consequences |
| RevsetTree.MaxIndex | src/components/revset_tree.tsx:17 | the highest index the row touches: at least the column and every `from`/`to`, and equal to one of them |
| RevsetTree.WidthFitsTouchedColumns | src/components/revset_tree.tsx:17-18 | the width is `(max + 1) * col_width`: for a non-negative column width it holds every touched column and equals the end of the highest one |
| RevsetTree.SpanMonotone | src/components/revset_tree.tsx:18 | more columns never give a narrower canvas for a non-negative column width |
| RevsetTree.StrokeWidth | src/components/revset_tree.tsx:21 | the stroke width is `row_height / 15` floored at 2 |
| RevsetTree.SymbolSize | src/components/revset_tree.tsx:105 | the symbol size is `floor(row_height * 0.66)` floored at 12: at least 12, at most `max(12, row_height * 0.66)`, and above `row_height * 0.66 - 1` |
| RevsetTree.SymbolSizeMonotone | src/components/revset_tree.tsx:105 | a taller row never gets a smaller node symbol |
| RevsetTree.SegmentShape | src/components/revset_tree.tsx:29-58 | x1 = from·col_width + padding and x2 = to·col_width + padding; the shape ends at (x2, row_height); it is a line iff `straight` or `from == to`; a non-straight segment whose `from` is the row's column and differs from its `to` is a curve starting at mid-row with control points (x1, h) and (x2, h/2); any other non-straight segment with `from != to` is a curve starting at the top edge with both control points at h/2 |
| RevsetTree.IncomingStub | src/components/revset_tree.tsx:72-81 | the stub is drawn iff `has_child`, from (cx, 0) to (cx, row_height/2) |
| RevsetTree.GlyphOf | src/components/revset_tree.tsx:90-100 | the working copy comes first, then immutable, otherwise mutable |
| RevsetTree.NodeMarker | src/components/revset_tree.tsx:84-105 | the marker sits at (cx, row_height/2); its glyph is the commit's state and its size is the symbol size, at least 12 |
| RevsetTree.Render | src/components/revset_tree.tsx:15-121 | the rendered width is `max(width, 100)`: at least both, and equal to one of them; the stroke is the stroke width, at least 2; path k is `SegmentShape` of segment k (a line or one of the two curves, as its branch decides); the stub is `IncomingStub` and the marker is `NodeMarker` (at (cx, row_height/2), with the commit's glyph and the symbol size); there is one shape per segment with the stated endpoints; the stub is present iff `has_child` |
| RevsetTree.RepeatedParentMergeIsLine | src/components/revset_tree.tsx:33-39 | the `merge {0,0}` of a repeated parent is drawn as a vertical line, because the `from == to` test comes first |
| RevsetTree.StraightIsVertical | src/components/revset_tree.tsx:33-39 | `straight {k,k}` is a vertical line at x = k·col_width + padding from the top edge to the bottom edge |
| RevsetTree.Symbol | src/components/revset_tree.tsx:90-100 | the character of each node state: "@", "◆", "○" |
| RevsetTree.SymbolsDistinct | src/components/revset_tree.tsx:90-100 | the three states are drawn with three different characters |
| RevsetTree.MarkerPriority | src/components/revset_tree.tsx:90-100 | the symbol is "@" for the working copy, else "◆" when immutable, else "○" |
| RevsetTree.LayoutNeverCrosses | src/components/revset_tree.tsx:49-57 | for rows produced by the lane allocator, the fallback curve is never drawn: every curve starts at the node |
| RevsetTable.AfterClick | src/components/revset_table.tsx:182-220 | the selection and anchor one click leaves; its meaning is stated by the click lemmas below, and `RowSelection.Click` is proved to produce it |
| RevsetTable.AfterDragStart | src/components/revset_table.tsx:232-243 | the selection and anchor a drag start leaves; `DragStartSelects` states its meaning and `RowSelection.DragStart` is proved to produce it |
| RevsetTable.Range | src/components/revset_table.tsx:197-200 | the shift range holds exactly the indices from `start` to `end`, both included |
| RevsetTable.RowSelection.constructor | src/components/revset_table.tsx:30-31 | the component starts with nothing selected and no anchor |
| RevsetTable.RowSelection.Click | src/components/revset_table.tsx:182-220 | the handler, including its range loop, leaves exactly the selection and anchor of `AfterClick`, with ctrl meaning ctrl or meta |
| RevsetTable.RowSelection.DragStart | src/components/revset_table.tsx:232-243 | the handler leaves exactly the state of `AfterDragStart` |
| RevsetTable.ShiftClickSelectsRange | src/components/revset_table.tsx:192-200 | shift beats ctrl: a shift-click selects exactly `min(anchor,index)..max(anchor,index)`, where `anchor = lastSelectedIndex ?? index` |
| RevsetTable.ShiftClickAnchor | src/components/revset_table.tsx:192-203 | a shift-click with no anchor selects only the clicked row and anchors there; with an anchor, the anchor is unchanged |
| RevsetTable.CtrlClickToggles | src/components/revset_table.tsx:204-209 | a ctrl-click flips membership of the clicked index and no other |
| RevsetTable.CtrlClickTwiceRestores | src/components/revset_table.tsx:204-209 | two ctrl-clicks on the same index restore the original selection |
| RevsetTable.PlainClickSelects | src/components/revset_table.tsx:211-216 | a plain click on the sole selected row clears the selection; every other plain click selects exactly that row |
| RevsetTable.NonShiftClickAnchors | src/components/revset_table.tsx:204-218 | every click without shift sets the anchor to the clicked index |
| RevsetTable.DragStartSelects | src/components/revset_table.tsx:239-242 | a drag on an unselected row selects exactly it and anchors there; on a selected row, or with no index, nothing changes |

## Left out

- Loading commits through `jj_lib` and the Tauri IPC (src-tauri/src/ipc_commands.rs, src-tauri/src/lib.rs, src/lib/ipc_commands.ts) is I/O and foreign calls. The list of commits is a parameter.
- The settings store (src/lib/store.ts) and the font-size provider are left out. The provider derives the metrics with `Math.round` of float products. `row_height`, `col_width` and `padding_left` are opaque `real` inputs.
- Theme providers, the app menu, the title bar, React bootstrapping and i18n set-up are browser and DOM side effects. They have no logic the core depends on.
- Commit fields the core never reads are not in the `Commit` datatype: change id, author, timestamp, description, bookmarks, tags and the conflict flag. The layout passes them through unchanged.
- Duplicate commit ids: `IndexOf` models `indexOf`, so the first match is taken. Nothing further is claimed for such input.
- A pure layout gives the same rows for the same input every time. Dafny functions are deterministic, so no lemma states this.
- SVG path strings, CSS class names and colours, and `React.memo` are left out. Glyphs and shapes are returned as datatypes.
- Pixel arithmetic is exact `real` arithmetic. JavaScript doubles and their rounding are not modelled; `Math.floor` is `.Floor`.
- `StrokeWidth` and `SymbolSize` do not model JavaScript's behaviour on non-numeric (NaN) metrics.
- The selection dictionary `Record<string, boolean>` is a `set<nat>` of the keys set to `true`. The handlers only ever store `true` and delete keys on deselect. Changes made by the table library's own `onRowSelectionChange` are not modelled.
- React's deferred state setters are applied together at the end of each handler. This is equivalent here, because each handler reads the state before it sets it.
- The rest of src/components/revset_table.tsx is not modelled: `setActiveDragId` and the drag overlay, `handleDragEnd` (it only logs), data-loading effects, column renderers, virtualization and drag sensors.
