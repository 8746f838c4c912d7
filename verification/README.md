# DragDropKit drag-to-reorder, modelled in Dafny

DragDropKit adds long-press drag-to-reorder to a table view. When a press begins, `DDTableView`
picks up the row under the finger and shows a floating snapshot of it. It starts an edge-scroll
timer. As the finger moves over other rows, it asks its data source to move the picked-up row
there and moves the row on the table too. When the press ends, it reports where the drag ended
and clears its state. The example application's view controller is the data source: it keeps its
rows as an array of sections of letters and rearranges them on `moveRowAt`.

The model has four modules:

- `Tables` (tables.dfy): index paths; a table's rows as `seq<seq<T>>`; Swift's `remove(at:)` and
  `insert(_:at:)`; and the move a table performs on its own rows in `moveRow(at:to:)`: the row is
  taken out and put in at the destination. It also proves that such a move can be undone and
  keeps every row.
- `DragDropKit` (dd_table_view.dfy): the gesture handlers of `DDTableView` as pure transition
  functions (`Begin`, `Change`, `Over`, `Released`, `Action`) over the optional fields. It also has
  the class `DDTableView`, whose methods update those fields step by step and are proved equal to
  the transition functions. Everything UIKit or the delegates answer during one callback is an
  input `Sample`: the row under the touch, whether a cell exists, the `canMoveRowAt` answer,
  whether `moveRowAt` is implemented, and whether a snapshot could be made. The optional centre
  offset, snapshot view and display-link timer are modelled as present or absent. What a callback
  asks of the outside world is returned as an `Effect`: the delegate's begin notice, the move, or
  the delegate's end notice.
- `Example` (view_controller.dfy): the view controller's `dataArray` and its data-source methods.
- `ExampleDrag` (example_drag.dfy): a drag in the example application. It follows the drag state,
  the rows the table shows and the rows the data source holds through a sequence of change
  callbacks.

Main results:

- The centre offset, the source row and the snapshot are always present or absent together
  (`ReplayKeepsCoherent`).
- A complete gesture leaves no edge-scroll timer running (`GestureStopsEdgeScroll`).
- Through any sequence of changes, the row `sourceIndexPath` names holds the picked-up row, both
  on the table and in the data source (`PickedRowFollowsSource`).
- The example's `moveRowAt` agrees with the table's own move exactly when the move crosses
  sections or goes to a neighbouring row (`AsWrittenAgreesWithTableIffAdjacent`). See Findings.

## Model

| member | source | states |
|---|---|---|
| `Tables.Removed` | Example/Example/ViewController.swift:60 | `remove(at:)`: one row shorter, earlier rows kept, later rows shifted down by one, the removed value is the only element lost |
| `Tables.Inserted` | Example/Example/ViewController.swift:61 | `insert(_:at:)`: one row longer, the value sits at the index, earlier rows kept, later rows shifted up, exactly one element gained |
| `Tables.Relocated` | DragDropKit/DDTableView.swift:188 | a row taken out and put back within its section: same length and multiset, the row is at the destination, and taking it out again leaves the other rows in their old order |
| `Tables.RelocatedBack` | DragDropKit/DDTableView.swift:188 | relocating a row back to where it came from restores the section |
| `Tables.MovedOnTable` | DragDropKit/DDTableView.swift:188 | the table's own `moveRow(at:to:)`: same number of sections, each section's new row count, the moved row is at the destination, the other rows keep their order, untouched sections are unchanged |
| `Tables.MovedOnTableBack` | DragDropKit/DDTableView.swift:188 | after a table move, moving the row back is again a valid move, and it restores the table |
| `Tables.MovedOnTableConserves` | DragDropKit/DDTableView.swift:188 | a table move keeps the multiset of all rows and their total count |
| `DragDropKit.Released` | DragDropKit/DDTableView.swift:234-239 | `releaseValues` leaves no centre offset, no source and no snapshot; `lastIndexPath` and the timer are untouched |
| `DragDropKit.Begin` | DragDropKit/DDTableView.swift:115-168 | a begin notice is sent exactly when there is a hit row with a cell and `canMoveRowAt` does not answer false; the row is picked up exactly when, in addition, the snapshot is made, and then source and last are the hit row and the timer runs; otherwise nothing is picked up and the timer is untouched; after a failed snapshot `lastIndexPath` is the hit row, otherwise it is unchanged |
| `DragDropKit.Change` | DragDropKit/DDTableView.swift:170-191 | a move is asked for exactly when all five values are present, the hit row differs from the source, `canMoveRowAt` is not false and `moveRowAt` is implemented; then last becomes the old source and source becomes the hit row; otherwise the state is unchanged; offset, snapshot and timer never change |
| `DragDropKit.Over` | DragDropKit/DDTableView.swift:193-232 | the timer is always stopped; an end notice is sent exactly when offset, source, source cell and snapshot exist and there is a hit row or a last row; it names the hit row, else `lastIndexPath`; the values are then kept until the takeoff completes, otherwise they are released at once |
| `DragDropKit.Action` | DragDropKit/DDTableView.swift:102-113 | `.began` runs begin, `.changed` runs change, `.ended`/`.cancelled`/`.failed` run over, `.possible` changes nothing; every callback keeps offset, source and snapshot together; every callback except a begin while the timer runs keeps the timer running only while a row is picked up |
| `DragDropKit.ReplayKeepsCoherent` | DragDropKit/DDTableView.swift:65-70 | across any sequence of callbacks and takeoff completions, the centre offset, source and snapshot stay present or absent together |
| `DragDropKit.ChangesKeepDrag` | DragDropKit/DDTableView.swift:170-191 | change callbacks never start or stop the timer and never drop or pick up a row |
| `DragDropKit.GestureStopsEdgeScroll` | DragDropKit/DDTableView.swift:193-195 | a began, changes, then ended/cancelled/failed, started with no timer, ends with no timer and with offset, source and snapshot present or absent together; the takeoff completion then leaves nothing picked up |
| `DragDropKit.PressDuration` | DragDropKit/DDTableView.swift:73-79 | the stored press duration is at least 0.2; it equals the assigned value exactly when that value is at least 0.2, and is 0.2 otherwise |
| `DragDropKit.DDTableView.constructor` | DragDropKit/DDTableView.swift:65-73 | a new table view has no offset, source, last row, snapshot or timer, and a press duration of 0.5 |
| `DragDropKit.DDTableView.SetDurationOGesturePress` | DragDropKit/DDTableView.swift:73-79 | assigning the press duration stores the clamped value, which is at least 0.2 |
| `DragDropKit.DDTableView.ReleaseValues` | DragDropKit/DDTableView.swift:234-239 | the fields afterwards are `Released` of the fields before; its frame excludes `lastIndexPath` and the timer |
| `DragDropKit.DDTableView.StartEdgeScroll` | DragDropKit/DDTableView.swift:262-265 | the timer runs afterwards; nothing else changes |
| `DragDropKit.DDTableView.StopEdgeScroll` | DragDropKit/DDTableView.swift:310-313 | no timer runs afterwards; nothing else changes |
| `DragDropKit.DDTableView.GestureBegan` | DragDropKit/DDTableView.swift:115-168 | the new fields and the effect are those of `Begin` on the old fields |
| `DragDropKit.DDTableView.GestureChanged` | DragDropKit/DDTableView.swift:170-191 | the new fields and the effect are those of `Change` on the old fields; only source and last may change |
| `DragDropKit.DDTableView.GestureOver` | DragDropKit/DDTableView.swift:193-232 | the new fields and the effect are those of `Over` on the old fields; `lastIndexPath` is untouched |
| `DragDropKit.DDTableView.TakeoffCompletion` | DragDropKit/DDTableView.swift:228-231 | the completion of the takeoff animation releases the values |
| `DragDropKit.DDTableView.GestureRecognizerAction` | DragDropKit/DDTableView.swift:102-113 | the new fields and the effect are those of `Action` on the old fields |
| `Example.Swapped` | Example/Example/ViewController.swift:55-58 | the two positions exchange their values, every other position is unchanged, length and multiset are kept |
| `Example.MovedAsWritten` | Example/Example/ViewController.swift:50-63 | same number of sections and each section's new row count; the moved row is at the destination; sections not involved are unchanged; within a section the rows are swapped, across sections the row is removed from one and inserted into the other |
| `Example.MoveAsWrittenConserves` | Example/Example/ViewController.swift:50-63 | a same-section move keeps that section's length and multiset; a cross-section move shortens the source section by one and lengthens the destination by one; the multiset of all rows and their count are kept |
| `Example.MoveAsWrittenUndone` | Example/Example/ViewController.swift:55-61 | moving the row back undoes a move; within a section the same move done twice is the identity; moving a row onto itself changes nothing |
| `Example.SameSectionMoveUndone` | Example/Example/ViewController.swift:55-58 | within a section, the swap done twice, in either order of its positions, restores the rows |
| `Example.CrossMoveUndone` | Example/Example/ViewController.swift:59-61 | across sections, moving the row back is a valid move and restores the rows |
| `Example.SwapIsRelocationIffAdjacent` | Example/Example/ViewController.swift:55-58 | swapping equals take-out-and-reinsert when the two rows are neighbours or the same row; in a section of distinct values it equals it only then |
| `Example.ViewController.constructor` | Example/Example/ViewController.swift:16 | the data starts empty |
| `Example.ViewController.ViewDidLoad` | Example/Example/ViewController.swift:18-27 | the data becomes the five sections of letters: 26 rows in all |
| `Example.ViewController.NumberOfSections` | Example/Example/ViewController.swift:33-35 | the count of sections, above the section of every row the table may ask about |
| `Example.ViewController.NumberOfRowsInSection` | Example/Example/ViewController.swift:37-39 | a row of the section exists exactly when its index is below the count |
| `Example.ViewController.MoveRowAt` | Example/Example/ViewController.swift:50-63 | the data afterwards is `MovedAsWritten` of the data before, and the number of sections is unchanged; the source's preconditions are the row validity of `MoveFits` |
| `Example.ViewController.MoveRowAtReinserting` | Example/Example/ViewController.swift:59-61 | the corrected `moveRowAt` (remove then insert in both branches) leaves the data equal to the table's own move of the data |
| `ExampleDrag.DataSourceMove` | Example/Example/ViewController.swift:50-63 | either data source yields the table move's row counts and puts the moved row at the destination |
| `ExampleDrag.ChangeStep` | DragDropKit/DDTableView.swift:184-190 | one change callback with the data source attached: the data keeps the table's shape, and the picked-up row stays a row of the table; the row at `sourceIndexPath` is the same before and after, in table and data; with the reinserting data source, equal table and data stay equal |
| `ExampleDrag.ChangeRun` | DragDropKit/DDTableView.swift:170-191 | any sequence of change callbacks keeps the data in the table's shape and the picked-up row on the table |
| `ExampleDrag.PickedRowFollowsSource` | DragDropKit/DDTableView.swift:188-190 | after any sequence of changes a row is still picked up, and `sourceIndexPath` names the picked-up row in the table and in the data source |
| `ExampleDrag.ReinsertingAgreesWithTable` | Example/Example/ViewController.swift:59-61 | with the reinserting data source, the data stays equal to the rows the table shows through any sequence of changes |
| `ExampleDrag.AsWrittenAgreesWithTableIffAdjacent` | Example/Example/ViewController.swift:55-61 | the example's move equals the table's move for cross-section and neighbouring-row moves; in a section of distinct letters it equals it only for those |
| `ExampleDrag.SwapDivergesFromTable` | Example/Example/ViewController.swift:55-58 | one change from row 0 to row 2 of a, b, c: the table shows b, c, a, the data source holds c, b, a |

## Left out

- Snapshot rendering and styling (`fetchSnapShotView`, `makeupSnapShotView`) are left out. So are the alpha, transform and frame animations and hiding or showing the dragged cell. They are UIKit and Core Graphics calls. Only the snapshot's presence and whether it could be made are modelled.
- `processEdgeScroll` is modelled only as a "timer running" flag. Its offset arithmetic is floating-point geometry paced by the display link's frame rate. Its per-frame call to `gestureChanged` is an ordinary change callback in the model.
- The snapshot's centre, updated from the touch location, is not modelled: it is point arithmetic. The centre offset is only present or absent.
- Initialisers, `setup`, `initGestureRecognizer` and `edgeScrollRange` are not modelled. The press duration is read into the recognizer once, at setup; that link is not modelled either.
- The delegate's `willMakeup`, `didMakeup`, `willTakeoff` and `didTakeoff` callbacks, and the makeup and takeoff durations, only affect animations and are left out. `beginMoveRowAt` and `endMoveRowAt` are modelled as the `BeginMove` and `EndMove` effects.
- `enableEdgeScroll` (DragDropKit/DDTableView.swift:82) is never read in DDTableView.swift. So the model, like the source, starts the edge-scroll timer on every successful begin.
- `StartEdgeScroll`: the source replaces the display link without invalidating a running one. The model keeps only a flag. `GestureStopsEdgeScroll` shows that in the recognizer's order of phases no timer is running when a begin arrives.
- The print at DragDropKit/DDTableView.swift:185 is left out. A missing `moveRowAt` is the input `implementsMoveRow = false`. A missing data source is `canMoveRow = None` together with `implementsMoveRow = false`.
- `PressDuration`: the source's duration is a Double, modelled as a real. A NaN, which fails the `< 0.2` test and would be kept, is not modelled.
- UIKit's `moveRow(at:to:)` is not part of this model's sources. `MovedOnTable` models its documented effect on the rows: take the row out, put it in at the destination.
- The order of a takeoff completion relative to later callbacks is chosen by the caller of `Replay`, since animation timing is not modelled.
- `ChangeStep`: a hit row that names no row of the current table is read as no row. `indexPathForRow(at:)` only returns rows of the table.
- Swift traps on an out-of-range array index. `MoveRowAt` and `NumberOfRowsInSection` require valid indices instead. UIKit only passes index paths of existing rows.
- `cellForRowAt`, `didSelectRowAt`, the header/footer heights and views (Example/Example/ViewController.swift:41-108) and ExampleTableViewCell.swift are left out. They build or lay out views.

## Findings

| source | as written | input that shows it | evidently intended | confidence | as-written member | corrected member |
|---|---|---|---|---|---|---|
| Example/Example/ViewController.swift:55-58 | within one section `moveRowAt` swaps the source and destination rows, while the table's `moveRow(at:to:)` (DragDropKit/DDTableView.swift:188) takes the row out and reinserts it, so the data no longer matches the table after a jump of two or more rows (edge scroll can move the table by more than a row per frame) | one change callback from row 0 to row 2 of a section holding a, b, c: the table shows b, c, a, the data holds c, b, a | remove the row and insert it at the destination in both branches, as the cross-section branch does; the data then stays equal to the table's rows | medium; not executed | `ExampleDrag.SwapDivergesFromTable` | `ExampleDrag.ReinsertingAgreesWithTable` |
