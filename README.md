# Drag-and-drop scroll view: a verified model of the reorder logic

`DragAndDropScrollView` is a React Native list whose rows can be picked up
when the row's `renderItem` calls `move`, dragged over the other rows (or over a delete bin) and
dropped. This project models the logic behind that gesture in Dafny:

- `reorder.dfy` (module `Reorder`): the reorder engine `arrageGrids`. The
  push/slice/concat/filter construction the component runs is `ArrangeGrids`;
  its specification is `Relocate` ("remove at the selected index, insert at the
  drop index"), with the permutation, placement and undo properties proved
  about it.
- `geometry.dfy` (module `Geometry`): the pure geometry of a move: where the
  ghost overlay is drawn, the strict box hit test over the row registry, the
  bin proximity test with its margin of 10, the auto-scroll edge predicates.
- `session.dfy` (module `DragAndDrop`): the gesture session. The component's
  refs (`_dropIndexesQueue`, `_gridIndexToDrop`, `_hasMoved`, `_shouldDelete`,
  the row-layout registry, the scale entries, the ghost's position) and its
  `selectedIndex` state are the fields of the class `DragAndDropScrollView`;
  the handlers (`_move`, `_moveEnd`, `onMoveShouldSetPanResponder`,
  `onPanResponderMove`, `onRelease`, `animateDropped`, `normalizeGrid`,
  `commonActionsOnRelease`, the pruning effect) are its methods. The callbacks
  the component calls on its owner (`onDelete`, `onSortOrderUpdate`) are
  returned as a list of `Callback` values, in call order.
- `scenarios.dfy` (module `Scenarios`): worked examples on four rows A, B, C, D.
- `wrappers.dfy`: the `Option` type.

Modelling choices:

- Pixel coordinates are exact `real`s. Row keys are `nat`s, which covers the
  source's mix of string keys and `parseInt`.
- A JavaScript array slot that may hold `undefined` is a `Slot<T>`.
- `Object.keys` lists integer keys in ascending order, so the hit test visits
  the rows from the smallest key up. The last hit wins, which makes the
  largest hit the drop candidate.
- An animation's completion callback runs at once, as part of the same step.
  `setSelectedIndex` takes effect immediately.
- Layouts, the scroll offset, the props and the gesture are
  inputs. The layout fields are set directly.
- `shouldDelete` is set by a move over the bin and cleared only by a later
  move away from it; a release leaves it set, as in the source. The class
  invariant `Valid` says that while it is set there is no drop candidate
  (`gridIndexToDrop == -1`). Every handler preserves it. So a release that
  deletes never reorders (`DeleteNeverReorders`).
- Because a release leaves `shouldDelete` set, it carries into the next drag
  session: a new selection whose first move has two touches is released at
  once (src/DragAndDropScrollView.js:313-315) and calls `onDelete` on the newly
  selected row, which never came near the bin. The model keeps this behaviour:
  `Move` leaves `shouldDelete` as it was, and `OnRelease` calls `onDelete`
  whenever it is set.

## Model

| member | source | states |
|---|---|---|
| Reorder.RemoveAt | src/DragAndDropScrollView.js:247-256 | one shorter; the items before `i` stay, the items after it shift down by one |
| Reorder.InsertAt | src/DragAndDropScrollView.js:259-267 | one longer; `x` sits at `i`, the items before it stay, the items from `i` on shift up by one |
| Reorder.Relocate | src/DragAndDropScrollView.js:245-267 | the reference move keeps the length and puts `xs[from]` at `to` |
| Reorder.RelocateAt | src/DragAndDropScrollView.js:245-267 | where each item goes: the moved item to `to`, the items between the two indices shift one step towards `from`, all others stay |
| Reorder.LandsBesideTarget | src/DragAndDropScrollView.js:259-267 | moved forward, the item lands right after the drop target's item; moved backward, right before it |
| Reorder.KeepsOutsideRange | src/DragAndDropScrollView.js:245-267 | items outside the closed range between the two indices keep their positions |
| Reorder.RelocatePermutation | src/DragAndDropScrollView.js:245-272 | the move has the same multiset of items as the input |
| Reorder.RelocateUndo | src/DragAndDropScrollView.js:245-267 | moving the item back from `to` to `from` restores the input |
| Reorder.DropUndefined | src/DragAndDropScrollView.js:269 | the filter leaves no `undefined`, removes only `undefined` slots (same multiset up to their count), and changes nothing when there are none |
| Reorder.DropUndefinedSingle | src/DragAndDropScrollView.js:269 | on one slot the filter keeps a defined item and drops `undefined` |
| Reorder.DropUndefinedAppend | src/DragAndDropScrollView.js:269 | filtering a concatenation concatenates the filtered parts, so the kept items keep their relative order |
| Reorder.ArrangedIsPermutation | src/DragAndDropScrollView.js:245-272 | without `undefined` in `data`, what is emitted is exactly the move, of the same length and multiset as `data` |
| Reorder.SpliceRelocates | src/DragAndDropScrollView.js:259-267 | re-inserting the drop target's item before or after the dropped slot, by direction, yields the move |
| Reorder.PushPass | src/DragAndDropScrollView.js:245-256 | the pass pushes every item but the selected one, the selected item in the drop target's place, and reports where it went |
| Reorder.ArrangeGrids | src/DragAndDropScrollView.js:233-275 | the emitted data is the filtered move of the selected item to the drop index; nothing is emitted exactly when there is no drop index, no selection, the two are equal, or the drop index is not queued |
| Geometry.GhostPosition | src/DragAndDropScrollView.js:342-358 | the ghost is centred on the pointer, relative to the container (offset 0 while unmeasured) |
| Geometry.StaleAmong | src/DragAndDropScrollView.js:424-426 | the rows to normalize have a scale entry and are never hit rows |
| Geometry.HitsStep | src/DragAndDropScrollView.js:403-418 | testing one more row adds it to the hits exactly when its box contains the pointer |
| Geometry.StaleStep | src/DragAndDropScrollView.js:424-426 | testing one more row adds it to the stale rows exactly when it has a scale entry and its box misses the pointer |
| Geometry.StackedHitsAtMostOne | src/DragAndDropScrollView.js:403-418 | on rows that do not overlap, at most one row is hit |
| Geometry.BinMargin | src/DragAndDropScrollView.js:371-373 | a pointer inside the bin counts as over it, and "over the bin" reaches at most 10 beyond each edge |
| Geometry.ScrollOneWay | src/DragAndDropScrollView.js:429-430 | an unmeasured container never asks to scroll down; a tall enough container never asks to scroll both ways at once |
| DragAndDrop.Span | src/DragAndDropScrollView.js:113-122 | the indices `lo` to `hi - 1` the pruning loops visit |
| DragAndDrop.SpanSize | src/DragAndDropScrollView.js:113-122 | that range has `hi - lo` indices |
| DragAndDrop.PruneKeepsPrefix | src/DragAndDropScrollView.js:109-123 | when the registry holds the rows `0` to `count - 1`, pruning to `n` items leaves exactly the rows below `n` |
| DragAndDrop.DropTarget | src/DragAndDropScrollView.js:172-175 | the target is the hovered row when it is queued, and otherwise the selected row |
| DragAndDrop.DropDestination | src/DragAndDropScrollView.js:184-213 | the ghost goes to the target row's origin; when deleting, it is centred on the bin's vertical middle and its left edge sits half a row-width right of the bin's `x` (it is not centred horizontally on the bin); both corrected by the scroll offset |
| DragAndDrop.DeleteNeverReorders | src/DragAndDropScrollView.js:279-283 | a release over the bin, which has no drop candidate, makes at most one call, and it is `onDelete` |
| DragAndDrop.ScannedRows | src/DragAndDropScrollView.js:403-428 | after the hit test: every hit row is queued and no larger than the candidate; a missed row stays queued only if it has no scale entry; a changed candidate is a hit row |
| DragAndDrop.ScanStep | src/DragAndDropScrollView.js:403-428 | testing the least untested row extends the hit test's progress by that row |
| DragAndDrop.ScanBounds | src/DragAndDropScrollView.js:403 | the pass starts with nothing tested and ends with every registered row tested |
| DragAndDrop.MapMinusStep | src/DragAndDropScrollView.js:114-116 | one more deletion extends the deleted range by one |
| DragAndDrop.SetMinusStep | src/DragAndDropScrollView.js:119-121 | the same for the scale entries |
| DragAndDrop.DragAndDropScrollView.constructor | src/DragAndDropScrollView.js:80-103 | the initial state: nothing selected, no candidate, empty queue and registries |
| DragAndDrop.DragAndDropScrollView.NormalizeGrid | src/DragAndDropScrollView.js:161-169 | a row with a scale entry leaves the queue; one without stays |
| DragAndDrop.DragAndDropScrollView.CommonActionsOnRelease | src/DragAndDropScrollView.js:227-231 | every queued row with a scale entry leaves the queue |
| DragAndDrop.DragAndDropScrollView.PruneRegistry | src/DragAndDropScrollView.js:109-123 | entries from the new length up to the old entry count are deleted from both registries, and nothing else |
| DragAndDrop.DragAndDropScrollView.PruneRowInfo | src/DragAndDropScrollView.js:113-117 | the row-layout part of the pruning |
| DragAndDrop.DragAndDropScrollView.PruneScales | src/DragAndDropScrollView.js:118-122 | the scale part of the pruning |
| DragAndDrop.DragAndDropScrollView.RegisterRowScales | src/DragAndDropScrollView.js:546-552 | rendering gives every row index a scale entry and keeps the existing ones |
| DragAndDrop.DragAndDropScrollView.Move | src/DragAndDropScrollView.js:459-491 | disabled: nothing changes; otherwise the row is selected and the ghost is put on it, scroll-corrected, when it has a layout |
| DragAndDrop.DragAndDropScrollView.MoveEnd | src/DragAndDropScrollView.js:493-505 | disabled or after a move: nothing changes; a press that never moved clears the queue's scaled rows and ends the selection |
| DragAndDrop.DragAndDropScrollView.AnimateDropped | src/DragAndDropScrollView.js:172-221 | the ghost goes to the drop destination of the resolved target; a target without a layout leaves it in place |
| DragAndDrop.DragAndDropScrollView.OnRelease | src/DragAndDropScrollView.js:277-289 | the owner gets `onDelete` when over the bin, then `onSortOrderUpdate` with the reordered data when the reorder proceeds; the scaled rows leave the queue; the session ends |
| DragAndDrop.DragAndDropScrollView.OnMoveShouldSetPanResponder | src/DragAndDropScrollView.js:311-322 | a second touch forces a release and declines; otherwise it takes the gesture exactly when a row is selected, and only then marks the session moved |
| DragAndDrop.DragAndDropScrollView.HitTestRow | src/DragAndDropScrollView.js:404-427 | a hit row is queued and becomes the candidate; a queued row that is missed is normalized |
| DragAndDrop.DragAndDropScrollView.HitTest | src/DragAndDropScrollView.js:403-428 | after the pass the queue gains every hit row and loses the missed rows with a scale entry, and the candidate is the largest hit row (unchanged without a hit) |
| DragAndDrop.DragAndDropScrollView.OnPanResponderMove | src/DragAndDropScrollView.js:323-450 | disabled: nothing; a second touch: a release that leaves the bin flag and candidate alone; no selection: nothing; otherwise a drag step |
| DragAndDrop.DragAndDropScrollView.Drag | src/DragAndDropScrollView.js:334-428 | the ghost is centred on the pointer; over a shown, laid-out bin the scaled rows leave the queue, the candidate is cleared and deletion is armed; elsewhere deletion is disarmed and the hit test runs |
| Scenarios.ForwardDrop | src/DragAndDropScrollView.js:233-275 | [A,B,C,D] with 0 dropped on 2 gives [B,C,A,D] |
| Scenarios.BackwardDrop | src/DragAndDropScrollView.js:233-275 | [A,B,C,D] with 3 dropped on 1 gives [A,D,B,C] |
| Scenarios.PointerOverThirdRow | src/DragAndDropScrollView.js:403-428 | on four stacked rows a pointer inside the third row queues that row, makes it the candidate and normalizes the other three |

## Left out

- Animation: `Animated.timing`/`parallel`, durations, and the scale, opacity and width values. Each completion callback runs at once. The ghost's position is kept as the target value of its animation.
- `animateDeleted` and the `deleteConf` render state: they only drive the collapse of a deleted row's width.
- The auto-scroll commands (`scrollTo`): they are native I/O. Only the edge predicates `ShouldMoveDown`/`ShouldMoveUp` are modelled; the scroll step (the selected row's height times the platform's `scrollDistanceFactor`) and the `Platform.OS` switch are not. The model also does not capture that these commands are issued once per registered row, and skipped for a hit row without a scale entry.
- Layout acquisition: `measureInWindow`, `onLayout`, `onScroll` and the ref setters. Their results are fields or parameters set directly.
- Rendering, hooks and memo dependency lists, and the `PanResponder` wiring. With `enableDragDrop` off the responder has no handlers; the model's move handlers then do nothing. `OnRelease` has no such guard: the source reaches `onRelease` only through the responder (src/DragAndDropScrollView.js:455) or from the two-touch branches of the move handlers (314, 325), which are themselves guarded.
- The ref `_refSelected`: `_move` is modelled as if the selected row's ref is always set. In the source the ghost row unmounts when `selectedIndex` returns to -1, its ref callback then sets `_refSelected` to null, and from the second drag session on `_move` returns at src/DragAndDropScrollView.js:471-473 without placing the ghost; `Move` always places it.
- Handlers that throw, because the selected row has no layout: the move handler throws before changing anything and is modelled as a no-op. `_move` throws after selecting the row and is modelled as selecting it without moving the ghost.
- Stale indices: a selected or drop index at or past the end of `data` is excluded by the precondition `Fits`. In the source a stale drop index duplicates items through `slice(0, undefined)`, and a stale selected index (with a valid drop index) emits `data` unchanged.
- src/Row.js and babel.config.js are not part of this model. Row.js only binds a row's index into the callbacks; babel.config.js is build configuration.
