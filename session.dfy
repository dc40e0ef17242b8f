/**
 * The gesture session of the drag-and-drop scroll view. The component keeps
 * its per-instance state in refs (`_dropIndexesQueue`, `_gridIndexToDrop`,
 * `_hasMoved`, `_shouldDelete`, the row-layout and scale registries) and in
 * the `selectedIndex` state; here they are the fields of one object whose
 * methods are the component's handlers. The callbacks the component calls on
 * its owner (`onDelete`, `onSortOrderUpdate`) are returned as a list.
 * Animation completions run as one atomic step.
 */
module DragAndDrop {
  import opened Reorder
  import opened Geometry

  /** The props the gesture logic reads; `hasOnDelete` and `hasOnSortOrderUpdate` say whether those callbacks were given. */
  datatype Props = Props(
    enableDragDrop: bool,
    showBin: bool,
    hasOnDelete: bool,
    hasOnSortOrderUpdate: bool)

  /** One pan-responder move event: the touch count and the pointer's window position. */
  datatype Gesture = Gesture(numberActiveTouches: nat, moveX: real, moveY: real)

  /** A call the component makes on its owner. */
  datatype Callback<T> =
    | OnDelete(index: nat, item: Slot<T>, data: seq<Slot<T>>)
    | OnSortOrderUpdate(newData: seq<Slot<T>>)

  /** The integers `lo`, ..., `hi - 1`. */
  function Span(lo: nat, hi: nat): (s: set<nat>)
    ensures forall i :: i in s <==> lo <= i < hi
    decreases hi - lo
  {
    if lo >= hi then {} else Span(lo, hi - 1) + {hi - 1}
  }

  lemma {:induction false} SpanSize(lo: nat, hi: nat)
    requires lo <= hi
    ensures |Span(lo, hi)| == hi - lo
    decreases hi - lo
  {
    if lo < hi {
      SpanSize(lo, hi - 1);
      var below := Span(lo, hi - 1);
      assert hi - 1 !in below;
      assert |below + {hi - 1}| == |below| + 1;
    } else {
      assert Span(lo, hi) == {};
    }
  }

  /**
   * When the registry's keys are exactly the indices of the rows that were
   * laid out, pruning to `n` items leaves exactly the indices below `n`.
   */
  lemma {:induction false} PruneKeepsPrefix(keys: set<nat>, count: nat, n: nat)
    requires keys == Span(0, count)
    ensures |keys| == count
    ensures keys - Span(n, |keys|) == Span(0, if n < count then n else count)
  {
    SpanSize(0, count);
  }

  /** The least of a finite set of keys: the next key `Object.keys` lists. */
  ghost function MinOf(keys: set<nat>): (m: nat)
    requires keys != {}
    ensures m in keys && forall j :: j in keys ==> m <= j
    decreases keys
  {
    var x :| x in keys;
    if keys == {x} then x
    else
      var m := MinOf(keys - {x});
      assert forall j :: j in keys ==> j == x || j in keys - {x};
      if x < m then x else m
  }

  /**
   * Where the ghost is sent on release: the drop target is the hovered row
   * when it is still queued, and otherwise the row the drag started from.
   */
  function DropTarget(gridIndexToDrop: int, dropIndexesQueue: set<nat>, selectedIndex: int): (target: int)
    ensures target == selectedIndex || target in dropIndexesQueue
    ensures gridIndexToDrop in dropIndexesQueue ==> target == gridIndexToDrop
    ensures gridIndexToDrop !in dropIndexesQueue ==> target == selectedIndex
  {
    if gridIndexToDrop == -1 || gridIndexToDrop !in dropIndexesQueue then selectedIndex else gridIndexToDrop
  }

  /**
   * The ghost's final position, scroll-adjusted: the target row's origin, or
   * when deleting, vertically centred on the bin with its left edge half a
   * row-width to the right of the bin's `x` (the target is then the selected
   * row itself).
   */
  function DropDestination(target: Box, shouldDelete: bool, bin: BinLayout, scroll: Offset): (p: Point)
    ensures !shouldDelete ==> p.top + scroll.y == target.y && p.left + scroll.x == target.x
    ensures shouldDelete ==> p.top + scroll.y + target.height * 0.5 == bin.y + bin.height * 0.5
    ensures shouldDelete ==> p.left + scroll.x == bin.x + target.width * 0.5
  {
    if shouldDelete then
      Point(bin.y - target.height * 0.5 + bin.height * 0.5 - scroll.y, bin.x + target.width * 0.5 - scroll.x)
    else
      Point(target.y - scroll.y, target.x - scroll.x)
  }

  /** The indices a release reads from `data` lie inside it. */
  predicate ReleaseFits<T>(props: Props, data: seq<Slot<T>>, selectedIndex: int, shouldDelete: bool,
                           gridIndexToDrop: int, dropIndexesQueue: set<nat>)
  {
    && IndicesFit(data, selectedIndex, gridIndexToDrop, dropIndexesQueue)
    && (shouldDelete && props.hasOnDelete && selectedIndex != -1 ==> selectedIndex < |data|)
  }

  /**
   * The calls a release makes, in order: `onDelete` when released over the
   * bin, then `onSortOrderUpdate` with the reordered data when the reorder
   * proceeds.
   */
  function ReleaseCalls<T>(props: Props, data: seq<Slot<T>>, selectedIndex: int, shouldDelete: bool,
                           gridIndexToDrop: int, dropIndexesQueue: set<nat>): seq<Callback<T>>
    requires -1 <= selectedIndex && -1 <= gridIndexToDrop
    requires ReleaseFits(props, data, selectedIndex, shouldDelete, gridIndexToDrop, dropIndexesQueue)
  {
    var deleted := if shouldDelete && props.hasOnDelete && selectedIndex != -1
                   then [OnDelete(selectedIndex, data[selectedIndex], data)] else [];
    var arranged := Arranged(data, selectedIndex, gridIndexToDrop, dropIndexesQueue);
    deleted + if arranged.Some? && props.hasOnSortOrderUpdate then [OnSortOrderUpdate(arranged.value)] else []
  }

  /** A release over the bin never reorders: only `onDelete` may be called. */
  lemma DeleteNeverReorders<T>(props: Props, data: seq<Slot<T>>, selectedIndex: int, dropIndexesQueue: set<nat>)
    requires -1 <= selectedIndex
    requires ReleaseFits(props, data, selectedIndex, true, -1, dropIndexesQueue)
    ensures forall c :: c in ReleaseCalls(props, data, selectedIndex, true, -1, dropIndexesQueue) ==> c.OnDelete?
    ensures |ReleaseCalls(props, data, selectedIndex, true, -1, dropIndexesQueue)| <= 1
  {
  }

  /**
   * The hit test's progress after the rows `visited` were tested, starting
   * from the queue `queue0` and the candidate `grid0`: rows under the pointer
   * were queued, stale rows with a scale entry were dropped, and the largest
   * row under the pointer so far is the candidate.
   */
  ghost predicate Scanned(visited: set<nat>, registry: map<nat, Box>, scales: set<nat>, moveX: real, contentY: real,
                          queue0: set<nat>, grid0: int, queue: set<nat>, grid: int)
  {
    var hits := HitsAmong(visited, registry, moveX, contentY);
    && queue == (queue0 - StaleAmong(visited, registry, scales, moveX, contentY)) + hits
    && (hits == {} ==> grid == grid0)
    && (hits != {} ==> IsLargest(grid, hits))
  }

  /**
   * What a finished pass means row by row: every tested row under the pointer
   * is queued; a tested row not under it keeps its queue entry exactly when
   * it has no scale entry; untested rows keep theirs; a changed candidate is
   * a tested row under the pointer, at least as large as every other one.
   */
  lemma {:induction false} ScannedRows(visited: set<nat>, registry: map<nat, Box>, scales: set<nat>, moveX: real,
                                       contentY: real, queue0: set<nat>, grid0: int, queue: set<nat>, grid: int, k: nat)
    requires Scanned(visited, registry, scales, moveX, contentY, queue0, grid0, queue, grid)
    ensures k in visited && k in registry && Droppable(registry[k], moveX, contentY) ==> k in queue && k <= grid
    ensures k in visited && k in registry && !Droppable(registry[k], moveX, contentY)
            ==> (k in queue <==> k in queue0 && k !in scales)
    ensures k !in visited ==> (k in queue <==> k in queue0)
    ensures grid != grid0 ==> grid in visited && grid in registry && Droppable(registry[grid], moveX, contentY)
  {
    var hits := HitsAmong(visited, registry, moveX, contentY);
    var stale := StaleAmong(visited, registry, scales, moveX, contentY);
    assert k in hits <==> k in visited && k in registry && Droppable(registry[k], moveX, contentY);
    assert k in stale <==> k in visited && k in registry && k in scales && !Droppable(registry[k], moveX, contentY);
    if grid != grid0 {
      assert hits != {};
    }
  }

  /**
   * The test of one row, from the queue and candidate `queue`, `grid` to
   * `queue'`, `grid'`: a row under the pointer is queued and becomes the
   * candidate; a queued row no longer under it leaves the queue when it has a
   * scale entry; anything else changes nothing.
   */
  predicate RowTested(key: nat, box: Box, moveX: real, contentY: real, scales: set<nat>,
                      queue: set<nat>, grid: int, queue': set<nat>, grid': int)
  {
    if Droppable(box, moveX, contentY) then queue' == queue + {key} && grid' == key
    else if key in queue && key in scales then queue' == queue - {key} && grid' == grid
    else queue' == queue && grid' == grid
  }

  /**
   * Midway through the pass: `visited` are the keys tested so far, all below
   * the `keys` still to test, and the queue and candidate reflect them.
   */
  ghost predicate Scanning(keys: set<nat>, visited: set<nat>, registry: map<nat, Box>, scales: set<nat>, moveX: real,
                           contentY: real, queue0: set<nat>, grid0: int, queue: set<nat>, grid: int)
  {
    && keys + visited == registry.Keys
    && keys !! visited
    && (forall a, b :: a in visited && b in keys ==> a < b)
    && Scanned(visited, registry, scales, moveX, contentY, queue0, grid0, queue, grid)
  }

  /** Testing the least key still to test extends the progress by that row. */
  lemma ScanStep(keys: set<nat>, visited: set<nat>, key: nat, registry: map<nat, Box>, scales: set<nat>, moveX: real,
                 contentY: real, queue0: set<nat>, grid0: int, queue: set<nat>, grid: int, queue': set<nat>, grid': int)
    requires Scanning(keys, visited, registry, scales, moveX, contentY, queue0, grid0, queue, grid)
    requires key in keys && forall j :: j in keys ==> key <= j
    requires RowTested(key, registry[key], moveX, contentY, scales, queue, grid, queue', grid')
    ensures Scanning(keys - {key}, visited + {key}, registry, scales, moveX, contentY, queue0, grid0, queue', grid')
  {
    HitsStep(visited, key, registry, moveX, contentY);
    StaleStep(visited, key, registry, scales, moveX, contentY);
    var hits := HitsAmong(visited, registry, moveX, contentY);
    var stale := StaleAmong(visited, registry, scales, moveX, contentY);
    if Droppable(registry[key], moveX, contentY) {
      assert forall j :: j in hits ==> j < key;
    } else {
      assert key !in stale && key !in hits;
    }
    assert (keys - {key}) + (visited + {key}) == keys + visited;
  }

  /** Before the pass nothing is tested; after it, every registered row was. */
  lemma ScanBounds(registry: map<nat, Box>, scales: set<nat>, moveX: real, contentY: real,
                   queue0: set<nat>, grid0: int, visited: set<nat>, queue: set<nat>, grid: int)
    ensures Scanning(registry.Keys, {}, registry, scales, moveX, contentY, queue0, grid0, queue0, grid0)
    ensures Scanning({}, visited, registry, scales, moveX, contentY, queue0, grid0, queue, grid)
            ==> Scanned(registry.Keys, registry, scales, moveX, contentY, queue0, grid0, queue, grid)
  {
    assert HitsAmong({}, registry, moveX, contentY) == {};
    assert StaleAmong({}, registry, scales, moveX, contentY) == {};
  }

  /** Deleting the keys `lo`, ..., `i - 1` and then `i` deletes `lo`, ..., `i`. */
  lemma MapMinusStep<V>(m: map<nat, V>, lo: nat, i: nat)
    requires lo <= i
    ensures (m - Span(lo, i)) - {i} == m - Span(lo, i + 1)
  {
    assert Span(lo, i + 1) == Span(lo, i) + {i};
  }

  /** The same step for the set of scale keys. */
  lemma SetMinusStep(s: set<nat>, lo: nat, i: nat)
    requires lo <= i
    ensures (s - Span(lo, i)) - {i} == s - Span(lo, i + 1)
  {
    assert Span(lo, i + 1) == Span(lo, i) + {i};
  }

  class DragAndDropScrollView {
    /** The row being dragged, or -1. */
    var selectedIndex: int
    var hasMoved: bool
    /**
     * Set by a move over the bin and cleared only by a later move away from
     * it; a release leaves it set.
     */
    var shouldDelete: bool
    /** The last hovered row, or -1. */
    var gridIndexToDrop: int
    /** Rows currently highlighted as drop candidates. */
    var dropIndexesQueue: set<nat>
    /** Last reported layout of each row. */
    var rowInfo: map<nat, Box>
    /** The rows that have a scale animation entry. */
    var scaleKeys: set<nat>
    var containerLayout: ContainerLayout
    var binLayout: BinLayout
    var scrollOffset: Offset
    /** The ghost overlay's position. */
    var animatedTop: real
    var animatedLeft: real

    /** A hover candidate is never kept while the pointer is over the bin. */
    ghost predicate Valid()
      reads this
    {
      && -1 <= selectedIndex
      && -1 <= gridIndexToDrop
      && (shouldDelete ==> gridIndexToDrop == -1)
    }

    /** The indices a release would read from `data` lie inside it. */
    predicate Fits<T>(props: Props, data: seq<Slot<T>>)
      reads this
    {
      ReleaseFits(props, data, selectedIndex, shouldDelete, gridIndexToDrop, dropIndexesQueue)
    }

    /** The pointer is over the bin, which is shown and has been laid out. */
    predicate OverBin(props: Props, gesture: Gesture)
      reads this
    {
      props.showBin && binLayout.height != 0.0 && NearBin(binLayout, gesture.moveX, gesture.moveY, scrollOffset.y)
    }

    constructor ()
      ensures Valid()
      ensures selectedIndex == -1 && !hasMoved && !shouldDelete && gridIndexToDrop == -1
      ensures dropIndexesQueue == {} && rowInfo == map[] && scaleKeys == {}
      ensures containerLayout == Unmeasured && binLayout == NoBin && scrollOffset == Offset(0.0, 0.0)
      ensures animatedTop == 0.0 && animatedLeft == 0.0
    {
      selectedIndex, hasMoved, shouldDelete, gridIndexToDrop := -1, false, false, -1;
      dropIndexesQueue, rowInfo, scaleKeys := {}, map[], {};
      containerLayout, binLayout, scrollOffset := Unmeasured, NoBin, Offset(0.0, 0.0);
      animatedTop, animatedLeft := 0.0, 0.0;
    }

    /**
     * The state after a completed release: the owner got ReleaseCalls, every
     * highlighted row with a scale entry is cleared, the session is idle, and
     * the ghost sits on the drop target when that row has a layout.
     */
    twostate predicate Released<T>(props: Props, data: seq<Slot<T>>, new calls: seq<Callback<T>>)
      requires old(Valid()) && old(Fits(props, data))
      reads this
    {
      && calls == ReleaseCalls(props, data, old(selectedIndex), old(shouldDelete), old(gridIndexToDrop),
                               old(dropIndexesQueue))
      && dropIndexesQueue == old(dropIndexesQueue) - old(scaleKeys)
      && selectedIndex == -1
      && !hasMoved
      && var target := DropTarget(old(gridIndexToDrop), old(dropIndexesQueue), old(selectedIndex));
         if target >= 0 && target in old(rowInfo) then
           Point(animatedTop, animatedLeft)
           == DropDestination(old(rowInfo)[target], old(shouldDelete), old(binLayout), old(scrollOffset))
         else
           animatedTop == old(animatedTop) && animatedLeft == old(animatedLeft)
    }

    /**
     * The state after a move while a row is selected: the ghost is centred on
     * the pointer; over the bin every highlight is cleared and deletion is
     * armed; elsewhere the highlights are the rows under the pointer plus the
     * earlier ones without a scale entry, and the largest row under the
     * pointer becomes the drop candidate.
     */
    twostate predicate Dragged(props: Props, gesture: Gesture)
      requires old(selectedIndex) >= 0 && old(selectedIndex) in old(rowInfo)
      reads this
    {
      && Point(animatedTop, animatedLeft)
         == GhostPosition(gesture.moveX, gesture.moveY, containerLayout, old(rowInfo)[old(selectedIndex)])
      && selectedIndex == old(selectedIndex)
      && hasMoved == old(hasMoved)
      && if OverBin(props, gesture) then
           && shouldDelete
           && gridIndexToDrop == -1
           && dropIndexesQueue == old(dropIndexesQueue) - scaleKeys
         else
           && !shouldDelete
           && Scanned(rowInfo.Keys, rowInfo, scaleKeys, gesture.moveX, ContentY(gesture.moveY, containerLayout, scrollOffset),
                      old(dropIndexesQueue), old(gridIndexToDrop), dropIndexesQueue, gridIndexToDrop)
    }

    /** Restores a row's scale and drops it from the queue; a row without a scale entry stays queued. */
    method NormalizeGrid(key: nat)
      modifies this`dropIndexesQueue
      ensures dropIndexesQueue == if key in scaleKeys then old(dropIndexesQueue) - {key} else old(dropIndexesQueue)
    {
      if key !in scaleKeys {
        return;
      }
      dropIndexesQueue := dropIndexesQueue - {key};
    }

    /** Normalizes every queued row. */
    method CommonActionsOnRelease()
      modifies this`dropIndexesQueue
      ensures dropIndexesQueue == old(dropIndexesQueue) - scaleKeys
    {
      var keys := dropIndexesQueue;
      ghost var queue0 := dropIndexesQueue;
      while keys != {}
        invariant keys <= queue0
        invariant dropIndexesQueue == queue0 - (queue0 - keys) * scaleKeys
        decreases keys
      {
        var key :| key in keys;
        NormalizeGrid(key);
        keys := keys - {key};
      }
    }

    /** The effect on a change of `data`: registry and scale entries from the new length up to the old count are deleted. */
    method PruneRegistry(numberOfItems: nat)
      modifies this`rowInfo, this`scaleKeys
      ensures rowInfo == old(rowInfo) - Span(numberOfItems, |old(rowInfo)|)
      ensures scaleKeys == old(scaleKeys) - Span(numberOfItems, |old(scaleKeys)|)
    {
      PruneRowInfo(numberOfItems);
      PruneScales(numberOfItems);
    }

    /** The first loop of the pruning effect, over the row layouts. */
    method PruneRowInfo(numberOfItems: nat)
      modifies this`rowInfo
      ensures rowInfo == old(rowInfo) - Span(numberOfItems, |old(rowInfo)|)
    {
      var infoListLength := |rowInfo|;
      if infoListLength > numberOfItems {
        for i := numberOfItems to infoListLength
          invariant rowInfo == old(rowInfo) - Span(numberOfItems, i)
        {
          MapMinusStep(old(rowInfo), numberOfItems, i);
          rowInfo := rowInfo - {i};
        }
      } else {
        assert Span(numberOfItems, infoListLength) == {};
      }
    }

    /** The second loop of the pruning effect, over the scale entries. */
    method PruneScales(numberOfItems: nat)
      modifies this`scaleKeys
      ensures scaleKeys == old(scaleKeys) - Span(numberOfItems, |old(scaleKeys)|)
    {
      var scaleListLength := |scaleKeys|;
      if scaleListLength > numberOfItems {
        for i := numberOfItems to scaleListLength
          invariant scaleKeys == old(scaleKeys) - Span(numberOfItems, i)
        {
          SetMinusStep(old(scaleKeys), numberOfItems, i);
          scaleKeys := scaleKeys - {i};
        }
      } else {
        assert Span(numberOfItems, scaleListLength) == {};
      }
    }

    /** Rendering the rows gives every index of `data` a scale entry, keeping existing ones. */
    method RegisterRowScales(numberOfItems: nat)
      modifies this`scaleKeys
      ensures scaleKeys == old(scaleKeys) + Span(0, numberOfItems)
    {
      for index := 0 to numberOfItems
        invariant scaleKeys == old(scaleKeys) + Span(0, index)
      {
        scaleKeys := scaleKeys + {index};
      }
    }

    /**
     * The `move` callback handed to each row: selects the row and puts the
     * ghost over it. Without a layout for the row the source throws after
     * selecting it; the ghost is then left where it was.
     */
    method Move(props: Props, index: nat)
      requires Valid()
      modifies this`selectedIndex, this`animatedTop, this`animatedLeft
      ensures Valid()
      ensures !props.enableDragDrop ==> unchanged(this)
      ensures props.enableDragDrop ==> selectedIndex == index
      ensures props.enableDragDrop && index in rowInfo
              ==> animatedTop == rowInfo[index].y - scrollOffset.y && animatedLeft == rowInfo[index].x - scrollOffset.x
      ensures index !in rowInfo ==> animatedTop == old(animatedTop) && animatedLeft == old(animatedLeft)
    {
      if !props.enableDragDrop {
        return;
      }
      selectedIndex := index;
      if index !in rowInfo {
        return;
      }
      var selectedItemInfo := rowInfo[index];
      animatedTop := selectedItemInfo.y - scrollOffset.y;
      animatedLeft := selectedItemInfo.x - scrollOffset.x;
    }

    /**
     * The `moveEnd` callback: a press that never moved ends the session at
     * once; after a move the release handles it.
     */
    method MoveEnd(props: Props)
      requires Valid()
      modifies this`selectedIndex, this`hasMoved, this`dropIndexesQueue
      ensures Valid()
      ensures !props.enableDragDrop || old(hasMoved) ==> unchanged(this)
      ensures props.enableDragDrop && !old(hasMoved)
              ==> selectedIndex == -1 && !hasMoved && dropIndexesQueue == old(dropIndexesQueue) - scaleKeys
    {
      if !props.enableDragDrop {
        return;
      }
      if !hasMoved {
        CommonActionsOnRelease();
        selectedIndex := -1;
        hasMoved := false;
      }
    }

    /**
     * Sends the ghost to the drop target: the hovered row when it is still
     * queued, otherwise the selected row; over the bin, to the bin's centre
     * line. A target without a layout leaves the ghost where it is.
     */
    method AnimateDropped()
      requires Valid()
      modifies this`animatedTop, this`animatedLeft
      ensures var target := DropTarget(gridIndexToDrop, dropIndexesQueue, selectedIndex);
              if target >= 0 && target in rowInfo then
                Point(animatedTop, animatedLeft) == DropDestination(rowInfo[target], shouldDelete, binLayout, scrollOffset)
              else
                animatedTop == old(animatedTop) && animatedLeft == old(animatedLeft)
    {
      var index := gridIndexToDrop;
      if gridIndexToDrop == -1 || gridIndexToDrop !in dropIndexesQueue {
        index := selectedIndex;
      }
      if index >= 0 && index in rowInfo {
        var dropGrid := rowInfo[index];
        var top, left := dropGrid.y, dropGrid.x;
        if shouldDelete {
          var selectedItemInfo := rowInfo[selectedIndex];
          top := binLayout.y - selectedItemInfo.height * 0.5 + binLayout.height * 0.5;
          left := binLayout.x + selectedItemInfo.width * 0.5;
        }
        animatedTop, animatedLeft := top - scrollOffset.y, left - scrollOffset.x;
      }
    }

    /**
     * Release: resolve the drop target and move the ghost there, then call
     * `onDelete` if over the bin, run the reorder, clear the highlights and
     * end the session.
     */
    method OnRelease<T>(props: Props, data: seq<Slot<T>>) returns (calls: seq<Callback<T>>)
      requires Valid() && Fits(props, data)
      modifies this`selectedIndex, this`hasMoved, this`dropIndexesQueue, this`animatedTop, this`animatedLeft
      ensures Valid()
      ensures Released(props, data, calls)
      ensures old(shouldDelete) ==> forall c :: c in calls ==> c.OnDelete?
    {
      AnimateDropped();
      calls := [];
      if shouldDelete && props.hasOnDelete && selectedIndex != -1 {
        calls := calls + [OnDelete(selectedIndex, data[selectedIndex], data)];
      }
      var emitted := ArrangeGrids(data, selectedIndex, gridIndexToDrop, dropIndexesQueue);
      if emitted.Some? && props.hasOnSortOrderUpdate {
        calls := calls + [OnSortOrderUpdate(emitted.value)];
      }
      hasMoved := false;
      CommonActionsOnRelease();
      selectedIndex := -1;
    }

    /**
     * Whether the view takes over a move: a second touch forces a release;
     * otherwise only while a row is selected, which marks the session moved.
     */
    method OnMoveShouldSetPanResponder<T>(props: Props, data: seq<Slot<T>>, numberActiveTouches: nat)
      returns (shouldSet: bool, calls: seq<Callback<T>>)
      requires Valid() && Fits(props, data)
      modifies this`selectedIndex, this`hasMoved, this`dropIndexesQueue, this`animatedTop, this`animatedLeft
      ensures Valid()
      ensures !props.enableDragDrop ==> !shouldSet && calls == [] && unchanged(this)
      ensures props.enableDragDrop && numberActiveTouches > 1 ==> !shouldSet && Released(props, data, calls)
      ensures props.enableDragDrop && numberActiveTouches <= 1
              ==> && shouldSet == (old(selectedIndex) != -1)
                  && hasMoved == (old(hasMoved) || shouldSet)
                  && calls == []
                  && unchanged(this`selectedIndex, this`dropIndexesQueue, this`animatedTop, this`animatedLeft)
    {
      if !props.enableDragDrop {
        return false, [];
      }
      if numberActiveTouches > 1 {
        calls := OnRelease(props, data);
        return false, calls;
      }
      shouldSet := selectedIndex != -1;
      if shouldSet {
        hasMoved := true;
      }
      calls := [];
    }

    /**
     * The test of one row: a row under the pointer is queued and becomes the
     * drop candidate; a queued row no longer under it is normalized.
     */
    method HitTestRow(key: nat, box: Box, moveX: real, contentY: real)
      modifies this`dropIndexesQueue, this`gridIndexToDrop
      ensures RowTested(key, box, moveX, contentY, scaleKeys, old(dropIndexesQueue), old(gridIndexToDrop),
                        dropIndexesQueue, gridIndexToDrop)
    {
      if Droppable(box, moveX, contentY) {
        dropIndexesQueue := dropIndexesQueue + {key};
        gridIndexToDrop := key;
      } else if key in dropIndexesQueue {
        NormalizeGrid(key);
      }
    }

    /**
     * One pass over the row registry in ascending key order (the order
     * `Object.keys` lists integer keys in), testing each row; so the largest
     * row under the pointer ends up the drop candidate.
     */
    method HitTest(moveX: real, contentY: real)
      modifies this`dropIndexesQueue, this`gridIndexToDrop
      ensures Scanned(rowInfo.Keys, rowInfo, scaleKeys, moveX, contentY, old(dropIndexesQueue), old(gridIndexToDrop),
                      dropIndexesQueue, gridIndexToDrop)
    {
      var registry, scales := rowInfo, scaleKeys;
      ghost var queue0 := dropIndexesQueue;
      ghost var grid0 := gridIndexToDrop;
      ghost var visited: set<nat> := {};
      var keys := registry.Keys;
      ScanBounds(registry, scales, moveX, contentY, queue0, grid0, visited, queue0, grid0);
      while keys != {}
        invariant Scanning(keys, visited, registry, scales, moveX, contentY, queue0, grid0, dropIndexesQueue, gridIndexToDrop)
        decreases |keys|
      {
        // `MinOf` is a witness for the `:|` below: the set's least key exists.
        ghost var least := MinOf(keys);
        var key :| key in keys && forall j :: j in keys ==> key <= j;
        ghost var queue, grid := dropIndexesQueue, gridIndexToDrop;
        HitTestRow(key, registry[key], moveX, contentY);
        ScanStep(keys, visited, key, registry, scales, moveX, contentY, queue0, grid0, queue, grid,
                 dropIndexesQueue, gridIndexToDrop);
        keys := keys - {key};
        visited := visited + {key};
      }
      ScanBounds(registry, scales, moveX, contentY, queue0, grid0, visited, dropIndexesQueue, gridIndexToDrop);
    }

    /**
     * A move of the pointer. A second touch forces a release; without a
     * selection nothing happens (nor when the selected row has no layout,
     * where the source throws before changing anything). Otherwise the ghost
     * follows the pointer, and either the bin arms deletion or the rows are
     * hit-tested in ascending key order.
     */
    method OnPanResponderMove<T>(props: Props, data: seq<Slot<T>>, gesture: Gesture) returns (calls: seq<Callback<T>>)
      requires Valid() && Fits(props, data)
      modifies this`selectedIndex, this`hasMoved, this`shouldDelete, this`gridIndexToDrop, this`dropIndexesQueue
      modifies this`animatedTop, this`animatedLeft
      ensures Valid()
      ensures !props.enableDragDrop ==> calls == [] && unchanged(this)
      ensures props.enableDragDrop && gesture.numberActiveTouches > 1
              ==> Released(props, data, calls) && unchanged(this`shouldDelete, this`gridIndexToDrop)
      ensures props.enableDragDrop && gesture.numberActiveTouches <= 1
              && (old(selectedIndex) == -1 || old(selectedIndex) !in rowInfo)
              ==> calls == [] && unchanged(this)
      ensures props.enableDragDrop && gesture.numberActiveTouches <= 1
              && old(selectedIndex) >= 0 && old(selectedIndex) in rowInfo
              ==> calls == [] && Dragged(props, gesture)
    {
      if !props.enableDragDrop {
        return [];
      }
      if gesture.numberActiveTouches > 1 {
        calls := OnRelease(props, data);
        return;
      }
      calls := [];
      if selectedIndex == -1 || selectedIndex !in rowInfo {
        return;
      }
      Drag(props, gesture);
    }

    /** The move handler once a row with a layout is selected: the ghost follows the pointer, then bin or hit test. */
    method Drag(props: Props, gesture: Gesture)
      requires Valid() && selectedIndex >= 0 && selectedIndex in rowInfo
      modifies this`shouldDelete, this`gridIndexToDrop, this`dropIndexesQueue, this`animatedTop, this`animatedLeft
      ensures Valid()
      ensures Dragged(props, gesture)
    {
      var selectedItemInfo := rowInfo[selectedIndex];
      var position := GhostPosition(gesture.moveX, gesture.moveY, containerLayout, selectedItemInfo);
      animatedTop, animatedLeft := position.top, position.left;

      if props.showBin && binLayout.height != 0.0 {
        if NearBin(binLayout, gesture.moveX, gesture.moveY, scrollOffset.y) {
          CommonActionsOnRelease();
          gridIndexToDrop := -1;
          shouldDelete := true;
          return;
        }
      }
      shouldDelete := false;

      HitTest(gesture.moveX, ContentY(gesture.moveY, containerLayout, scrollOffset));
    }
  }
}
