/**
 * Worked examples: the two moves the reorder is usually explained with, and
 * a hit test over four stacked rows.
 */
module Scenarios {
  import opened Wrappers
  import opened Reorder
  import opened Geometry
  import opened DragAndDrop

  datatype Item = A | B | C | D

  const Abcd: seq<Slot<Item>> := [Defined(A), Defined(B), Defined(C), Defined(D)]

  /** Dragging the first row onto the third puts it right after C. */
  lemma {:induction false} ForwardDrop()
    ensures Arranged(Abcd, 0, 2, {2}) == Some([Defined(B), Defined(C), Defined(A), Defined(D)])
  {
    var r := Relocate(Abcd, 0, 2);
    assert r == [Defined(B), Defined(C), Defined(A), Defined(D)];
    assert DropUndefined(r) == r;
  }

  /** Dragging the last row onto the second puts it right before B. */
  lemma {:induction false} BackwardDrop()
    ensures Arranged(Abcd, 3, 1, {1}) == Some([Defined(A), Defined(D), Defined(B), Defined(C)])
  {
    var r := Relocate(Abcd, 3, 1);
    assert r == [Defined(A), Defined(D), Defined(B), Defined(C)];
    assert DropUndefined(r) == r;
  }

  /** Four rows 100 high, stacked top to bottom. */
  const Rows: map<nat, Box> := map[0 := Box(0.0, 0.0, 300.0, 100.0), 1 := Box(0.0, 100.0, 300.0, 100.0),
                                   2 := Box(0.0, 200.0, 300.0, 100.0), 3 := Box(0.0, 300.0, 300.0, 100.0)]

  /** A pointer in the middle of the third row hits that row only. */
  lemma {:induction false} PointerOverThirdRow(queue0: set<nat>, grid0: int, queue: set<nat>, grid: int)
    requires Scanned(Rows.Keys, Rows, Span(0, 4), 150.0, 250.0, queue0, grid0, queue, grid)
    ensures queue == (queue0 - {0, 1, 3}) + {2} && grid == 2
  {
    assert Rows.Keys == {0, 1, 2, 3};
    assert Droppable(Rows[2], 150.0, 250.0);
    assert HitsAmong(Rows.Keys, Rows, 150.0, 250.0) == {2};
    assert StaleAmong(Rows.Keys, Rows, Span(0, 4), 150.0, 250.0) == {0, 1, 3};
  }
}
