/**
 * The reorder engine of the drag-and-drop scroll view: on release, the
 * selected item is taken out of `data` and put back next to the row it was
 * dropped on. The specification is "remove at the selected index, insert at
 * the drop index" (Relocate); ArrangeGrids is the push/slice/concat/filter
 * construction the component actually runs, proved equal to it.
 */
module Reorder {
  import opened Wrappers

  /** A slot of a JavaScript array: it may hold `undefined`. */
  datatype Slot<+T> = Undefined | Defined(item: T)

  predicate AllDefined<T>(xs: seq<Slot<T>>)
  {
    forall k :: 0 <= k < |xs| ==> xs[k].Defined?
  }

  /** `xs` without its element at index `i`. */
  function RemoveAt<T>(xs: seq<T>, i: nat): (r: seq<T>)
    requires i < |xs|
    ensures |r| == |xs| - 1
    ensures forall k :: 0 <= k < i ==> r[k] == xs[k]
    ensures forall k :: i <= k < |r| ==> r[k] == xs[k + 1]
  {
    xs[..i] + xs[i + 1..]
  }

  /** `xs` with `x` inserted so that it ends up at index `i`. */
  function InsertAt<T>(xs: seq<T>, i: nat, x: T): (r: seq<T>)
    requires i <= |xs|
    ensures |r| == |xs| + 1
    ensures r[i] == x
    ensures forall k :: 0 <= k < i ==> r[k] == xs[k]
    ensures forall k :: i < k < |r| ==> r[k] == xs[k - 1]
  {
    xs[..i] + [x] + xs[i..]
  }

  /** The reference definition of a move: remove at `from`, insert at `to`. */
  function Relocate<T>(xs: seq<T>, from: nat, to: nat): (r: seq<T>)
    requires from < |xs| && to < |xs|
    ensures |r| == |xs|
    ensures r[to] == xs[from]
  {
    InsertAt(RemoveAt(xs, from), to, xs[from])
  }

  /** The index of `xs` whose element a move from `from` to `to` puts at `k`. */
  function Origin(from: nat, to: nat, k: nat): nat
  {
    if k == to then from
    else if from < to && from <= k < to then k + 1
    else if to < from && to < k <= from then k - 1
    else k
  }

  /**
   * Where every element goes: the moved item lands at `to`, the items between
   * the two indices shift by one towards `from`, and the items outside the
   * closed range of the two indices keep their positions.
   */
  lemma RelocateAt<T>(xs: seq<T>, from: nat, to: nat, k: nat)
    requires from < |xs| && to < |xs| && k < |xs|
    ensures Origin(from, to, k) < |xs|
    ensures Relocate(xs, from, to)[k] == xs[Origin(from, to, k)]
  {
  }

  /**
   * The moved item lands right after the drop target when it is moved
   * forward and right before it when it is moved backward.
   */
  lemma {:induction false} LandsBesideTarget<T>(xs: seq<T>, from: nat, to: nat)
    requires from < |xs| && to < |xs|
    ensures from < to ==> Relocate(xs, from, to)[to - 1] == xs[to]
    ensures to < from ==> Relocate(xs, from, to)[to + 1] == xs[to]
  {
    if from < to {
      RelocateAt(xs, from, to, to - 1);
    } else if to < from {
      RelocateAt(xs, from, to, to + 1);
    }
  }

  /** Items outside the closed range between the two indices keep their positions. */
  lemma {:induction false} KeepsOutsideRange<T>(xs: seq<T>, from: nat, to: nat, k: nat)
    requires from < |xs| && to < |xs| && k < |xs|
    requires (k < from && k < to) || (k > from && k > to)
    ensures Relocate(xs, from, to)[k] == xs[k]
  {
    RelocateAt(xs, from, to, k);
  }

  /** A move is a permutation: no element is lost, none is duplicated. */
  lemma {:induction false} RelocatePermutation<T>(xs: seq<T>, from: nat, to: nat)
    requires from < |xs| && to < |xs|
    ensures multiset(Relocate(xs, from, to)) == multiset(xs)
  {
    var ys := RemoveAt(xs, from);
    assert xs == xs[..from] + [xs[from]] + xs[from + 1..];
    assert multiset(xs) == multiset(ys) + multiset{xs[from]};
    assert ys == ys[..to] + ys[to..];
    assert Relocate(xs, from, to) == ys[..to] + [xs[from]] + ys[to..];
  }

  /** Moving the item back from `to` to `from` undoes the move. */
  lemma {:induction false} RelocateUndo<T>(xs: seq<T>, from: nat, to: nat)
    requires from < |xs| && to < |xs|
    ensures Relocate(Relocate(xs, from, to), to, from) == xs
  {
    var ys := Relocate(xs, from, to);
    var zs := Relocate(ys, to, from);
    forall k | 0 <= k < |xs|
      ensures zs[k] == xs[k]
    {
      RelocateAt(ys, to, from, k);
      RelocateAt(xs, from, to, Origin(to, from, k));
    }
  }

  /** `xs` without its `undefined` slots (the array's `filter` at the end of the construction). */
  function DropUndefined<T>(xs: seq<Slot<T>>): (r: seq<Slot<T>>)
    ensures AllDefined(r)
    ensures |r| <= |xs|
    ensures multiset(xs) == multiset(r)[Undefined := |xs| - |r|]
    ensures AllDefined(xs) ==> r == xs
  {
    if xs == [] then []
    else
      assert xs == [xs[0]] + xs[1..];
      var head := if xs[0].Undefined? then [] else [xs[0]];
      assert multiset(xs) == multiset{xs[0]} + multiset(xs[1..]);
      head + DropUndefined(xs[1..])
  }

  /** The filter keeps a defined slot and drops an `undefined` one. */
  lemma DropUndefinedSingle<T>(x: Slot<T>)
    ensures DropUndefined([x]) == if x.Undefined? then [] else [x]
  {
    assert [x][1..] == [];
  }

  /**
   * The filter works slot by slot: filtering a concatenation concatenates the
   * filtered parts, so the kept slots stay in their order.
   */
  lemma {:induction false} DropUndefinedAppend<T>(a: seq<Slot<T>>, b: seq<Slot<T>>)
    ensures DropUndefined(a + b) == DropUndefined(a) + DropUndefined(b)
    decreases |a|
  {
    if a == [] {
      assert a + b == b;
    } else {
      assert (a + b)[1..] == a[1..] + b;
      DropUndefinedAppend(a[1..], b);
    }
  }

  /**
   * The guards of the reorder: nothing happens without a drop index, without
   * a selection, when the two coincide, or when the drop index is not queued.
   */
  predicate Proceeds(selectedIndex: int, dropIndex: int, dropIndexesQueue: set<nat>)
  {
    dropIndex != -1 && selectedIndex != -1 && selectedIndex != dropIndex && dropIndex in dropIndexesQueue
  }

  /** Whether the indices a reorder would read lie inside `data`. */
  predicate IndicesFit<T>(data: seq<Slot<T>>, selectedIndex: int, dropIndex: int, dropIndexesQueue: set<nat>)
  {
    Proceeds(selectedIndex, dropIndex, dropIndexesQueue) ==> selectedIndex < |data| && dropIndex < |data|
  }

  /** What the reorder emits: the relocated data without `undefined` slots, or nothing. */
  function Arranged<T>(data: seq<Slot<T>>, selectedIndex: int, dropIndex: int, dropIndexesQueue: set<nat>)
    : Option<seq<Slot<T>>>
    requires -1 <= selectedIndex && -1 <= dropIndex
    requires IndicesFit(data, selectedIndex, dropIndex, dropIndexesQueue)
  {
    if Proceeds(selectedIndex, dropIndex, dropIndexesQueue)
    then Some(DropUndefined(Relocate(data, selectedIndex, dropIndex)))
    else None
  }

  /**
   * With no `undefined` in `data`, what is emitted is exactly the move, and
   * so a permutation of `data`.
   */
  lemma {:induction false} ArrangedIsPermutation<T>(data: seq<Slot<T>>, selectedIndex: nat, dropIndex: nat,
                                                    dropIndexesQueue: set<nat>)
    requires AllDefined(data)
    requires selectedIndex < |data| && dropIndex < |data|
    requires Proceeds(selectedIndex, dropIndex, dropIndexesQueue)
    ensures Arranged(data, selectedIndex, dropIndex, dropIndexesQueue) == Some(Relocate(data, selectedIndex, dropIndex))
    ensures |Arranged(data, selectedIndex, dropIndex, dropIndexesQueue).value| == |data|
    ensures multiset(Arranged(data, selectedIndex, dropIndex, dropIndexesQueue).value) == multiset(data)
  {
    var r := Relocate(data, selectedIndex, dropIndex);
    forall k | 0 <= k < |r|
      ensures r[k].Defined?
    {
      RelocateAt(data, selectedIndex, dropIndex, k);
    }
    RelocatePermutation(data, selectedIndex, dropIndex);
  }

  /**
   * The second phase of the construction: `newData` is `data` with the drop
   * slot overwritten by the selected item and the selected slot removed; the
   * drop target's own item is then spliced back in on the side of the moved
   * item it was approached from. The result is the move.
   */
  lemma {:induction false} SpliceRelocates<T>(data: seq<T>, s: nat, d: nat, newData: seq<T>)
    requires s < |data| && d < |data| && s != d
    requires |newData| == |data| - 1
    requires forall k :: 0 <= k < |newData| ==> newData[k] == data[d := data[s]][if k < s then k else k + 1]
    ensures d > s ==> newData[..d - 1] + [data[d]] + newData[d - 1..] == Relocate(data, s, d)
    ensures d < s ==> newData[..d + 1] + [data[d]] + newData[d + 1..] == Relocate(data, s, d)
  {
    var r := Relocate(data, s, d);
    if d > s {
      var spliced := newData[..d - 1] + [data[d]] + newData[d - 1..];
      forall k | 0 <= k < |data|
        ensures spliced[k] == r[k]
      {
        RelocateAt(data, s, d, k);
      }
    } else {
      var spliced := newData[..d + 1] + [data[d]] + newData[d + 1..];
      forall k | 0 <= k < |data|
        ensures spliced[k] == r[k]
      {
        RelocateAt(data, s, d, k);
      }
    }
  }

  /**
   * The `data.map` pass of the reorder: every item but the selected one is
   * pushed, the selected item in place of the drop target's; `droppedIndex`
   * is where it was pushed.
   */
  method PushPass<T>(data: seq<T>, s: nat, d: nat) returns (newData: seq<T>, droppedIndex: nat)
    requires s < |data| && d < |data| && s != d
    ensures |newData| == |data| - 1
    ensures forall k :: 0 <= k < |newData| ==> newData[k] == data[d := data[s]][if k < s then k else k + 1]
    ensures droppedIndex == if d < s then d else d - 1
  {
    newData := [];
    droppedIndex := 0;
    var i := 0;
    while i < |data|
      invariant 0 <= i <= |data|
      invariant |newData| == if i <= s then i else i - 1
      invariant forall k :: 0 <= k < |newData| ==> newData[k] == data[d := data[s]][if k < s then k else k + 1]
      invariant d < i ==> droppedIndex == if d < s then d else d - 1
    {
      if s != i {
        if d == i {
          newData := newData + [data[s]];
          droppedIndex := |newData| - 1;
        } else {
          newData := newData + [data[i]];
        }
      }
      i := i + 1;
    }
  }

  /**
   * The reorder as the component runs it: guards, then one pass over `data`
   * pushing every item but the selected one, with the selected item pushed in
   * place of the drop target; the drop target's item is spliced back next to
   * it, and `undefined` slots are filtered out. Emits the relocated data.
   */
  method ArrangeGrids<T>(data: seq<Slot<T>>, selectedIndex: int, gridIndexToDrop: int, dropIndexesQueue: set<nat>)
    returns (emitted: Option<seq<Slot<T>>>)
    requires -1 <= selectedIndex && -1 <= gridIndexToDrop
    requires IndicesFit(data, selectedIndex, gridIndexToDrop, dropIndexesQueue)
    ensures emitted == Arranged(data, selectedIndex, gridIndexToDrop, dropIndexesQueue)
    ensures emitted.None? <==> !Proceeds(selectedIndex, gridIndexToDrop, dropIndexesQueue)
  {
    if gridIndexToDrop == -1 {
      return None;
    }
    if selectedIndex == -1 {
      return None;
    }
    if selectedIndex == gridIndexToDrop {
      return None;
    }
    if gridIndexToDrop !in dropIndexesQueue {
      return None;
    }
    var s: nat, d: nat := selectedIndex, gridIndexToDrop;
    var newData, droppedIndex := PushPass(data, s, d);
    var newDataL2;
    if d > s {
      newDataL2 := newData[..droppedIndex] + [data[d]] + newData[droppedIndex..];
    } else {
      newDataL2 := newData[..droppedIndex + 1] + [data[d]] + newData[droppedIndex + 1..];
    }
    SpliceRelocates(data, s, d, newData);
    emitted := Some(DropUndefined(newDataL2));
  }
}
