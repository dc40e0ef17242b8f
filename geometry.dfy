/**
 * The pure geometry of a drag move: where the ghost overlay is drawn, which
 * rows the pointer is over, whether the pointer is near the delete bin, and
 * whether the list should auto-scroll. Pixel coordinates are exact reals;
 * every layout the component reads is an input here.
 */
module Geometry {

  /** A row's last reported layout: origin and size, in content coordinates. */
  datatype Box = Box(x: real, y: real, width: real, height: real)

  /** The scroll view's content offset; a missing offset reads as (0, 0). */
  datatype Offset = Offset(x: real, y: real)

  /** A position of the ghost overlay: its top and left edge. */
  datatype Point = Point(top: real, left: real)

  /**
   * The container's window position and size; before it is measured its
   * position reads as (0, 0) and its height as missing.
   */
  datatype ContainerLayout = Unmeasured | Measured(x: real, y: real, width: real, height: real)
  {
    function OffsetX(): real
    {
      if Measured? then x else 0.0
    }

    function OffsetY(): real
    {
      if Measured? then y else 0.0
    }
  }

  /**
   * The bin's layout: `x`, `y`, `width`, `height` from its layout event and
   * `x1`, `y1` from its window measurement. A field not yet reported reads as 0.
   */
  datatype BinLayout = BinLayout(x: real, y: real, width: real, height: real, x1: real, y1: real)

  const NoBin := BinLayout(0.0, 0.0, 0.0, 0.0, 0.0, 0.0)

  /** How far outside the bin's box the pointer still counts as over the bin. */
  const BinProximity: real := 10.0

  /**
   * The ghost follows the pointer: its centre is the pointer's position
   * relative to the container.
   */
  function GhostPosition(moveX: real, moveY: real, container: ContainerLayout, selected: Box): (p: Point)
    ensures p.left + selected.width / 2.0 == moveX - container.OffsetX()
    ensures p.top + selected.height / 2.0 == moveY - container.OffsetY()
    ensures container.Unmeasured? ==> p.left + selected.width / 2.0 == moveX && p.top + selected.height / 2.0 == moveY
  {
    var localX := moveX - container.OffsetX();
    var localY := moveY - container.OffsetY();
    Point(localY - selected.height / 2.0, localX - selected.width / 2.0)
  }

  /** The vertical pointer position in content coordinates: container-relative plus the scroll offset. */
  function ContentY(moveY: real, container: ContainerLayout, scroll: Offset): real
  {
    moveY - container.OffsetY() + scroll.y
  }

  /** A row is a drop candidate when the pointer lies strictly inside its box. */
  predicate Droppable(row: Box, moveX: real, contentY: real)
  {
    moveX > row.x && contentY > row.y && moveX < row.x + row.width && contentY < row.y + row.height
  }

  /** The pointer is over the bin: strictly inside the bin's box grown by BinProximity on every side. */
  predicate NearBin(bin: BinLayout, moveX: real, moveY: real, scrollY: real)
  {
    && moveX > bin.x1 - BinProximity
    && moveY + scrollY > bin.y1 - BinProximity
    && moveX < bin.x1 + bin.width + BinProximity
    && moveY + scrollY < bin.y1 + bin.height + BinProximity
  }

  /** The keys among `keys` whose registered box contains the pointer. */
  function HitsAmong(keys: set<nat>, rowInfo: map<nat, Box>, moveX: real, contentY: real): set<nat>
  {
    set k | k in keys && k in rowInfo && Droppable(rowInfo[k], moveX, contentY)
  }

  /**
   * The keys among `keys` whose box does not contain the pointer and that have
   * a scale entry: a hover highlight on them is cleared.
   */
  function StaleAmong(keys: set<nat>, rowInfo: map<nat, Box>, scaleKeys: set<nat>, moveX: real, contentY: real)
    : (stale: set<nat>)
    ensures stale <= keys * scaleKeys
    ensures stale !! HitsAmong(keys, rowInfo, moveX, contentY)
  {
    set k | k in keys && k in rowInfo && k in scaleKeys && !Droppable(rowInfo[k], moveX, contentY)
  }

  lemma HitsStep(keys: set<nat>, key: nat, rowInfo: map<nat, Box>, moveX: real, contentY: real)
    requires key in rowInfo
    ensures HitsAmong(keys + {key}, rowInfo, moveX, contentY)
            == HitsAmong(keys, rowInfo, moveX, contentY) + if Droppable(rowInfo[key], moveX, contentY) then {key} else {}
  {
  }

  lemma StaleStep(keys: set<nat>, key: nat, rowInfo: map<nat, Box>, scaleKeys: set<nat>, moveX: real, contentY: real)
    requires key in rowInfo
    ensures StaleAmong(keys + {key}, rowInfo, scaleKeys, moveX, contentY)
            == StaleAmong(keys, rowInfo, scaleKeys, moveX, contentY)
               + if key in scaleKeys && !Droppable(rowInfo[key], moveX, contentY) then {key} else {}
  {
  }

  /** `m` is the largest element of `s`. */
  predicate IsLargest(m: int, s: set<nat>)
  {
    m in s && forall j :: j in s ==> j <= m
  }

  /** Rows laid out top to bottom in key order, without overlap. */
  predicate Stacked(rowInfo: map<nat, Box>)
  {
    forall i, j :: i in rowInfo && j in rowInfo && i < j ==> rowInfo[i].y + rowInfo[i].height <= rowInfo[j].y
  }

  /**
   * On rows that do not overlap the pointer hits at most one row, so which
   * hit "wins" only matters for overlapping layouts.
   */
  lemma StackedHitsAtMostOne(rowInfo: map<nat, Box>, moveX: real, contentY: real)
    requires Stacked(rowInfo)
    ensures forall a, b ::
              (a in HitsAmong(rowInfo.Keys, rowInfo, moveX, contentY) && b in HitsAmong(rowInfo.Keys, rowInfo, moveX, contentY))
              ==> a == b
  {
  }

  /** A pointer strictly inside the bin's own box is over the bin, and a pointer over the bin is within the margin of it. */
  lemma BinMargin(bin: BinLayout, moveX: real, moveY: real, scrollY: real)
    ensures (bin.x1 < moveX < bin.x1 + bin.width && bin.y1 < moveY + scrollY < bin.y1 + bin.height)
            ==> NearBin(bin, moveX, moveY, scrollY)
    ensures NearBin(bin, moveX, moveY, scrollY)
            ==> bin.x1 - 10.0 < moveX < bin.x1 + bin.width + 10.0
                && bin.y1 - 10.0 < moveY + scrollY < bin.y1 + bin.height + 10.0
  {
  }

  /**
   * The ghost is near the bottom edge: only once the container has been
   * measured. `thresholdFactor` is the `startScrollThresholdFactor` prop.
   */
  predicate ShouldMoveDown(top: real, container: ContainerLayout, heightSelected: real, thresholdFactor: real)
  {
    container.Measured? && top > container.height - heightSelected * thresholdFactor
  }

  /** The ghost is near the top edge. */
  predicate ShouldMoveUp(top: real, container: ContainerLayout, heightSelected: real, thresholdFactor: real)
  {
    top < container.OffsetY() + heightSelected * thresholdFactor
  }

  /**
   * A container at least two edge bands tall never asks to scroll both ways
   * at once; an unmeasured one never asks to scroll down.
   */
  lemma ScrollOneWay(top: real, container: ContainerLayout, heightSelected: real, thresholdFactor: real)
    ensures container.Unmeasured? ==> !ShouldMoveDown(top, container, heightSelected, thresholdFactor)
    ensures container.Measured? && container.height - container.y >= 2.0 * (heightSelected * thresholdFactor)
            ==> !(ShouldMoveDown(top, container, heightSelected, thresholdFactor)
                  && ShouldMoveUp(top, container, heightSelected, thresholdFactor))
  {
  }
}
