/**
 * Calibration of screen regions (`ScreenSelector` in index.py and
 * claude.py): every mouse press records a start point, every release
 * appends the rectangle from that point to the release point, and the
 * window quits once the expected number of rectangles is collected: seven
 * in index.py (question number, title, image, four answers), six in
 * claude.py (title, image, four answers). The list is then unpacked into
 * those roles.
 */
module Selector {
  import opened Wrappers

  /** Number of regions index.py collects. */
  const IndexRegionCount: nat := 7
  /** Number of regions claude.py collects. */
  const ClaudeRegionCount: nat := 6

  /** A selected rectangle `(start_x, start_y, end_x, end_y)`, in whole pixels. */
  datatype Box = Box(startX: int, startY: int, endX: int, endY: int)

  /** One mouse drag: where the button went down and where it came up. */
  datatype Drag = Drag(pressX: int, pressY: int, releaseX: int, releaseY: int)

  function BoxOf(d: Drag): (b: Box)
    ensures b.startX == d.pressX && b.startY == d.pressY && b.endX == d.releaseX && b.endY == d.releaseY
  {
    Box(d.pressX, d.pressY, d.releaseX, d.releaseY)
  }

  function BoxesOf(drags: seq<Drag>): (boxes: seq<Box>)
    ensures |boxes| == |drags|
    ensures forall k :: 0 <= k < |drags| ==> boxes[k] == BoxOf(drags[k])
  {
    seq(|drags|, k requires 0 <= k < |drags| => BoxOf(drags[k]))
  }

  class ScreenSelector {
    /** Number of rectangles after which the window quits. */
    const limit: nat
    var startX: int
    var startY: int
    var selections: seq<Box>

    /** `__init__`, for the given number of regions: no start point yet (0, 0) and no selections. */
    constructor (limit: nat)
      ensures this.limit == limit
      ensures startX == 0 && startY == 0 && selections == []
    {
      this.limit := limit;
      startX, startY := 0, 0;
      selections := [];
    }

    /** `on_press`: remember where the drag started. */
    method OnPress(x: int, y: int)
      modifies this
      ensures startX == x && startY == y
      ensures selections == old(selections)
    {
      startX, startY := x, y;
    }

    /**
     * `on_release`: append one rectangle from the start point to the
     * release point, keep the earlier ones, and signal quit exactly when
     * the list has reached the expected length.
     */
    method OnRelease(x: int, y: int) returns (quit: bool)
      modifies this
      ensures selections == old(selections) + [Box(startX, startY, x, y)]
      ensures startX == old(startX) && startY == old(startY)
      ensures quit <==> |selections| == limit
    {
      selections := selections + [Box(startX, startY, x, y)];
      quit := |selections| == limit;
    }
  }

  /**
   * `ScreenSelector.run`: feed drags to a fresh selector until it quits and
   * return its selections. With enough drags, the result is exactly the
   * first `limit` rectangles, in the order drawn, and the window quit.
   */
  method Calibrate(limit: nat, drags: seq<Drag>) returns (selections: seq<Box>, quit: bool)
    requires limit > 0
    ensures quit <==> |drags| >= limit
    ensures quit ==> selections == BoxesOf(drags[..limit])
    ensures !quit ==> selections == BoxesOf(drags)
  {
    var selector := new ScreenSelector(limit);
    quit := false;
    var i := 0;
    while i < |drags| && !quit
      invariant 0 <= i <= |drags|
      invariant selector.limit == limit
      invariant selector.selections == BoxesOf(drags[..i])
      invariant quit <==> i == limit
      invariant i <= limit
    {
      selector.OnPress(drags[i].pressX, drags[i].pressY);
      quit := selector.OnRelease(drags[i].releaseX, drags[i].releaseY);
      i := i + 1;
    }
    selections := selector.selections;
    if !quit {
      assert drags[..i] == drags;
    }
  }

  /** The regions index.py works with. */
  datatype IndexRegions = IndexRegions(questionNumber: Box, title: Box, image: Box, answers: seq<Box>)

  /**
   * `question_number_bbox, title_bbox, image_bbox, *answer_bboxes =
   * selections`; `None` is the `ValueError` raised for fewer than three.
   */
  function IndexRegionsOf(selections: seq<Box>): (r: Option<IndexRegions>)
    ensures r.None? <==> |selections| < 3
    ensures r.Some? ==>
              [r.value.questionNumber, r.value.title, r.value.image] + r.value.answers == selections
    ensures |selections| == IndexRegionCount ==> r.Some? && |r.value.answers| == 4
  {
    if |selections| < 3 then None
    else Some(IndexRegions(selections[0], selections[1], selections[2], selections[3..]))
  }

  /** The regions claude.py works with. */
  datatype ClaudeRegions = ClaudeRegions(title: Box, image: Box, answers: seq<Box>)

  /**
   * `title_bbox, image_bbox, *answer_bboxes = selections`; `None` is the
   * `ValueError` raised for fewer than two.
   */
  function ClaudeRegionsOf(selections: seq<Box>): (r: Option<ClaudeRegions>)
    ensures r.None? <==> |selections| < 2
    ensures r.Some? ==> [r.value.title, r.value.image] + r.value.answers == selections
    ensures |selections| == ClaudeRegionCount ==> r.Some? && |r.value.answers| == 4
  {
    if |selections| < 2 then None
    else Some(ClaudeRegions(selections[0], selections[1], selections[2..]))
  }

  /** Calibrating index.py and unpacking its regions gives the seven drags' rectangles in their roles. */
  lemma IndexCalibrationRoles(drags: seq<Drag>)
    requires |drags| >= IndexRegionCount
    ensures IndexRegionsOf(BoxesOf(drags[..IndexRegionCount])) ==
      Some(IndexRegions(BoxOf(drags[0]), BoxOf(drags[1]), BoxOf(drags[2]),
                        [BoxOf(drags[3]), BoxOf(drags[4]), BoxOf(drags[5]), BoxOf(drags[6])]))
  {
    var boxes := BoxesOf(drags[..IndexRegionCount]);
    assert boxes[3..] == [boxes[3], boxes[4], boxes[5], boxes[6]];
  }

  /** Calibrating claude.py and unpacking its regions gives the six drags' rectangles in their roles. */
  lemma ClaudeCalibrationRoles(drags: seq<Drag>)
    requires |drags| >= ClaudeRegionCount
    ensures ClaudeRegionsOf(BoxesOf(drags[..ClaudeRegionCount])) ==
      Some(ClaudeRegions(BoxOf(drags[0]), BoxOf(drags[1]),
                         [BoxOf(drags[2]), BoxOf(drags[3]), BoxOf(drags[4]), BoxOf(drags[5])]))
  {
    var boxes := BoxesOf(drags[..ClaudeRegionCount]);
    assert boxes[2..] == [boxes[2], boxes[3], boxes[4], boxes[5]];
  }
}
