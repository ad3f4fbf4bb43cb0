/** The view's acceptance test for a candidate selection (`isValidFrame` and
    the three checks it combines). The container is given by its size only:
    the view compares against `self.frame.size`, never its origin. */
module Validation {
  import opened Geometry

  /** The side length the selection is meant not to fall below. */
  const MinimumSide: real := 50.0

  /** `p` lies in the closed box `[0, width] x [0, height]` of the container. */
  predicate InsideView(p: Point, view: Size) {
    0.0 <= p.x <= view.width && 0.0 <= p.y <= view.height
  }

  /** `checkIfVertexOutOfBound`: some vertex of `frame` leaves the container. */
  function VertexOutOfBound(frame: Rect, view: Size): (out: bool)
    ensures !out <==> forall p :: p in Corners(frame) ==> InsideView(p, view)
  {
    var inside := frame.MinX() >= 0.0 && frame.MaxX() <= view.width
                  && frame.MinY() >= 0.0 && frame.MaxY() <= view.height;
    assert !inside ==> !InsideView(frame.TopLeft(), view) || !InsideView(frame.BottomRight(), view);
    !inside
  }

  /** `checkIfLargerThanViewSize`: wider AND taller than the container. Such
      a frame always has a vertex outside the container as well. */
  function LargerThanViewSize(frame: Rect, view: Size): (big: bool)
    ensures big ==> VertexOutOfBound(frame, view)
  {
    frame.Width() > view.width && frame.Height() > view.height
  }

  /** `checkIfSmallerThanMinSize`: narrower AND shorter than 50, that is, even
      the longer stored side is below 50. Unlike the other checks it reads the
      stored size, not the standardized one. */
  function SmallerThanMinSize(frame: Rect): (small: bool)
    ensures small <==> Max(frame.size.width, frame.size.height) < MinimumSide
  {
    frame.size.width < MinimumSide && frame.size.height < MinimumSide
  }

  /** `isValidFrame`: a frame is accepted when none of the three checks fires. */
  function IsValidFrame(frame: Rect, view: Size): (ok: bool)
    ensures ok ==> forall p :: p in Corners(frame) ==> InsideView(p, view)
    ensures ok ==> frame.Width() <= view.width && frame.Height() <= view.height
    ensures ok ==> frame.size.width >= MinimumSide || frame.size.height >= MinimumSide
    ensures ok ==> frame.Width() >= MinimumSide || frame.Height() >= MinimumSide
  {
    !VertexOutOfBound(frame, view) && !LargerThanViewSize(frame, view) && !SmallerThanMinSize(frame)
  }

  /** Independent description of acceptance: all four corners inside the
      container and at least one stored side of 50 or more. */
  lemma IsValidFrameCharacterized(frame: Rect, view: Size)
    ensures IsValidFrame(frame, view) <==>
              (forall p :: p in Corners(frame) ==> InsideView(p, view))
              && (frame.size.width >= MinimumSide || frame.size.height >= MinimumSide)
  {
    if forall p :: p in Corners(frame) ==> InsideView(p, view) {
      OversizeCheckSubsumed(frame, view);
    }
  }

  /** The oversize check never decides anything on its own: a frame whose
      vertices are all inside the container is never wider and taller than it. */
  lemma OversizeCheckSubsumed(frame: Rect, view: Size)
    requires !VertexOutOfBound(frame, view)
    ensures !LargerThanViewSize(frame, view)
  {
  }

  /** Exceeding the container in one dimension only does not trip the
      oversize check. */
  lemma OversizeNeedsBothAxes(frame: Rect, view: Size)
    ensures LargerThanViewSize(frame, view) ==> frame.Width() > view.width
    ensures LargerThanViewSize(frame, view) ==> frame.Height() > view.height
    ensures frame.Width() > view.width && frame.Height() <= view.height ==> !LargerThanViewSize(frame, view)
    ensures frame.Width() <= view.width && frame.Height() > view.height ==> !LargerThanViewSize(frame, view)
  {
  }

  /** Falling below 50 in one dimension only does not trip the undersize
      check, so a long thin strip is a valid selection. */
  lemma UndersizeNeedsBothAxes(frame: Rect)
    ensures SmallerThanMinSize(frame) ==> frame.size.width < MinimumSide && frame.size.height < MinimumSide
    ensures frame.size.width < MinimumSide && frame.size.height >= MinimumSide ==> !SmallerThanMinSize(frame)
    ensures frame.size.width >= MinimumSide && frame.size.height < MinimumSide ==> !SmallerThanMinSize(frame)
  {
  }

  /** A 10 x 300 strip fills a 300 x 300 container's height and is accepted
      although it is far narrower than 50. */
  lemma ThinStripIsValid()
    ensures IsValidFrame(Rect(Point(0.0, 0.0), Size(10.0, 300.0)), Size(300.0, 300.0))
  {
  }
}
