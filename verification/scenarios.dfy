/** Concrete runs of the selector in the 300 x 300 container the demo
    controller creates. Each run is a chain of named states, one lemma per
    delivered event. */
module Scenarios {
  import opened Optional
  import opened Geometry
  import opened Validation
  import opened Transforms
  import opened AreaSelector

  const View := Size(300.0, 300.0)

  function Square(x: real, y: real, side: real): Rect {
    Rect(Point(x, y), Size(side, side))
  }

  /** Dragging a 100 x 100 selection far past either corner pins it to that
      corner of the container. */
  lemma MoveClampAtCorners()
    ensures SelectAreaOrigin(Point(-1000.0, -1000.0), Size(100.0, 100.0), View, 0.0) == Point(0.0, 0.0)
    ensures SelectAreaOrigin(Point(10000.0, 10000.0), Size(100.0, 100.0), View, 0.0) == Point(200.0, 200.0)
  {
  }

  /** A `Changed` pinch whose chosen scale yields a valid frame commits it. */
  lemma PinchStepCommits(st: State, g: real, scale: real, expected: Rect)
    requires PinchScale(View, st.frame, g) == Finite(scale)
    requires ScaleAround(scale, Center(st.frame), st.frame.size) == expected
    requires IsValidFrame(expected, View)
    ensures Step(View, st, PinchEvent(Changed, g)) == st.(scale := Finite(scale), frame := expected)
  {
  }

  /** A resize sample whose anchor gives a valid rectangle commits it. */
  lemma ResizeStepCommits(st: State, p: Point, anchor: Point, expected: Rect)
    requires !st.inMoveMode
    requires NearestVertex(p, st.frame) == anchor
    requires CreateRect(anchor, p) == expected && IsValidFrame(expected, View)
    ensures Step(View, st, TouchDrag(Some(p))) == st.(frame := expected)
  {
  }

  /** A touch-down is classified by the middle-third test on each axis. */
  lemma TouchDownClassifies(st: State, p: Point, move: bool)
    requires move <==> InMiddleThird(p.x, st.frame.MinX(), st.frame.Width())
                       && InMiddleThird(p.y, st.frame.MinY(), st.frame.Height())
    ensures Step(View, st, TouchDown(Some(p))) == st.(startPoint := Some(p), inMoveMode := move)
  {
  }

  /** Running a non-empty sequence takes its first step and runs the rest. */
  lemma RunCons(st: State, e: Event, es: seq<Event>)
    ensures Run(View, st, [e] + es) == Run(View, Step(View, st, e), es)
  {
    var xs := [e] + es;
    assert xs[0] == e && xs[1..] == es;
  }

  /** Two events whose individual steps are known run to the last state. */
  lemma RunTwo(st: State, e1: Event, e2: Event, s1: State, s2: State)
    requires Step(View, st, e1) == s1 && Step(View, s1, e2) == s2
    ensures Run(View, st, [e1, e2]) == s2
  {
    RunCons(st, e1, [e2]);
    RunCons(s1, e2, []);
    assert [e1] + [e2] == [e1, e2] && [e2] + [] == [e2];
  }

  /** Three events whose individual steps are known run to the last state. */
  lemma RunThree(st: State, e1: Event, e2: Event, e3: Event, s1: State, s2: State, s3: State)
    requires Step(View, st, e1) == s1 && Step(View, s1, e2) == s2 && Step(View, s2, e3) == s3
    ensures Run(View, st, [e1, e2, e3]) == s3
  {
    RunCons(st, e1, [e2, e3]);
    RunTwo(s1, e2, e3, s2, s3);
    assert [e1] + [e2, e3] == [e1, e2, e3];
  }

  // ------------------------------------------------ pinch, then move a square

  const PinchStart := State(Square(50.0, 50.0, 100.0), Finite(1.0), false, None)
  const Pinched := State(Square(0.0, 0.0, 200.0), Finite(2.0), false, None)
  const Grabbed := State(Square(0.0, 0.0, 200.0), Finite(2.0), true, Some(Point(100.0, 100.0)))
  const Dragged := State(Square(100.0, 100.0, 200.0), Finite(2.0), true, Some(Point(100.0, 100.0)))

  lemma PinchDoublesSquareScale()
    ensures PinchScale(View, Square(50.0, 50.0, 100.0), 2.0) == Finite(2.0)
  {
    assert MinScale(Square(50.0, 50.0, 100.0)) == Finite(0.5);
    assert MaxScale(Square(50.0, 50.0, 100.0), View) == 3.0;
  }

  lemma PinchDoublesSquareFrame()
    ensures ScaleAround(2.0, Center(Square(50.0, 50.0, 100.0)), Size(100.0, 100.0)) == Square(0.0, 0.0, 200.0)
  {
    assert Center(Square(50.0, 50.0, 100.0)) == Point(100.0, 100.0);
  }

  lemma DoubledSquareIsValid()
    ensures IsValidFrame(Square(0.0, 0.0, 200.0), View)
  {
  }

  lemma PinchDoublesSquare()
    ensures Step(View, PinchStart, PinchEvent(Changed, 2.0)) == Pinched
  {
    PinchDoublesSquareScale();
    PinchDoublesSquareFrame();
    DoubledSquareIsValid();
    PinchStepCommits(PinchStart, 2.0, 2.0, Square(0.0, 0.0, 200.0));
  }

  lemma TouchCentreOfSquare()
    ensures Step(View, Pinched, TouchDown(Some(Point(100.0, 100.0)))) == Grabbed
  {
    assert Pinched.frame.MinX() == 0.0 && Pinched.frame.Width() == 200.0;
    assert Pinched.frame.MinY() == 0.0 && Pinched.frame.Height() == 200.0;
    TouchDownClassifies(Pinched, Point(100.0, 100.0), true);
  }

  lemma DragSquareToCorner()
    ensures Step(View, Grabbed, TouchDrag(Some(Point(220.0, 220.0)))) == Dragged
  {
    MoveAlwaysCommits(View, Grabbed, Point(220.0, 220.0));
  }

  lemma PinchStartConfigures()
    ensures Configure(View, PinchStart.frame) == Some(PinchStart)
  {
  }

  /** Configure a 100 x 100 selection at (50, 50), pinch it to twice its
      size, touch its centre (a move) and drag to (220, 220): the selection
      grows to 200 x 200 about (100, 100) and the drag pins it to the
      bottom-right corner. */
  lemma PinchThenMove()
    ensures Configure(View, PinchStart.frame) == Some(PinchStart)
    ensures Run(View, PinchStart, [PinchEvent(Changed, 2.0),
                                   TouchDown(Some(Point(100.0, 100.0))),
                                   TouchDrag(Some(Point(220.0, 220.0)))]) == Dragged
  {
    PinchStartConfigures();
    PinchDoublesSquare();
    TouchCentreOfSquare();
    DragSquareToCorner();
    RunThree(PinchStart, PinchEvent(Changed, 2.0), TouchDown(Some(Point(100.0, 100.0))),
             TouchDrag(Some(Point(220.0, 220.0))), Pinched, Grabbed, Dragged);
  }

  // ---------------------------------------- the resize anchor moves mid-drag

  const Small := State(Square(0.0, 0.0, 100.0), Finite(1.0), false, None)
  const CornerTouched := State(Square(0.0, 0.0, 100.0), Finite(1.0), false, Some(Point(100.0, 100.0)))
  const Grown := State(Square(0.0, 0.0, 150.0), Finite(1.0), false, Some(Point(100.0, 100.0)))
  const Flipped := State(Square(10.0, 0.0, 140.0), Finite(1.0), false, Some(Point(100.0, 100.0)))

  lemma TouchSmallCorner()
    ensures Step(View, Small, TouchDown(Some(Point(100.0, 100.0)))) == CornerTouched
  {
    assert Small.frame.MinX() == 0.0 && Small.frame.Width() == 100.0;
    assert !InMiddleThird(100.0, 0.0, 100.0);
    TouchDownClassifies(Small, Point(100.0, 100.0), false);
  }

  lemma FirstSampleAnchorsTopLeftVertices()
    ensures Vertices(CornerTouched.frame) == [Point(0.0, 0.0), Point(100.0, 0.0), Point(0.0, 100.0), Point(100.0, 100.0)]
  {
  }

  lemma FirstSampleAnchorsTopLeftNearest()
    ensures IsFirstNearest([Point(0.0, 0.0), Point(100.0, 0.0), Point(0.0, 100.0), Point(100.0, 100.0)], Point(150.0, 150.0), 3)
  {
  }

  lemma FirstSampleAnchorsTopLeft()
    ensures NearestVertex(Point(150.0, 150.0), CornerTouched.frame) == Point(0.0, 0.0)
  {
    FirstSampleAnchorsTopLeftVertices();
    FirstSampleAnchorsTopLeftNearest();
  }

  lemma GrownIsValid()
    ensures IsValidFrame(Grown.frame, View)
  {
  }

  lemma FirstSampleGrows()
    ensures Step(View, CornerTouched, TouchDrag(Some(Point(150.0, 150.0)))) == Grown
  {
    FirstSampleAnchorsTopLeft();
    assert CreateRect(Point(0.0, 0.0), Point(150.0, 150.0)) == Grown.frame;
    GrownIsValid();
    ResizeStepCommits(CornerTouched, Point(150.0, 150.0), Point(0.0, 0.0), Grown.frame);
  }

  lemma SecondSampleAnchorsTopRightVertices()
    ensures Vertices(Grown.frame) == [Point(0.0, 0.0), Point(150.0, 0.0), Point(0.0, 150.0), Point(150.0, 150.0)]
  {
  }

  lemma SecondSampleAnchorsTopRightNearest()
    ensures IsFirstNearest([Point(0.0, 0.0), Point(150.0, 0.0), Point(0.0, 150.0), Point(150.0, 150.0)], Point(10.0, 140.0), 2)
  {
  }

  lemma SecondSampleAnchorsTopRight()
    ensures NearestVertex(Point(10.0, 140.0), Grown.frame) == Point(150.0, 0.0)
  {
    SecondSampleAnchorsTopRightVertices();
    SecondSampleAnchorsTopRightNearest();
  }

  lemma FlippedIsValid()
    ensures IsValidFrame(Flipped.frame, View)
  {
  }

  lemma SecondSampleFlips()
    ensures Step(View, Grown, TouchDrag(Some(Point(10.0, 140.0)))) == Flipped
  {
    SecondSampleAnchorsTopRight();
    assert CreateRect(Point(150.0, 0.0), Point(10.0, 140.0)) == Flipped.frame;
    FlippedIsValid();
    ResizeStepCommits(Grown, Point(10.0, 140.0), Point(150.0, 0.0), Flipped.frame);
  }

  /** Within one drag the anchor moves: the first sample anchors the resize
      at the top-left vertex, the second, taken on the committed frame, at
      the top-right one, although the touch-down point is the same. */
  lemma ResizeAnchorFollowsTouch()
    ensures NearestVertex(Point(150.0, 150.0), CornerTouched.frame)
            != NearestVertex(Point(10.0, 140.0), Grown.frame)
    ensures Run(View, Small, [TouchDown(Some(Point(100.0, 100.0))),
                              TouchDrag(Some(Point(150.0, 150.0))),
                              TouchDrag(Some(Point(10.0, 140.0)))]) == Flipped
  {
    FirstSampleAnchorsTopLeft();
    SecondSampleAnchorsTopRight();
    TouchSmallCorner();
    FirstSampleGrows();
    SecondSampleFlips();
    RunThree(Small, TouchDown(Some(Point(100.0, 100.0))), TouchDrag(Some(Point(150.0, 150.0))),
             TouchDrag(Some(Point(10.0, 140.0))), CornerTouched, Grown, Flipped);
  }

  // ---------------------------------------- a repeated factor is reapplied

  const Centred := State(Square(100.0, 100.0, 100.0), Finite(1.0), false, None)
  const OnceScaled := State(Square(95.0, 95.0, 110.0), Finite(1.1), false, None)
  const TwiceScaled := State(Square(89.5, 89.5, 121.0), Finite(1.1), false, None)

  lemma FirstReportScale()
    ensures PinchScale(View, Square(100.0, 100.0, 100.0), 1.1) == Finite(1.1)
  {
    assert MinScale(Square(100.0, 100.0, 100.0)) == Finite(0.5);
    assert MaxScale(Square(100.0, 100.0, 100.0), View) == 3.0;
  }

  lemma FirstReportFrame()
    ensures ScaleAround(1.1, Center(Square(100.0, 100.0, 100.0)), Size(100.0, 100.0)) == Square(95.0, 95.0, 110.0)
  {
    assert Center(Square(100.0, 100.0, 100.0)) == Point(150.0, 150.0);
  }

  lemma FirstReportIsValid()
    ensures IsValidFrame(Square(95.0, 95.0, 110.0), View)
  {
  }

  lemma FirstReportScales()
    ensures Step(View, Centred, PinchEvent(Changed, 1.1)) == OnceScaled
  {
    FirstReportScale();
    FirstReportFrame();
    FirstReportIsValid();
    PinchStepCommits(Centred, 1.1, 1.1, Square(95.0, 95.0, 110.0));
  }

  lemma SecondReportScale()
    ensures PinchScale(View, Square(95.0, 95.0, 110.0), 1.1) == Finite(1.1)
  {
    assert MinScale(Square(95.0, 95.0, 110.0)) == Finite(50.0 / 110.0);
    assert MaxScale(Square(95.0, 95.0, 110.0), View) == 300.0 / 110.0;
  }

  lemma SecondReportFrame()
    ensures ScaleAround(1.1, Center(Square(95.0, 95.0, 110.0)), Size(110.0, 110.0)) == Square(89.5, 89.5, 121.0)
  {
    assert Center(Square(95.0, 95.0, 110.0)) == Point(150.0, 150.0);
  }

  lemma SecondReportIsValid()
    ensures IsValidFrame(Square(89.5, 89.5, 121.0), View)
  {
  }

  lemma SecondReportScalesAgain()
    ensures Step(View, OnceScaled, PinchEvent(Changed, 1.1)) == TwiceScaled
  {
    SecondReportScale();
    SecondReportFrame();
    SecondReportIsValid();
    PinchStepCommits(OnceScaled, 1.1, 1.1, Square(89.5, 89.5, 121.0));
  }

  /** Two `Changed` reports of the same factor 1.1 scale the selection
      twice: the factor is applied to the already scaled frame, giving a
      side of 121 rather than 110. */
  lemma RepeatedPinchCompounds()
    ensures Run(View, Centred, [PinchEvent(Changed, 1.1), PinchEvent(Changed, 1.1)]) == TwiceScaled
  {
    FirstReportScales();
    SecondReportScalesAgain();
    RunTwo(Centred, PinchEvent(Changed, 1.1), PinchEvent(Changed, 1.1), OnceScaled, TwiceScaled);
  }

  // ---------------------------------------------- a strip narrower than 50

  const StripStart := State(Square(0.0, 0.0, 100.0), Finite(1.0), false, None)
  const EdgeTouched := State(Square(0.0, 0.0, 100.0), Finite(1.0), false, Some(Point(50.0, 100.0)))
  const Halved := State(Rect(Point(50.0, 0.0), Size(50.0, 100.0)), Finite(1.0), false, Some(Point(50.0, 100.0)))
  const Quartered := State(Rect(Point(75.0, 0.0), Size(25.0, 100.0)), Finite(1.0), false, Some(Point(50.0, 100.0)))

  lemma TouchBottomEdge()
    ensures Step(View, StripStart, TouchDown(Some(Point(50.0, 100.0)))) == EdgeTouched
  {
    assert StripStart.frame.MinY() == 0.0 && StripStart.frame.Height() == 100.0;
    assert !InMiddleThird(100.0, 0.0, 100.0);
    TouchDownClassifies(StripStart, Point(50.0, 100.0), false);
  }

  lemma HalveAnchorVertices()
    ensures Vertices(EdgeTouched.frame) == [Point(0.0, 0.0), Point(100.0, 0.0), Point(0.0, 100.0), Point(100.0, 100.0)]
  {
  }

  lemma HalveAnchorNearest()
    ensures IsFirstNearest([Point(0.0, 0.0), Point(100.0, 0.0), Point(0.0, 100.0), Point(100.0, 100.0)], Point(50.0, 100.0), 2)
  {
  }

  lemma HalveAnchor()
    ensures NearestVertex(Point(50.0, 100.0), EdgeTouched.frame) == Point(100.0, 0.0)
  {
    HalveAnchorVertices();
    HalveAnchorNearest();
  }

  lemma HalvedIsValid()
    ensures IsValidFrame(Halved.frame, View)
  {
  }

  lemma Halve()
    ensures Step(View, EdgeTouched, TouchDrag(Some(Point(50.0, 100.0)))) == Halved
  {
    HalveAnchor();
    assert CreateRect(Point(100.0, 0.0), Point(50.0, 100.0)) == Halved.frame;
    HalvedIsValid();
    ResizeStepCommits(EdgeTouched, Point(50.0, 100.0), Point(100.0, 0.0), Halved.frame);
  }

  lemma QuarterAnchorVertices()
    ensures Vertices(Halved.frame) == [Point(50.0, 0.0), Point(100.0, 0.0), Point(50.0, 100.0), Point(100.0, 100.0)]
  {
  }

  lemma QuarterAnchorNearest()
    ensures IsFirstNearest([Point(50.0, 0.0), Point(100.0, 0.0), Point(50.0, 100.0), Point(100.0, 100.0)], Point(75.0, 100.0), 2)
  {
  }

  lemma QuarterAnchor()
    ensures NearestVertex(Point(75.0, 100.0), Halved.frame) == Point(100.0, 0.0)
  {
    QuarterAnchorVertices();
    QuarterAnchorNearest();
  }

  lemma QuarteredIsValid()
    ensures IsValidFrame(Quartered.frame, View)
  {
  }

  lemma Quarter()
    ensures Step(View, Halved, TouchDrag(Some(Point(75.0, 100.0)))) == Quartered
  {
    QuarterAnchor();
    assert CreateRect(Point(100.0, 0.0), Point(75.0, 100.0)) == Quartered.frame;
    QuarteredIsValid();
    ResizeStepCommits(Halved, Point(75.0, 100.0), Point(100.0, 0.0), Quartered.frame);
  }

  lemma StripStartConfigures()
    ensures Configure(View, StripStart.frame) == Some(StripStart)
  {
  }

  /** Two vertex drags turn a 100 x 100 selection into a 25 x 100 strip:
      only one side has to stay at 50 or more. */
  lemma NarrowStripReachable()
    ensures Configure(View, StripStart.frame) == Some(StripStart)
    ensures Run(View, StripStart, [TouchDown(Some(Point(50.0, 100.0))),
                                   TouchDrag(Some(Point(50.0, 100.0))),
                                   TouchDrag(Some(Point(75.0, 100.0)))]) == Quartered
    ensures Quartered.frame.Width() < MinimumSide
  {
    StripStartConfigures();
    TouchBottomEdge();
    Halve();
    Quarter();
    RunThree(StripStart, TouchDown(Some(Point(50.0, 100.0))), TouchDrag(Some(Point(50.0, 100.0))),
             TouchDrag(Some(Point(75.0, 100.0))), EdgeTouched, Halved, Quartered);
  }
}
