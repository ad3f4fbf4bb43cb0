/** The view's interaction state and the handlers that change it: the pinch
    callback and the three touch callbacks. A handler computes a candidate
    frame and commits it only when `IsValidFrame` accepts it. */
module AreaSelector {
  import opened Optional
  import opened Geometry
  import opened Validation
  import opened Transforms

  /** The recognizer states the pinch callback distinguishes; `Possible`
      stands for every state it ignores. */
  datatype PinchPhase = Possible | Began | Changed | Ended | Cancelled | Failed

  /** The view's mutable fields: the committed selection, the last pinch
      scale, the move/resize classification and the touch-down point (which
      is written but never read). */
  datatype State = State(frame: Rect, scale: ScaleFactor, inMoveMode: bool, startPoint: Option<Point>)

  /** One callback delivery. A touch event carries `touches.first`, absent
      when the set is empty. */
  datatype Event =
    | PinchEvent(phase: PinchPhase, gestureScale: real)
    | TouchDown(touch: Option<Point>)
    | TouchDrag(touch: Option<Point>)
    | TouchUp(touch: Option<Point>)

  /** What every committed selection satisfies inside the container `view`. */
  predicate Invariant(view: Size, st: State) {
    st.frame.HasNonNegativeSize() && IsValidFrame(st.frame, view)
  }

  /** The selection keeps a positive width and height. */
  predicate NonDegenerate(st: State) {
    st.frame.Width() > 0.0 && st.frame.Height() > 0.0
  }

  /** The state a view starts in, given a first selection: the scale is 1,
      no move is in progress and no touch has been seen. A selection that
      is degenerate or breaks the invariant is refused. */
  function Configure(view: Size, frame: Rect): (r: Option<State>)
    ensures r.Some? <==> frame.HasNonNegativeSize() && IsValidFrame(frame, view)
                         && frame.Width() > 0.0 && frame.Height() > 0.0
    ensures r.Some? ==> Invariant(view, r.value) && NonDegenerate(r.value) && r.value.frame == frame
    ensures r.Some? ==> r.value.scale == Finite(1.0) && !r.value.inMoveMode && r.value.startPoint.None?
  {
    var st := State(frame, Finite(1.0), false, None);
    if Invariant(view, st) && NonDegenerate(st) then Some(st) else None
  }

  /** Commit `candidate` when it is valid, otherwise keep the frame. */
  function Commit(view: Size, st: State, candidate: Rect): (r: State)
    ensures r.frame == candidate || r.frame == st.frame
    ensures r.frame == candidate <==> IsValidFrame(candidate, view) || candidate == st.frame
    ensures r.scale == st.scale && r.inMoveMode == st.inMoveMode && r.startPoint == st.startPoint
  {
    if IsValidFrame(candidate, view) then st.(frame := candidate) else st
  }

  /** `pinch(gesture:)`. `Changed` and `Ended` clamp the gesture's factor
      between `minScale` and `maxScale` in that branch order and scale the
      selection about its own centre; `Cancelled` and `Failed` reset the
      scale; every other phase does nothing. A zero side makes `minScale`
      infinite, and the infinite candidate is never valid. */
  function Pinch(view: Size, st: State, phase: PinchPhase, g: real): (r: State)
    ensures r.inMoveMode == st.inMoveMode && r.startPoint == st.startPoint
    ensures phase.Possible? || phase.Began? ==> r == st
    ensures phase.Cancelled? || phase.Failed? ==> r == st.(scale := Finite(1.0))
    ensures r.frame == st.frame || IsValidFrame(r.frame, view)
    ensures r.frame != st.frame ==>
              r.scale.Finite? && r.frame == ScaleAround(r.scale.value, Center(st.frame), st.frame.size)
    ensures r.frame != st.frame ==> Center(r.frame) == Center(st.frame)
    ensures phase.Changed? || phase.Ended? ==> r.scale == PinchScale(view, st.frame, g)
    ensures (phase.Changed? || phase.Ended?) && r.scale.Finite?
            && IsValidFrame(ScaleAround(r.scale.value, Center(st.frame), st.frame.size), view) ==>
              r.frame == ScaleAround(r.scale.value, Center(st.frame), st.frame.size)
    ensures (phase.Changed? || phase.Ended?) && MinScale(st.frame).Unbounded? ==> r.frame == st.frame
    ensures Invariant(view, st) ==> Invariant(view, r)
    ensures Invariant(view, st) && NonDegenerate(st) ==> NonDegenerate(r)
  {
    match phase
    case Possible => st
    case Began => st
    case Cancelled => st.(scale := Finite(1.0))
    case Failed => st.(scale := Finite(1.0))
    case Changed => ScaleStep(view, st, g)
    case Ended => ScaleStep(view, st, g)
  }

  /** The scale the `Changed`/`Ended` branch settles on: `minScale` when
      it is infinite, otherwise the gesture's factor clamped by `ChooseScale`. */
  function PinchScale(view: Size, frame: Rect, g: real): (sc: ScaleFactor)
    ensures sc.Unbounded? <==> MinScale(frame).Unbounded?
    ensures sc.Finite? ==>
              var lo := MinScale(frame).value;
              var hi := MaxScale(frame, view);
              && (lo <= hi ==> lo <= sc.value <= hi)
              && (lo < g < hi ==> sc.value == g)
              && (g <= lo ==> sc.value == lo)
              && (lo < g && hi <= g ==> sc.value == hi)
    ensures sc.Finite? && IsValidFrame(frame, view) ==> sc.value > 0.0
  {
    match MinScale(frame)
    case Unbounded => Unbounded
    case Finite(lo) =>
      var hi := MaxScale(frame, view);
      assert IsValidFrame(frame, view) ==> hi > 0.0 by {
        if IsValidFrame(frame, view) {
          assert view.width > 0.0 && view.height > 0.0;
          PositiveQuotient(view.width, frame.Width());
          PositiveQuotient(view.height, frame.Height());
        }
      }
      Finite(ChooseScale(g, lo, hi))
  }

  lemma PositiveQuotient(a: real, b: real)
    requires a > 0.0 && b > 0.0
    ensures a / b > 0.0
  {
  }

  /** The shared `Changed`/`Ended` branch of the pinch. */
  function ScaleStep(view: Size, st: State, g: real): (r: State)
    ensures r.inMoveMode == st.inMoveMode && r.startPoint == st.startPoint
    ensures r.scale == PinchScale(view, st.frame, g)
    ensures r.frame == st.frame || IsValidFrame(r.frame, view)
    ensures r.frame != st.frame ==>
              r.scale.Finite? && r.frame == ScaleAround(r.scale.value, Center(st.frame), st.frame.size)
    ensures r.scale.Finite? && IsValidFrame(ScaleAround(r.scale.value, Center(st.frame), st.frame.size), view) ==>
              r.frame == ScaleAround(r.scale.value, Center(st.frame), st.frame.size)
    ensures Invariant(view, st) ==> Invariant(view, r)
    ensures Invariant(view, st) && NonDegenerate(st) ==> NonDegenerate(r)
  {
    var sc := PinchScale(view, st.frame, g);
    match sc
    case Unbounded => st.(scale := sc)
    case Finite(s) =>
      var candidate := ScaleAround(s, Center(st.frame), st.frame.size);
      assert Invariant(view, st) ==> candidate.HasNonNegativeSize();
      assert Invariant(view, st) && NonDegenerate(st) ==>
               candidate.Width() > 0.0 && candidate.Height() > 0.0 by {
        if Invariant(view, st) && NonDegenerate(st) {
          PositiveProduct(st.frame.size.width, s);
          PositiveProduct(st.frame.size.height, s);
        }
      }
      Commit(view, st.(scale := sc), candidate)
  }

  lemma PositiveProduct(a: real, b: real)
    requires a > 0.0 && b > 0.0
    ensures a * b > 0.0
  {
  }

  /** `touchesBegan`: remember the touch and classify it as move or resize. */
  function TouchesBegan(st: State, touch: Option<Point>): (r: State)
    ensures touch.None? ==> r == st
    ensures r.frame == st.frame && r.scale == st.scale
    ensures touch.Some? ==> r.startPoint == touch
    ensures touch.Some? ==>
              (r.inMoveMode <==>
                 InMiddleThird(touch.value.x, st.frame.MinX(), st.frame.Width())
                 && InMiddleThird(touch.value.y, st.frame.MinY(), st.frame.Height()))
  {
    match touch
    case None => st
    case Some(p) => st.(startPoint := Some(p), inMoveMode := InMoveMode(p, st.frame))
  }

  /** The move branch of `touchesMoved`: re-centre the selection on the
      touch, clamped into the container with no border allowance. */
  function MoveCandidate(view: Size, frame: Rect, p: Point): (candidate: Rect)
    ensures candidate.size == frame.size
  {
    Rect(SelectAreaOrigin(p, frame.size, view, 0.0), frame.size)
  }

  /** The resize branch of `touchesMoved`: the rectangle spanned by the
      vertex opposite the one nearest the touch and the touch itself. The
      anchor is looked up again on every sample. */
  function ResizeCandidate(frame: Rect, p: Point): (candidate: Rect)
    ensures candidate.HasNonNegativeSize()
    ensures AreOppositeCorners(candidate, NearestVertex(p, frame), p)
  {
    CreateRect(NearestVertex(p, frame), p)
  }

  /** A vertex drag keeps at least half of each side: the anchor is never
      nearer the touch than half the frame. */
  lemma ResizeKeepsHalf(frame: Rect, p: Point)
    requires frame.HasNonNegativeSize()
    ensures 2.0 * ResizeCandidate(frame, p).Width() >= frame.Width()
    ensures 2.0 * ResizeCandidate(frame, p).Height() >= frame.Height()
  {
    AnchorFarFromTouch(p, frame);
  }

  /** The move branch of `touchesMoved`. */
  function MoveStep(view: Size, st: State, p: Point): (r: State)
    ensures r == st.(frame := r.frame)
    ensures r.frame.size == st.frame.size
    ensures r.frame == st.frame || IsValidFrame(r.frame, view)
    ensures r.frame == st.frame || r.frame == MoveCandidate(view, st.frame, p)
    ensures IsValidFrame(MoveCandidate(view, st.frame, p), view) ==> r.frame == MoveCandidate(view, st.frame, p)
    ensures Invariant(view, st) ==> Invariant(view, r)
    ensures NonDegenerate(st) ==> NonDegenerate(r)
  {
    Commit(view, st, MoveCandidate(view, st.frame, p))
  }

  /** The resize branch of `touchesMoved`. */
  function ResizeStep(view: Size, st: State, p: Point): (r: State)
    ensures r == st.(frame := r.frame)
    ensures r.frame == st.frame || IsValidFrame(r.frame, view)
    ensures r.frame == st.frame || r.frame == ResizeCandidate(st.frame, p)
    ensures IsValidFrame(ResizeCandidate(st.frame, p), view) ==> r.frame == ResizeCandidate(st.frame, p)
    ensures r.frame != st.frame ==> AreOppositeCorners(r.frame, NearestVertex(p, st.frame), p)
    ensures Invariant(view, st) ==> Invariant(view, r)
    ensures Invariant(view, st) && NonDegenerate(st) ==> NonDegenerate(r)
  {
    var candidate := ResizeCandidate(st.frame, p);
    assert Invariant(view, st) && NonDegenerate(st) ==>
             candidate.Width() > 0.0 && candidate.Height() > 0.0 by {
      if Invariant(view, st) {
        ResizeKeepsHalf(st.frame, p);
      }
    }
    Commit(view, st, candidate)
  }

  /** `touchesMoved`: move or resize according to the classification made
      at touch-down, committing the candidate only when it is valid. */
  function TouchesMoved(view: Size, st: State, touch: Option<Point>): (r: State)
    ensures touch.None? ==> r == st
    ensures r.scale == st.scale && r.inMoveMode == st.inMoveMode && r.startPoint == st.startPoint
    ensures r.frame == st.frame || IsValidFrame(r.frame, view)
    ensures st.inMoveMode ==> r.frame.size == st.frame.size
    ensures touch.Some? && !st.inMoveMode && r.frame != st.frame ==>
              AreOppositeCorners(r.frame, NearestVertex(touch.value, st.frame), touch.value)
    ensures touch.Some? && st.inMoveMode && IsValidFrame(MoveCandidate(view, st.frame, touch.value), view) ==>
              r.frame == MoveCandidate(view, st.frame, touch.value)
    ensures touch.Some? && !st.inMoveMode && IsValidFrame(ResizeCandidate(st.frame, touch.value), view) ==>
              r.frame == ResizeCandidate(st.frame, touch.value)
    ensures Invariant(view, st) ==> Invariant(view, r)
    ensures Invariant(view, st) && NonDegenerate(st) ==> NonDegenerate(r)
  {
    match touch
    case None => st
    case Some(p) => if st.inMoveMode then MoveStep(view, st, p) else ResizeStep(view, st, p)
  }

  /** `touchesEnded`: classify the lifting touch again; nothing else changes. */
  function TouchesEnded(st: State, touch: Option<Point>): (r: State)
    ensures touch.None? ==> r == st
    ensures r.frame == st.frame && r.scale == st.scale && r.startPoint == st.startPoint
    ensures touch.Some? ==>
              (r.inMoveMode <==>
                 InMiddleThird(touch.value.x, st.frame.MinX(), st.frame.Width())
                 && InMiddleThird(touch.value.y, st.frame.MinY(), st.frame.Height()))
  {
    match touch
    case None => st
    case Some(p) => st.(inMoveMode := InMoveMode(p, st.frame))
  }

  /** Deliver one event. */
  function Step(view: Size, st: State, e: Event): (r: State)
    ensures r.frame == st.frame || IsValidFrame(r.frame, view)
    ensures Invariant(view, st) ==> Invariant(view, r)
    ensures Invariant(view, st) && NonDegenerate(st) ==> NonDegenerate(r)
  {
    match e
    case PinchEvent(phase, g) => Pinch(view, st, phase, g)
    case TouchDown(t) => TouchesBegan(st, t)
    case TouchDrag(t) => TouchesMoved(view, st, t)
    case TouchUp(t) => TouchesEnded(st, t)
  }

  /** Deliver events in order. */
  function Run(view: Size, st: State, es: seq<Event>): State
    decreases |es|
  {
    if es == [] then st else Run(view, Step(view, st, es[0]), es[1..])
  }

  /** Every sequence of events keeps the invariant, and a selection that
      starts with positive sides keeps them. */
  lemma {:induction false} RunPreservesInvariant(view: Size, st: State, es: seq<Event>)
    requires Invariant(view, st)
    ensures Invariant(view, Run(view, st, es))
    ensures NonDegenerate(st) ==> NonDegenerate(Run(view, st, es))
    decreases |es|
  {
    if es != [] {
      RunPreservesInvariant(view, Step(view, st, es[0]), es[1..]);
    }
  }

  /** Every state reachable from a configured view satisfies the invariant
      and has positive sides, so `minScale` is always finite there. */
  lemma {:induction false} ReachableStatesAreValid(view: Size, frame: Rect, es: seq<Event>)
    requires Configure(view, frame).Some?
    ensures Invariant(view, Run(view, Configure(view, frame).value, es))
    ensures MinScale(Run(view, Configure(view, frame).value, es).frame).Finite?
  {
    RunPreservesInvariant(view, Configure(view, frame).value, es);
  }

  /** A move from a valid selection is always committed: the re-centred,
      clamped frame keeps its size and lies inside the container, centred on
      the touch whenever that is possible and pinned to the edge it was
      dragged past otherwise. */
  lemma MoveAlwaysCommits(view: Size, st: State, p: Point)
    requires Invariant(view, st) && st.inMoveMode
    ensures TouchesMoved(view, st, Some(p)).frame == MoveCandidate(view, st.frame, p)
    ensures var o := TouchesMoved(view, st, Some(p)).frame.origin;
            && 0.0 <= o.x <= view.width - st.frame.size.width
            && 0.0 <= o.y <= view.height - st.frame.size.height
    ensures var o := TouchesMoved(view, st, Some(p)).frame.origin;
            0.0 <= p.x - st.frame.size.width / 2.0 <= view.width - st.frame.size.width ==>
              o.x == p.x - st.frame.size.width / 2.0
    ensures var o := TouchesMoved(view, st, Some(p)).frame.origin;
            0.0 <= p.y - st.frame.size.height / 2.0 <= view.height - st.frame.size.height ==>
              o.y == p.y - st.frame.size.height / 2.0
    ensures var o := TouchesMoved(view, st, Some(p)).frame.origin;
            && (p.x - st.frame.size.width / 2.0 < 0.0 ==> o.x == 0.0)
            && (view.width - st.frame.size.width < p.x - st.frame.size.width / 2.0 ==>
                  o.x == view.width - st.frame.size.width)
    ensures var o := TouchesMoved(view, st, Some(p)).frame.origin;
            && (p.y - st.frame.size.height / 2.0 < 0.0 ==> o.y == 0.0)
            && (view.height - st.frame.size.height < p.y - st.frame.size.height / 2.0 ==>
                  o.y == view.height - st.frame.size.height)
  {
    var c := MoveCandidate(view, st.frame, p);
    assert c.MinX() == c.origin.x && c.MinY() == c.origin.y;
    assert IsValidFrame(c, view);
  }

  /** A drag, move or resize, depends on the current frame, the mode and the
      touch only: the touch-down point plays no part. */
  lemma ResizeIgnoresStartPoint(view: Size, st: State, p: Point, q: Option<Point>)
    ensures TouchesMoved(view, st, Some(p)).frame == TouchesMoved(view, st.(startPoint := q), Some(p)).frame
  {
  }
}
