/** The candidate-producing helpers of the view: move/resize classification,
    the pinch scale bounds, the move clamp and the resize anchor. */
module Transforms {
  import opened Geometry
  import opened Validation

  /** A pinch scale. `Unbounded` stands for the IEEE +infinity that Swift
      computes for `50 / 0` when the selection has a zero side. */
  datatype ScaleFactor = Finite(value: real) | Unbounded

  // ---------------------------------------------------------------- move mode

  /** `v` lies in the middle third of the interval `[lo, lo + len)`, stated
      without division. */
  predicate InMiddleThird(v: real, lo: real, len: real) {
    len <= 3.0 * (v - lo) < 2.0 * len
  }

  /** `isInMoveMode`: a touch inside the frame inset by a third of its width
      and height starts a move; anywhere else it starts a vertex drag. */
  function InMoveMode(touch: Point, frame: Rect): (move: bool)
    ensures move <==> InMiddleThird(touch.x, frame.MinX(), frame.Width())
                      && InMiddleThird(touch.y, frame.MinY(), frame.Height())
    ensures move ==> Contains(frame, touch)
    ensures frame.Width() == 0.0 || frame.Height() == 0.0 ==> !move
  {
    var central := InsetBy(frame, frame.Width() / 3.0, frame.Height() / 3.0);
    Contains(central, touch)
  }

  // ------------------------------------------------------------ scale bounds

  /** `minScale`: the least factor that brings both sides to at least 50. */
  function MinScale(frame: Rect): (m: ScaleFactor)
    ensures m.Unbounded? <==> frame.Width() == 0.0 || frame.Height() == 0.0
    ensures m.Finite? ==> m.value > 0.0
    ensures m.Finite? ==> m.value * frame.Width() >= MinimumSide && m.value * frame.Height() >= MinimumSide
    ensures m.Finite? ==> m.value * frame.Width() == MinimumSide || m.value * frame.Height() == MinimumSide
  {
    if frame.Width() == 0.0 || frame.Height() == 0.0 then Unbounded
    else
      var sx := MinimumSide / frame.Width();
      var sy := MinimumSide / frame.Height();
      MaxTimesPositive(sx, sy, frame.Width());
      MaxTimesPositive(sx, sy, frame.Height());
      Finite(Max(sx, sy))
  }

  /** `maxScale` / `getMaxScale`: the greatest factor that keeps both sides
      within the container's. Never evaluated on a zero side: the pinch takes
      the `minScale` branch first. */
  function MaxScale(frame: Rect, view: Size): (m: real)
    requires frame.Width() > 0.0 && frame.Height() > 0.0
    ensures m * frame.Width() <= view.width && m * frame.Height() <= view.height
    ensures m * frame.Width() == view.width || m * frame.Height() == view.height
  {
    var sx := view.width / frame.Width();
    var sy := view.height / frame.Height();
    MinTimesPositive(sx, sy, frame.Width());
    MinTimesPositive(sx, sy, frame.Height());
    Min(sx, sy)
  }

  lemma MaxTimesPositive(a: real, b: real, len: real)
    requires len > 0.0
    ensures Max(a, b) * len >= a * len && Max(a, b) * len >= b * len
  {
  }

  lemma MinTimesPositive(a: real, b: real, len: real)
    requires len > 0.0
    ensures Min(a, b) * len <= a * len && Min(a, b) * len <= b * len
  {
  }

  /** The pinch's branch order: `minScale` when the gesture is at or below
      it, else `maxScale` when the gesture is at or above that, else the
      gesture's own factor. */
  function ChooseScale(g: real, lo: real, hi: real): (s: real)
    ensures s == lo || s == hi || s == g
    ensures lo <= hi ==> lo <= s <= hi
    ensures lo < g < hi ==> s == g
    ensures g <= lo ==> s == lo
    ensures lo < g && hi <= g ==> s == hi
  {
    if g <= lo then lo
    else if g >= hi then hi
    else g
  }

  /** When the bounds cross, a larger pinch can give a smaller scale: the
      choice is not monotone in the gesture. */
  lemma ChooseScaleNotMonotoneWhenCrossed(lo: real, hi: real)
    requires hi < lo
    ensures ChooseScale(lo, lo, hi) > ChooseScale(lo + 1.0, lo, hi)
  {
  }

  // -------------------------------------------------------------- move clamp

  /** `getSelectAreaOriginPoint`: the origin that centres a selection of
      `size` on the touch, pushed right of `lineWidth / 2` and below `0`, and
      then pulled back so that the selection plus `lineWidth` fits in
      `target`; the second clamp wins. A drag past an edge pins the origin to
      that edge's bound. */
  function SelectAreaOrigin(touch: Point, size: Size, target: Size, lineWidth: real): (o: Point)
    ensures o.x <= target.width - (size.width + lineWidth)
    ensures o.y <= target.height - (size.height + lineWidth)
    ensures lineWidth / 2.0 <= target.width - (size.width + lineWidth) ==> lineWidth / 2.0 <= o.x
    ensures 0.0 <= target.height - (size.height + lineWidth) ==> 0.0 <= o.y
    ensures lineWidth / 2.0 <= touch.x - size.width / 2.0 <= target.width - (size.width + lineWidth) ==>
              o.x == touch.x - size.width / 2.0
    ensures 0.0 <= touch.y - size.height / 2.0 <= target.height - (size.height + lineWidth) ==>
              o.y == touch.y - size.height / 2.0
    ensures lineWidth / 2.0 > target.width - (size.width + lineWidth) ==>
              o.x == target.width - (size.width + lineWidth)
    ensures 0.0 > target.height - (size.height + lineWidth) ==>
              o.y == target.height - (size.height + lineWidth)
    ensures touch.x - size.width / 2.0 < lineWidth / 2.0 <= target.width - (size.width + lineWidth) ==>
              o.x == lineWidth / 2.0
    ensures touch.y - size.height / 2.0 < 0.0 <= target.height - (size.height + lineWidth) ==>
              o.y == 0.0
    ensures target.width - (size.width + lineWidth) < touch.x - size.width / 2.0 ==>
              o.x == target.width - (size.width + lineWidth)
    ensures target.height - (size.height + lineWidth) < touch.y - size.height / 2.0 ==>
              o.y == target.height - (size.height + lineWidth)
  {
    var halfLineWidth := lineWidth / 2.0;
    var x := ClampHighWins(touch.x - size.width / 2.0, halfLineWidth, target.width - (size.width + lineWidth));
    var y := ClampHighWins(touch.y - size.height / 2.0, 0.0, target.height - (size.height + lineWidth));
    Point(x, y)
  }

  // ----------------------------------------------------------- resize anchor

  /** The four vertices in the order `getNearestVertex` lists them: the stored
      origin, top-right, bottom-left, bottom-right. */
  function Vertices(frame: Rect): (vs: seq<Point>)
    ensures |vs| == 4
    ensures frame.HasNonNegativeSize() ==> vs == Corners(frame)
  {
    [frame.origin, Point(frame.MaxX(), frame.MinY()),
     Point(frame.MinX(), frame.MaxY()), Point(frame.MaxX(), frame.MaxY())]
  }

  /** The diagonal opposite of each vertex, index for index. */
  function DiagonalOpposites(frame: Rect): (os: seq<Point>)
    ensures |os| == 4
    ensures forall i :: 0 <= i < 4 ==> os[i] == Vertices(frame)[3 - i]
  {
    [Point(frame.MaxX(), frame.MaxY()), Point(frame.MinX(), frame.MaxY()),
     Point(frame.MaxX(), frame.MinY()), frame.origin]
  }

  function Manhattan(p: Point, q: Point): real {
    Abs(p.x - q.x) + Abs(p.y - q.y)
  }

  /** `vs[k]` is nearest to `touch` and every earlier element is strictly
      farther: the element Swift's `min(by:)` keeps. */
  predicate IsFirstNearest(vs: seq<Point>, touch: Point, k: nat) {
    && k < |vs|
    && (forall j :: 0 <= j < |vs| ==> Manhattan(vs[k], touch) <= Manhattan(vs[j], touch))
    && (forall j :: 0 <= j < k ==> Manhattan(vs[k], touch) < Manhattan(vs[j], touch))
  }

  /** At most one index is the first nearest. */
  lemma FirstNearestUnique(vs: seq<Point>, touch: Point, k: nat, k': nat)
    requires IsFirstNearest(vs, touch, k) && IsFirstNearest(vs, touch, k')
    ensures k == k'
  {
    var d, d' := Manhattan(vs[k], touch), Manhattan(vs[k'], touch);
    assert d <= d' && d' <= d;
    assert k < k' ==> d' < d;
    assert k' < k ==> d < d';
  }

  /** The scan of `min(by:)` from index `i` on, `vs[best]` being the minimum
      of `vs[..i]`: a later element replaces it only when strictly nearer. */
  function FirstNearestFrom(vs: seq<Point>, touch: Point, i: nat, best: nat): (k: nat)
    requires best < i <= |vs|
    requires forall j :: 0 <= j < i ==> Manhattan(vs[best], touch) <= Manhattan(vs[j], touch)
    requires forall j :: 0 <= j < best ==> Manhattan(vs[best], touch) < Manhattan(vs[j], touch)
    ensures IsFirstNearest(vs, touch, k)
    decreases |vs| - i
  {
    if i == |vs| then best
    else if Manhattan(vs[i], touch) < Manhattan(vs[best], touch) then FirstNearestFrom(vs, touch, i + 1, i)
    else FirstNearestFrom(vs, touch, i + 1, best)
  }

  /** `firstIndex(of:)`: the position of the first element equal to `p`. */
  function FirstIndexOf(vs: seq<Point>, p: Point): (i: nat)
    requires p in vs
    ensures i < |vs| && vs[i] == p
    ensures forall j :: 0 <= j < i ==> vs[j] != p
  {
    if vs[0] == p then 0 else 1 + FirstIndexOf(vs[1..], p)
  }

  /** `getNearestVertex`: the vertex diagonally opposite the one nearest to
      the touch by Manhattan distance, ties going to the earlier vertex. */
  function NearestVertex(touch: Point, frame: Rect): (anchor: Point)
    ensures forall k: nat :: IsFirstNearest(Vertices(frame), touch, k) ==> anchor == Vertices(frame)[3 - k]
    ensures frame.HasNonNegativeSize() ==> anchor in Corners(frame)
  {
    var vs := Vertices(frame);
    var k := FirstNearestFrom(vs, touch, 1, 0);
    var i := FirstIndexOf(vs, vs[k]);
    assert i == k;
    DiagonalOpposites(frame)[i]
  }

  /** The index of the vertex nearest to the touch; the anchor is the
      vertex listed opposite it. */
  function NearestVertexIndex(touch: Point, frame: Rect): (k: nat)
    ensures IsFirstNearest(Vertices(frame), touch, k)
    ensures k < 4 && NearestVertex(touch, frame) == Vertices(frame)[3 - k]
  {
    FirstNearestFrom(Vertices(frame), touch, 1, 0)
  }

  /** The anchor and the nearest vertex are opposite corners of the frame. */
  lemma NearestVertexIsOpposite(touch: Point, frame: Rect)
    requires frame.HasNonNegativeSize()
    ensures AreOppositeCorners(frame, Vertices(frame)[NearestVertexIndex(touch, frame)], NearestVertex(touch, frame))
  {
  }

  /** If the vertex `n` is no farther from `t` than `h`, the vertex sharing
      its row, nor `v`, the vertex sharing its column, then the opposite
      vertex `f` is at least half the side lengths away from `t`. */
  lemma FarVertexOfNearerCorner(t: Point, n: Point, h: Point, v: Point, f: Point)
    requires h.x == f.x && h.y == n.y && v.x == n.x && v.y == f.y
    requires Manhattan(n, t) <= Manhattan(h, t) && Manhattan(n, t) <= Manhattan(v, t)
    ensures 2.0 * Abs(f.x - t.x) >= Abs(f.x - n.x) && Abs(f.x - n.x) == Abs(n.x - f.x)
    ensures 2.0 * Abs(f.y - t.y) >= Abs(f.y - n.y) && Abs(f.y - n.y) == Abs(n.y - f.y)
  {
  }

  /** `vs` lists the vertices of an axis-aligned box in the order
      top-left, top-right, bottom-left, bottom-right. */
  predicate IsBoxVertexList(vs: seq<Point>) {
    && |vs| == 4
    && vs[0].x == vs[2].x && vs[1].x == vs[3].x
    && vs[0].y == vs[1].y && vs[2].y == vs[3].y
  }

  /** The vertices of a frame with non-negative size form a box whose
      diagonal spans the frame's width and height. */
  lemma VerticesSpanFrame(frame: Rect)
    requires frame.HasNonNegativeSize()
    ensures IsBoxVertexList(Vertices(frame))
    ensures Abs(Vertices(frame)[3].x - Vertices(frame)[0].x) == frame.Width()
    ensures Abs(Vertices(frame)[3].y - Vertices(frame)[0].y) == frame.Height()
  {
  }

  /** The anchor lies at least half the frame's width from the touch
      horizontally, and half its height vertically: a vertex drag cannot
      shrink a side below half. */
  lemma AnchorFarFromTouch(touch: Point, frame: Rect)
    requires frame.HasNonNegativeSize()
    ensures 2.0 * Abs(NearestVertex(touch, frame).x - touch.x) >= frame.Width()
    ensures 2.0 * Abs(NearestVertex(touch, frame).y - touch.y) >= frame.Height()
  {
    var vs := Vertices(frame);
    var k := NearestVertexIndex(touch, frame);
    VerticesSpanFrame(frame);
    NearestBeatsMates(vs, touch, k);
    OppositeOfNearestIsFar(touch, vs, k);
  }

  /** In a box vertex list, `vs[k]` shares its row with `vs[RowMate(k)]`,
      its column with `vs[ColumnMate(k)]`, and its diagonal spans the box. */
  function RowMate(k: nat): nat requires k < 4 { [1, 0, 3, 2][k] }
  function ColumnMate(k: nat): nat requires k < 4 { [2, 3, 0, 1][k] }

  lemma BoxMates(vs: seq<Point>, k: nat)
    requires IsBoxVertexList(vs) && k < 4
    ensures RowMate(k) < 4 && ColumnMate(k) < 4
    ensures vs[RowMate(k)].x == vs[3 - k].x && vs[RowMate(k)].y == vs[k].y
    ensures vs[ColumnMate(k)].x == vs[k].x && vs[ColumnMate(k)].y == vs[3 - k].y
    ensures Abs(vs[3].x - vs[0].x) == Abs(vs[3 - k].x - vs[k].x)
    ensures Abs(vs[3].y - vs[0].y) == Abs(vs[3 - k].y - vs[k].y)
  {
    if k == 0 {
    } else if k == 1 {
      assert Abs(vs[3].x - vs[0].x) == Abs(vs[1].x - vs[2].x);
      assert Abs(vs[3].y - vs[0].y) == Abs(vs[2].y - vs[1].y);
    } else if k == 2 {
      assert Abs(vs[3].x - vs[0].x) == Abs(vs[1].x - vs[2].x);
      assert Abs(vs[3].y - vs[0].y) == Abs(vs[2].y - vs[1].y);
    }
  }

  /** The first nearest of four vertices is no farther than its row and
      column mates. */
  lemma NearestBeatsMates(vs: seq<Point>, t: Point, k: nat)
    requires |vs| == 4 && IsFirstNearest(vs, t, k)
    ensures k < 4
    ensures Manhattan(vs[k], t) <= Manhattan(vs[RowMate(k)], t)
    ensures Manhattan(vs[k], t) <= Manhattan(vs[ColumnMate(k)], t)
  {
    var r, c := RowMate(k), ColumnMate(k);
    assert r < 4 && c < 4;
  }

  /** `AnchorFarFromTouch` for any box vertex list: it is enough that `vs[k]`
      is no farther from `t` than the vertices sharing its row and column. */
  lemma OppositeOfNearestIsFar(t: Point, vs: seq<Point>, k: nat)
    requires IsBoxVertexList(vs) && k < 4
    requires Manhattan(vs[k], t) <= Manhattan(vs[RowMate(k)], t)
    requires Manhattan(vs[k], t) <= Manhattan(vs[ColumnMate(k)], t)
    ensures 2.0 * Abs(vs[3 - k].x - t.x) >= Abs(vs[3].x - vs[0].x)
    ensures 2.0 * Abs(vs[3 - k].y - t.y) >= Abs(vs[3].y - vs[0].y)
  {
    BoxMates(vs, k);
    FarVertexOfNearerCorner(t, vs[k], vs[RowMate(k)], vs[ColumnMate(k)], vs[3 - k]);
  }
}
