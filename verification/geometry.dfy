/** Points, sizes and rectangles of the selector's coordinate space, with the
    CoreGraphics accessors the view reads. Coordinates are exact reals. */
module Geometry {

  datatype Point = Point(x: real, y: real)

  datatype Size = Size(width: real, height: real)

  /** A rectangle as stored: an origin and a size whose components may be
      negative. The accessors standardize it as CoreGraphics does, so
      `MinX() <= MaxX()` and `Width() >= 0.0` hold for every rectangle. */
  datatype Rect = Rect(origin: Point, size: Size) {

    function MinX(): real { Min(origin.x, origin.x + size.width) }
    function MaxX(): real { Max(origin.x, origin.x + size.width) }
    function MinY(): real { Min(origin.y, origin.y + size.height) }
    function MaxY(): real { Max(origin.y, origin.y + size.height) }
    function Width(): real { Abs(size.width) }
    function Height(): real { Abs(size.height) }

    /** Whether the stored size is already standardized. */
    predicate HasNonNegativeSize() {
      size.width >= 0.0 && size.height >= 0.0
    }

    function TopLeft(): Point { Point(MinX(), MinY()) }
    function TopRight(): Point { Point(MaxX(), MinY()) }
    function BottomLeft(): Point { Point(MinX(), MaxY()) }
    function BottomRight(): Point { Point(MaxX(), MaxY()) }
  }

  function Abs(v: real): (r: real)
    ensures r >= 0.0 && (r == v || r == -v)
  {
    if v < 0.0 then -v else v
  }

  function Min(a: real, b: real): (r: real)
    ensures r <= a && r <= b && (r == a || r == b)
  {
    if b < a then b else a
  }

  function Max(a: real, b: real): (r: real)
    ensures r >= a && r >= b && (r == a || r == b)
  {
    if b >= a then b else a
  }

  /** The midpoint of `r` (`getCenterPointOfFrame`): equally far from both
      vertical edges and from both horizontal edges. */
  function Center(r: Rect): (c: Point)
    ensures c.x - r.MinX() == r.MaxX() - c.x
    ensures c.y - r.MinY() == r.MaxY() - c.y
    ensures c == Point(r.origin.x + r.size.width / 2.0, r.origin.y + r.size.height / 2.0)
  {
    Point(r.MinX() + r.Width() / 2.0, r.MinY() + r.Height() / 2.0)
  }

  /** The four corners, top-left, top-right, bottom-left, bottom-right. */
  function Corners(r: Rect): (cs: seq<Point>)
    ensures |cs| == 4
    ensures forall p :: p in cs ==> r.MinX() <= p.x <= r.MaxX() && r.MinY() <= p.y <= r.MaxY()
  {
    [r.TopLeft(), r.TopRight(), r.BottomLeft(), r.BottomRight()]
  }

  /** `a` and `b` are diagonally opposite corners of `r`. */
  predicate AreOppositeCorners(r: Rect, a: Point, b: Point) {
    || (a == r.TopLeft() && b == r.BottomRight())
    || (a == r.TopRight() && b == r.BottomLeft())
    || (a == r.BottomLeft() && b == r.TopRight())
    || (a == r.BottomRight() && b == r.TopLeft())
  }

  /** The rectangle spanned by two points (`createRect(from:to:)`): its size
      is never negative and the two points are opposite corners of it. */
  function CreateRect(a: Point, b: Point): (r: Rect)
    ensures r.HasNonNegativeSize()
    ensures AreOppositeCorners(r, a, b)
  {
    Rect(Point(Min(a.x, b.x), Min(a.y, b.y)), Size(Abs(b.x - a.x), Abs(b.y - a.y)))
  }

  /** The spanned rectangle does not depend on which point comes first. */
  lemma CreateRectSymmetric(a: Point, b: Point)
    ensures CreateRect(a, b) == CreateRect(b, a)
  {
  }

  /** Two points determine the standardized rectangle that has them as
      opposite corners: `CreateRect` is the only one. */
  lemma CreateRectUnique(a: Point, b: Point, r: Rect)
    requires r.HasNonNegativeSize()
    requires AreOppositeCorners(r, a, b)
    ensures r == CreateRect(a, b)
  {
  }

  /** CoreGraphics' `contains(_:)`: half-open on the right and bottom edges,
      so an empty rectangle contains nothing and the far corner is outside. */
  function Contains(r: Rect, p: Point): (inside: bool)
    ensures inside ==> r.Width() > 0.0 && r.Height() > 0.0
    ensures inside ==> p != Point(r.MaxX(), r.MaxY()) && p != Point(r.MinX(), r.MaxY())
                       && p != Point(r.MaxX(), r.MinY())
  {
    r.MinX() <= p.x < r.MaxX() && r.MinY() <= p.y < r.MaxY()
  }

  /** CoreGraphics' `insetBy(dx:dy:)` on a rectangle it does not turn into the
      null rectangle: the standardized rectangle shrunk by `dx` on the left and
      right and by `dy` on the top and bottom. */
  function InsetBy(r: Rect, dx: real, dy: real): (inner: Rect)
    requires 0.0 <= 2.0 * dx <= r.Width() && 0.0 <= 2.0 * dy <= r.Height()
    ensures inner.HasNonNegativeSize()
    ensures inner.MinX() == r.MinX() + dx && inner.Width() == r.Width() - 2.0 * dx
    ensures inner.MinY() == r.MinY() + dy && inner.Height() == r.Height() - 2.0 * dy
    ensures Center(inner) == Center(r)
    ensures r.MinX() <= inner.MinX() && inner.MaxX() <= r.MaxX()
    ensures r.MinY() <= inner.MinY() && inner.MaxY() <= r.MaxY()
  {
    Rect(Point(r.MinX() + dx, r.MinY() + dy), Size(r.Width() - 2.0 * dx, r.Height() - 2.0 * dy))
  }

  /** The rectangle of `size` scaled by `scale` and centred on `center`
      (`getFrameAfterScale`). */
  function ScaleAround(scale: real, center: Point, size: Size): (r: Rect)
    ensures r.size == Size(size.width * scale, size.height * scale)
    ensures scale >= 0.0 && size.width >= 0.0 && size.height >= 0.0 ==> r.HasNonNegativeSize()
  {
    var w := size.width * scale;
    var h := size.height * scale;
    Rect(Point(center.x - w / 2.0, center.y - h / 2.0), Size(w, h))
  }

  /** The scaled rectangle is centred on `center`, whatever the signs of
      the scale and the size. */
  lemma ScaleAroundIsCentred(scale: real, center: Point, size: Size)
    ensures Center(ScaleAround(scale, center, size)) == center
  {
  }

  /** Scaling by one about a rectangle's own centre gives the rectangle back. */
  lemma ScaleAroundOwnCenterByOne(f: Rect)
    ensures ScaleAround(1.0, Center(f), f.size) == f
  {
  }

  /** Scaling twice about the same centre is scaling once by the product. */
  lemma ScaleAroundCompose(s: real, t: real, c: Point, size: Size)
    ensures ScaleAround(t, c, ScaleAround(s, c, size).size) == ScaleAround(s * t, c, size)
  {
    assert size.width * s * t == size.width * (s * t);
    assert size.height * s * t == size.height * (s * t);
  }

  /** Clamps `v` from below by `lo` and then from above by `hi`, so that `hi`
      wins when the bounds cross. */
  function ClampHighWins(v: real, lo: real, hi: real): (r: real)
    ensures r <= hi
    ensures lo <= hi ==> lo <= r
    ensures lo <= v <= hi ==> r == v
    ensures lo > hi ==> r == hi
  {
    Min(Max(lo, v), hi)
  }

  /** When the bounds do not cross, the clamped value is the point of
      `[lo, hi]` nearest to `v`. */
  lemma ClampIsNearest(v: real, lo: real, hi: real, z: real)
    requires lo <= z <= hi
    ensures Abs(ClampHighWins(v, lo, hi) - v) <= Abs(z - v)
  {
  }
}
