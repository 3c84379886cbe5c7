/** Points, the midpoint helper and the edge midpoints of an ordered bounding box. */
module Geometry {

  datatype Point = Point(x: real, y: real)

  /** The midpoint of two points, computed as in TallyhoApp.midpoint. */
  function Midpoint(a: Point, b: Point): (m: Point)
    ensures m.x - a.x == b.x - m.x && m.y - a.y == b.y - m.y
    ensures (a.x <= m.x <= b.x) || (b.x <= m.x <= a.x)
    ensures (a.y <= m.y <= b.y) || (b.y <= m.y <= a.y)
  {
    Point((a.x + b.x) * 0.5, (a.y + b.y) * 0.5)
  }

  /** The midpoint does not depend on the order of its arguments. */
  lemma MidpointSymmetric(a: Point, b: Point)
    ensures Midpoint(a, b) == Midpoint(b, a)
  {
  }

  /** Being equidistant from both ends in each coordinate pins the midpoint down. */
  lemma MidpointUnique(a: Point, b: Point, m: Point)
    requires m.x - a.x == b.x - m.x && m.y - a.y == b.y - m.y
    ensures m == Midpoint(a, b)
  {
  }

  /** A bounding box whose corners are ordered top-left, top-right, bottom-right, bottom-left. */
  datatype Box = Box(tl: Point, tr: Point, br: Point, bl: Point)

  /** The midpoints of the top, bottom, left and right edges of a box. */
  datatype EdgeMidpoints = EdgeMidpoints(top: Point, bottom: Point, left: Point, right: Point)

  function MidpointsOf(b: Box): EdgeMidpoints
  {
    EdgeMidpoints(Midpoint(b.tl, b.tr), Midpoint(b.bl, b.br), Midpoint(b.tl, b.bl), Midpoint(b.tr, b.br))
  }

  function SqDist(p: Point, q: Point): (d: real)
    ensures d >= 0.0
  {
    (q.x - p.x) * (q.x - p.x) + (q.y - p.y) * (q.y - p.y)
  }

  /** `d` is the Euclidean distance from `p` to `q`, stated without a square root. */
  predicate IsDistance(d: real, p: Point, q: Point)
  {
    d >= 0.0 && d * d == SqDist(p, q)
  }

  /** Opposite edges are equal and parallel, as for every rotated rectangle. */
  predicate IsParallelogram(b: Box)
  {
    b.tr.x - b.tl.x == b.br.x - b.bl.x && b.tr.y - b.tl.y == b.br.y - b.bl.y
  }

  /**
   * For a parallelogram, the segment between the left and right edge midpoints is as long
   * as the top edge, and the segment between the top and bottom edge midpoints is as long as
   * the left edge: dB measures the box's width and dA its height.
   */
  lemma ParallelogramMidlines(b: Box)
    requires IsParallelogram(b)
    ensures SqDist(MidpointsOf(b).left, MidpointsOf(b).right) == SqDist(b.tl, b.tr)
    ensures SqDist(MidpointsOf(b).top, MidpointsOf(b).bottom) == SqDist(b.tl, b.bl)
  {
    // The coordinate differences of each midline equal those of the matching edge.
  }

  /** Two non-negative reals with the same square are equal. */
  lemma SquareRootUnique(u: real, v: real)
    requires u >= 0.0 && v >= 0.0 && u * u == v * v
    ensures u == v
  {
    if u < v {
      SquareStrictlyIncreasing(u, v);
    } else if v < u {
      SquareStrictlyIncreasing(v, u);
    }
  }

  lemma SquareStrictlyIncreasing(u: real, v: real)
    requires 0.0 <= u < v
    ensures u * u < v * v
  {
    var d := v - u;
    assert v * v == u * u + 2.0 * u * d + d * d;
    assert u * d >= 0.0;
    assert d * d > 0.0;
  }

  /**
   * For an upright box of width `w` and height `h` with corner `(x, y)`, the distances dA and
   * dB between opposite edge midpoints are exactly its height and its width.
   */
  lemma UprightBoxDistances(x: real, y: real, w: real, h: real, dA: real, dB: real)
    requires w >= 0.0 && h >= 0.0
    requires IsDistance(dA, MidpointsOf(Box(Point(x, y), Point(x + w, y), Point(x + w, y + h), Point(x, y + h))).top,
                            MidpointsOf(Box(Point(x, y), Point(x + w, y), Point(x + w, y + h), Point(x, y + h))).bottom)
    requires IsDistance(dB, MidpointsOf(Box(Point(x, y), Point(x + w, y), Point(x + w, y + h), Point(x, y + h))).left,
                            MidpointsOf(Box(Point(x, y), Point(x + w, y), Point(x + w, y + h), Point(x, y + h))).right)
    ensures dA == h && dB == w
  {
    var b := Box(Point(x, y), Point(x + w, y), Point(x + w, y + h), Point(x, y + h));
    ParallelogramMidlines(b);
    assert SqDist(b.tl, b.tr) == w * w;
    assert SqDist(b.tl, b.bl) == h * h;
    SquareRootUnique(dA, h);
    SquareRootUnique(dB, w);
  }
}
