/** The geometry the shapes use, on exact reals: points, midpoints and
    distances.  A distance is compared through its square, so no square root
    is needed: `p.distanceTo(q) <= d` holds exactly when d >= 0 and the squared
    distance is at most d * d. */
module Geometry {

  datatype Point2d = Point2d(x: real, y: real)

  /** `Point2d()`: the origin. */
  function Origin(): Point2d { Point2d(0.0, 0.0) }

  /** `p + Vector2d(dx, dy)`. */
  function Offset(p: Point2d, dx: real, dy: real): Point2d { Point2d(p.x + dx, p.y + dy) }

  /** `(p + q) / 2`: the point halfway from p to q. */
  function Midpoint(p: Point2d, q: Point2d): (m: Point2d)
    ensures m.x - p.x == q.x - m.x && m.y - p.y == q.y - m.y
  {
    Point2d((p.x + q.x) / 2.0, (p.y + q.y) / 2.0)
  }

  /** The square of `p.distanceTo(q)`. */
  function SqDist(p: Point2d, q: Point2d): (d: real)
  {
    (p.x - q.x) * (p.x - q.x) + (p.y - q.y) * (p.y - q.y)
  }

  lemma SqDistProperties(p: Point2d, q: Point2d)
    ensures SqDist(p, q) >= 0.0
    ensures SqDist(p, q) == SqDist(q, p)
    ensures p == q ==> SqDist(p, q) == 0.0
  {
    Square(p.x - q.x);
    Square(p.y - q.y);
  }

  lemma Square(v: real)
    ensures v * v >= 0.0
  {
    if v < 0.0 {
      assert v * v == (-v) * (-v);
    }
  }

  /** `p.distanceTo(q) <= d`. */
  predicate WithinDist(p: Point2d, q: Point2d, d: real)
  {
    d >= 0.0 && SqDist(p, q) <= d * d
  }

  /** `p.distanceTo(q) < d`. */
  predicate CloserThan(p: Point2d, q: Point2d, d: real)
  {
    d > 0.0 && SqDist(p, q) < d * d
  }

  /** A larger bound admits every pair a smaller one admits. */
  lemma {:induction false} WithinDistMonotone(p: Point2d, q: Point2d, d1: real, d2: real)
    requires d1 <= d2 && WithinDist(p, q, d1)
    ensures WithinDist(p, q, d2)
  {
    assert d1 * d1 <= d1 * d2 <= d2 * d2;
  }

  /** A point closer than d1 is closer than any d2 >= d1. */
  lemma {:induction false} CloserThanMonotone(p: Point2d, q: Point2d, d1: real, d2: real)
    requires d1 <= d2 && CloserThan(p, q, d1)
    ensures CloserThan(p, q, d2)
  {
    assert d1 * d1 <= d1 * d2 <= d2 * d2;
  }
}
