/** The basic shapes of core/include/shape/mgbasicsp.h: the two-point line, the
    rectangle family, the variable-length polyline/spline buffer and the
    parallelogram, with the type tags their factories are keyed on. */
module Shapes {
  import opened Options
  import opened Geometry

  // ---- Type tags ----

  /** The concrete shape classes. */
  datatype ShapeKind = Line | Rect | Ellipse | RoundRect | Diamond | Lines | Splines | Parallelogram

  /** `MgBaseRect::Type()` and `MgBaseLines::Type()`: the two abstract families. */
  const BaseRectType: nat := 4
  const BaseLinesType: nat := 5

  /** `Type()` of each concrete class (the third argument of its
      MG_DECLARE_CREATE / MG_INHERIT_CREATE). */
  function TypeTag(k: ShapeKind): (t: nat)
    ensures 10 <= t <= 17
  {
    match k
    case Line => 10
    case Rect => 11
    case Ellipse => 12
    case RoundRect => 13
    case Diamond => 14
    case Lines => 15
    case Splines => 16
    case Parallelogram => 17
  }

  /** The family a concrete class inherits from, if any: MgRect, MgEllipse,
      MgRoundRect and MgDiamond derive from MgBaseRect, MgLines and MgSplines
      from MgBaseLines, and MgLine and MgParallelogram directly from MgBaseShape. */
  function BaseType(k: ShapeKind): (t: Option<nat>)
    ensures t.Some? ==> t.value == BaseRectType || t.value == BaseLinesType
    ensures t == Some(BaseRectType) <==> k.Rect? || k.Ellipse? || k.RoundRect? || k.Diamond?
    ensures t == Some(BaseLinesType) <==> k.Lines? || k.Splines?
    ensures t.None? <==> k.Line? || k.Parallelogram?
  {
    match k
    case Rect | Ellipse | RoundRect | Diamond => Some(BaseRectType)
    case Lines | Splines => Some(BaseLinesType)
    case Line | Parallelogram => None
  }

  /** The class a factory keyed on a type tag creates. */
  function KindOfTag(t: nat): (k: Option<ShapeKind>)
    ensures k.Some? <==> 10 <= t <= 17
  {
    if t == 10 then Some(Line)
    else if t == 11 then Some(Rect)
    else if t == 12 then Some(Ellipse)
    else if t == 13 then Some(RoundRect)
    else if t == 14 then Some(Diamond)
    else if t == 15 then Some(Lines)
    else if t == 16 then Some(Splines)
    else if t == 17 then Some(Parallelogram)
    else None
  }

  /** Every class has its own tag, distinct from the family tags: the tag is
      a key from which the class is recovered, and only tags 10-17 are keys. */
  lemma TypeTagsIdentifyClasses(k: ShapeKind, k': ShapeKind, t: nat)
    ensures KindOfTag(TypeTag(k)) == Some(k)
    ensures KindOfTag(t).Some? ==> TypeTag(KindOfTag(t).value) == t
    ensures TypeTag(k) == TypeTag(k') ==> k == k'
    ensures TypeTag(k) != BaseRectType && TypeTag(k) != BaseLinesType
  {
    assert KindOfTag(TypeTag(k')) == Some(k');
  }

  // ---- MgLine ----

  /** A line segment: exactly two points, `_points[2]`. */
  class MgLine {
    const points: array<Point2d>

    constructor ()
      ensures fresh(points) && points.Length == 2
    {
      points := new Point2d[2];
    }

    /** `startPoint()`: point 0. */
    function StartPoint(): Point2d
      requires points.Length == 2
      reads points
    {
      points[0]
    }

    /** `endPoint()`: point 1. */
    function EndPoint(): Point2d
      requires points.Length == 2
      reads points
    {
      points[1]
    }

    /** `center()`: the point halfway along the segment. */
    function Center(): (c: Point2d)
      requires points.Length == 2
      reads points
      ensures c.x - StartPoint().x == EndPoint().x - c.x
      ensures c.y - StartPoint().y == EndPoint().y - c.y
    {
      Midpoint(points[0], points[1])
    }

    /** The square of `length()`. */
    function SqLength(): (l: real)
      requires points.Length == 2
      reads points
      ensures l >= 0.0
      ensures StartPoint() == EndPoint() ==> l == 0.0
    {
      SqDistProperties(points[0], points[1]);
      SqDist(points[0], points[1])
    }

    /** `setStartPoint(pt)`: writes point 0 only; update() is not called, so
        nothing but the point array changes. */
    method SetStartPoint(pt: Point2d)
      requires points.Length == 2
      modifies points
      ensures StartPoint() == pt && EndPoint() == old(EndPoint())
    {
      points[0] := pt;
    }

    /** `setEndPoint(pt)`: writes point 1 only, without update(). */
    method SetEndPoint(pt: Point2d)
      requires points.Length == 2
      modifies points
      ensures EndPoint() == pt && StartPoint() == old(StartPoint())
    {
      points[1] := pt;
    }
  }

  // ---- MgBaseRect ----

  /** The rectangle family: four corner points, clockwise from the top left,
      and the square flag of the shape's flag bits. */
  class MgBaseRect {
    const points: array<Point2d>
    var square: bool

    constructor ()
      ensures fresh(points) && points.Length == 4 && !square
    {
      points := new Point2d[4];
      square := false;
    }

    /** `setSquare(square)`: sets only the kMgSquare flag. */
    method SetSquare(square: bool)
      modifies this
      ensures this.square == square
    {
      this.square := square;
    }
  }

  // ---- MgBaseLines: the variable-length point buffer ----

  /** Polylines and splines: `_points` has room for `_maxCount` points of which
      the first `_count` are the shape's vertices. */
  class MgBaseLines {
    var points: array<Point2d>
    var maxCount: nat
    var count: nat
    var closed: bool

    /** The live count never exceeds the allocated capacity. */
    ghost predicate Valid()
      reads this
    {
      maxCount == points.Length && count <= maxCount
    }

    /** The vertices. */
    function Contents(): (s: seq<Point2d>)
      requires Valid()
      reads this, points
      ensures |s| == count
    {
      points[..count]
    }

    /** An empty buffer with nothing allocated. */
    constructor ()
      ensures Valid() && fresh(points) && Contents() == [] && !closed
    {
      points := new Point2d[0];
      maxCount, count := 0, 0;
      closed := false;
    }

    /** `setClosed(closed)`: sets only the kMgClosed flag. */
    method SetClosed(closed: bool)
      requires Valid()
      modifies this
      ensures Valid() && points == old(points) && Contents() == old(Contents())
      ensures this.closed == closed
    {
      this.closed := closed;
    }

    /** `getPoint(index)`. */
    function GetPoint(index: nat): (pt: Point2d)
      requires Valid() && index < count
      reads this, points
      ensures pt == Contents()[index]
    {
      points[index]
    }

    /** `endPoint()`: the last vertex, or the origin when there is none. */
    function EndPoint(): (pt: Point2d)
      requires Valid()
      reads this, points
      ensures count > 0 ==> pt == Contents()[count - 1]
    {
      if count > 0 then points[count - 1] else Origin()
    }

    /** `setPoint(index, pt)`: overwrites one vertex. */
    method SetPoint(index: nat, pt: Point2d)
      requires Valid() && index < count
      modifies points
      ensures Valid() && Contents() == old(Contents())[index := pt]
    {
      points[index] := pt;
    }

    /** `resize(n)`: the vertex count becomes n.  When n exceeds the capacity a
        buffer of n points is allocated and the live vertices are copied into
        it.  The vertices below both counts are kept. */
    method Resize(n: nat) returns (ok: bool)
      requires Valid()
      modifies this
      ensures Valid() && ok && count == n && closed == old(closed)
      ensures points == old(points) || fresh(points)
      ensures var keep := if n < old(count) then n else old(count);
              Contents()[..keep] == old(Contents())[..keep]
    {
      if maxCount < n {
        var grown := new Point2d[n];
        var i := 0;
        while i < count
          invariant 0 <= i <= count
          invariant points == old(points) && count == old(count) && closed == old(closed)
          invariant forall j :: 0 <= j < i ==> grown[j] == points[j]
        {
          grown[i] := points[i];
          i := i + 1;
        }
        points := grown;
        maxCount := n;
      }
      count := n;
      ok := true;
    }

    /** `addPoint(pt)`: appends one vertex, which becomes the end point. */
    method AddPoint(pt: Point2d) returns (ok: bool)
      requires Valid()
      modifies this, points
      ensures Valid() && ok && closed == old(closed)
      ensures points == old(points) || fresh(points)
      ensures Contents() == old(Contents()) + [pt]
      ensures EndPoint() == pt
    {
      ghost var before := Contents();
      ok := Resize(count + 1);
      points[count - 1] := pt;
      assert Contents()[..count - 1] == before;
    }

    /** The number of segments: one per vertex of a closed shape, one fewer
        for an open one. */
    function SegmentCount(): int
      reads this
    {
      if closed then count else count - 1
    }

    /** `insertPoint(segment, pt)`: a new vertex between the two ends of a
        valid segment, i.e. at index segment + 1; every other vertex keeps its
        relative order.  An invalid segment changes nothing. */
    method InsertPoint(segment: int, pt: Point2d) returns (ok: bool)
      requires Valid()
      modifies this, points
      ensures Valid() && closed == old(closed)
      ensures points == old(points) || fresh(points)
      ensures ok <==> 0 <= segment < old(SegmentCount())
      ensures ok ==> Contents() == old(Contents())[..segment + 1] + [pt] + old(Contents())[segment + 1..]
      ensures !ok ==> Contents() == old(Contents())
    {
      if !(0 <= segment < SegmentCount()) {
        return false;
      }
      ghost var before := Contents();
      ok := Resize(count + 1);
      var n := count;
      ghost var mid := points[..n];
      assert mid[..n - 1] == before;
      ShiftUp(points, segment + 1, n - 1);
      points[segment + 1] := pt;
      ghost var want := before[..segment + 1] + [pt] + before[segment + 1..];
      forall j | 0 <= j < n
        ensures points[j] == want[j]
      {
        if j <= segment {
          assert points[j] == mid[j] == mid[..n - 1][j];
        } else if j > segment + 1 {
          assert points[j] == mid[j - 1] == mid[..n - 1][j - 1];
        }
      }
      assert Contents() == want;
    }

    /** `removePoint(index)`: deletes exactly the indexed vertex; the others
        keep their relative order.  An index past the end changes nothing. */
    method RemovePoint(index: nat) returns (ok: bool)
      requires Valid()
      modifies this, points
      ensures Valid() && points == old(points) && closed == old(closed)
      ensures ok <==> index < old(count)
      ensures ok ==> Contents() == old(Contents())[..index] + old(Contents())[index + 1..]
      ensures !ok ==> Contents() == old(Contents())
    {
      if index >= count {
        return false;
      }
      ghost var before := Contents();
      ShiftDown(points, index, count - 1);
      count := count - 1;
      ok := true;
      forall j | 0 <= j < count
        ensures points[j] == (before[..index] + before[index + 1..])[j]
      {
        if j < index {
          assert points[j] == before[j];
        } else {
          assert points[j] == before[j + 1];
        }
      }
      assert Contents() == before[..index] + before[index + 1..];
    }
  }

  /** Moves a[lo..hi-1] up one place, to a[lo+1..hi]; a[lo] keeps its value
      and nothing outside lo..hi changes. */
  method ShiftUp<T>(a: array<T>, lo: nat, hi: nat)
    requires lo <= hi < a.Length
    modifies a
    ensures forall j :: 0 <= j <= lo ==> a[j] == old(a[j])
    ensures forall j :: lo < j <= hi ==> a[j] == old(a[j - 1])
    ensures forall j :: hi < j < a.Length ==> a[j] == old(a[j])
  {
    var i := hi;
    while i > lo
      invariant lo <= i <= hi
      invariant forall j :: 0 <= j <= i ==> a[j] == old(a[j])
      invariant forall j :: i < j <= hi ==> a[j] == old(a[j - 1])
      invariant forall j :: hi < j < a.Length ==> a[j] == old(a[j])
    {
      a[i] := a[i - 1];
      i := i - 1;
    }
  }

  /** Moves a[lo+1..hi] down one place, to a[lo..hi-1]; a[hi] keeps its value
      and nothing outside lo..hi changes. */
  method ShiftDown<T>(a: array<T>, lo: nat, hi: nat)
    requires lo <= hi < a.Length
    modifies a
    ensures forall j :: 0 <= j < lo ==> a[j] == old(a[j])
    ensures forall j :: lo <= j < hi ==> a[j] == old(a[j + 1])
    ensures forall j :: hi <= j < a.Length ==> a[j] == old(a[j])
  {
    var i := lo;
    while i < hi
      invariant lo <= i <= hi
      invariant forall j :: 0 <= j < lo ==> a[j] == old(a[j])
      invariant forall j :: lo <= j < i ==> a[j] == old(a[j + 1])
      invariant forall j :: i <= j < a.Length ==> a[j] == old(a[j])
    {
      a[i] := a[i + 1];
      i := i + 1;
    }
  }

  // ---- MgParallelogram ----

  /** A parallelogram: four corner points, clockwise from the top left. */
  class MgParallelogram {
    const points: array<Point2d>

    constructor ()
      ensures fresh(points) && points.Length == 4
    {
      points := new Point2d[4];
    }

    /** `getCenter()`: halfway between the opposite corners 0 and 2. */
    function GetCenter(): (c: Point2d)
      requires points.Length == 4
      reads points
      ensures c.x - points[0].x == points[2].x - c.x
      ensures c.y - points[0].y == points[2].y - c.y
    {
      Midpoint(points[0], points[2])
    }

    /** The square of `getWidth()`, the side from corner 0 to corner 1. */
    function SqWidth(): (w: real)
      requires points.Length == 4
      reads points
      ensures w >= 0.0 && (points[0] == points[1] ==> w == 0.0)
    {
      SqDistProperties(points[0], points[1]);
      SqDist(points[0], points[1])
    }

    /** The square of `getHeight()`, the side from corner 2 to corner 1. */
    function SqHeight(): (h: real)
      requires points.Length == 4
      reads points
      ensures h >= 0.0 && (points[2] == points[1] ==> h == 0.0)
    {
      SqDistProperties(points[2], points[1]);
      SqDist(points[2], points[1])
    }

    /** `isEmpty(minDist)`: the width or the height is at most minDist. */
    predicate IsEmpty(minDist: real)
      requires points.Length == 4
      reads points
    {
      WithinDist(points[0], points[1], minDist) || WithinDist(points[2], points[1], minDist)
    }
  }

  /** isEmpty in terms of the two sides: never for a negative bound, and
      otherwise exactly when the shorter side is within the bound. */
  lemma IsEmptyBySides(p: MgParallelogram, minDist: real)
    requires p.points.Length == 4
    ensures p.IsEmpty(minDist) <==>
      minDist >= 0.0 && (if p.SqWidth() < p.SqHeight() then p.SqWidth() else p.SqHeight()) <= minDist * minDist
  {
  }

  /** A shape empty for one bound is empty for every larger one, and a
      parallelogram collapsed onto one point is empty for every bound >= 0. */
  lemma IsEmptyMonotone(p: MgParallelogram, m1: real, m2: real)
    requires p.points.Length == 4
    ensures m1 <= m2 && p.IsEmpty(m1) ==> p.IsEmpty(m2)
    ensures p.points[0] == p.points[1] == p.points[2] && m1 >= 0.0 ==> p.IsEmpty(m1)
  {
    if m1 <= m2 && p.IsEmpty(m1) {
      if WithinDist(p.points[0], p.points[1], m1) {
        WithinDistMonotone(p.points[0], p.points[1], m1, m2);
      } else {
        WithinDistMonotone(p.points[2], p.points[1], m1, m2);
      }
    }
    SqDistProperties(p.points[0], p.points[1]);
    Square(m1);
  }
}
