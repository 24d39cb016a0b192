/** Line.cs: an immutable segment and the closed-form segment-segment
    intersection test the ship scheduler relies on. */
module Lines {
  import opened Geometry

  /** A segment given by its two endpoints; they are set once, by the
      constructor, and never change. */
  datatype Line = Line(startPoint: Vec2, endPoint: Vec2)
  {
    /** The direction vector `end - start` the public test passes on. */
    function Direction(): Vec2 { endPoint.Sub(startPoint) }
  }

  /** The answer of SegmentIntersection: the returned flag and the point
      written to the `out` argument. */
  datatype Intersection = Intersection(found: bool, point: Vec3)

  /** The float tolerance used for both the coplanarity and the
      parallelism test. */
  const Tolerance: real := 0.0001

  /** `v` lies between `a` and `b`, whichever of the two is smaller. */
  predicate Between(v: real, a: real, b: real)
  {
    (a <= v <= b) || (b <= v <= a)
  }

  /** `p` lies in the closed axis-aligned box spanned by `a` and `b`
      (z is not looked at). */
  predicate InBox(p: Vec3, a: Vec3, b: Vec3)
  {
    Between(p.x, a.x, b.x) && Between(p.y, a.y, b.y)
  }

  /** `p` lies on the straight line through `a` with direction `d`. */
  predicate OnCarrier(p: Vec2, a: Vec2, d: Vec2)
  {
    Cross2(p.Sub(a), d) == 0.0
  }

  /** DoesPointBelongsSegment: the bounding-box test, boundaries included. */
  function DoesPointBelongsSegment(point: Vec3, aEnd: Vec3, bEnd: Vec3): (r: bool)
    ensures r <==> InBox(point, aEnd, bEnd)
  {
    var minX := Min(aEnd.x, bEnd.x);
    var maxX := Max(aEnd.x, bEnd.x);
    var minY := Min(aEnd.y, bEnd.y);
    var maxY := Max(aEnd.y, bEnd.y);
    !(point.x > maxX) && !(point.x < minX) && !(point.y > maxY) && !(point.y < minY)
  }

  /** The order of the two endpoints does not matter, and both endpoints
      belong to the segment. */
  lemma SegmentEndsInterchangeable(point: Vec3, aEnd: Vec3, bEnd: Vec3)
    ensures DoesPointBelongsSegment(point, aEnd, bEnd) == DoesPointBelongsSegment(point, bEnd, aEnd)
    ensures DoesPointBelongsSegment(aEnd, aEnd, bEnd) && DoesPointBelongsSegment(bEnd, aEnd, bEnd)
  {}

  /** The private overload of SegmentIntersection: each segment is a start
      point and a direction vector. When the lines are coplanar and not
      parallel the candidate point on the first carrier line is computed and
      checked against both bounding boxes; otherwise the answer is
      `false` with the zero vector. */
  function SegmentIntersectionAt(linePoint1: Vec3, lineVec1: Vec3, linePoint2: Vec3, lineVec2: Vec3): (r: Intersection)
    ensures var crossVec1and2 := lineVec1.Cross(lineVec2);
            var planarFactor := linePoint2.Sub(linePoint1).Dot(crossVec1and2);
            !(Abs(planarFactor) < Tolerance && crossVec1and2.SqrMagnitude() > Tolerance) ==>
              r == Intersection(false, Zero3)
    ensures var crossVec1and2 := lineVec1.Cross(lineVec2);
            var planarFactor := linePoint2.Sub(linePoint1).Dot(crossVec1and2);
            Abs(planarFactor) < Tolerance && crossVec1and2.SqrMagnitude() > Tolerance ==>
              r.point.Sub(linePoint1).Cross(lineVec1) == Zero3 &&
              (r.found <==> InBox(r.point, linePoint1, linePoint1.Add(lineVec1)) &&
                            InBox(r.point, linePoint2, linePoint2.Add(lineVec2)))
    ensures r.found ==>
              InBox(r.point, linePoint1, linePoint1.Add(lineVec1)) &&
              InBox(r.point, linePoint2, linePoint2.Add(lineVec2))
  {
    var lineVec3 := linePoint2.Sub(linePoint1);
    var crossVec1and2 := lineVec1.Cross(lineVec2);
    var crossVec3and2 := lineVec3.Cross(lineVec2);
    var planarFactor := lineVec3.Dot(crossVec1and2);
    if Abs(planarFactor) < Tolerance && crossVec1and2.SqrMagnitude() > Tolerance then
      var s := crossVec3and2.Dot(crossVec1and2) / crossVec1and2.SqrMagnitude();
      var intersection := linePoint1.Add(lineVec1.Scale(s));
      assert intersection.Sub(linePoint1) == lineVec1.Scale(s);
      ScaledIsParallel(lineVec1, s);
      var val1 := DoesPointBelongsSegment(intersection, linePoint1, linePoint1.Add(lineVec1));
      var val2 := DoesPointBelongsSegment(intersection, linePoint2, linePoint2.Add(lineVec2));
      Intersection(val1 && val2, intersection)
    else
      Intersection(false, Zero3)
  }

  /** A multiple of a vector is parallel to it. */
  lemma ScaledIsParallel(v: Vec3, s: real)
    ensures v.Scale(s).Cross(v) == Zero3
  {
    assert v.y * s * v.z == v.z * s * v.y;
    assert v.z * s * v.x == v.x * s * v.z;
    assert v.x * s * v.y == v.y * s * v.x;
  }

  /** The public SegmentIntersection: each Line is passed on as its start
      point and its direction `end - start`, lifted to z = 0. Parallel (or
      nearly parallel) segments never intersect and leave the zero vector;
      otherwise the point is where the two carrier lines cross, and the
      answer is whether that point is in both bounding boxes. */
  function SegmentIntersection(currentShipTrajectory: Line, prevShipTrajectory: Line): (r: Intersection)
    ensures var k := Cross2(currentShipTrajectory.Direction(), prevShipTrajectory.Direction());
            k * k <= Tolerance ==> r == Intersection(false, Zero3)
    ensures var k := Cross2(currentShipTrajectory.Direction(), prevShipTrajectory.Direction());
            k * k > Tolerance ==>
              r.point.z == 0.0 &&
              OnCarrier(Flatten(r.point), currentShipTrajectory.startPoint, currentShipTrajectory.Direction()) &&
              OnCarrier(Flatten(r.point), prevShipTrajectory.startPoint, prevShipTrajectory.Direction())
    ensures var k := Cross2(currentShipTrajectory.Direction(), prevShipTrajectory.Direction());
            r.found <==>
              k * k > Tolerance &&
              InBox(r.point, Lift(currentShipTrajectory.startPoint), Lift(currentShipTrajectory.endPoint)) &&
              InBox(r.point, Lift(prevShipTrajectory.startPoint), Lift(prevShipTrajectory.endPoint))
  {
    var p1, v1 := currentShipTrajectory.startPoint, currentShipTrajectory.Direction();
    var p2, v2 := prevShipTrajectory.startPoint, prevShipTrajectory.Direction();
    PlanarCase(p1, v1, p2, v2);
    assert Lift(p1).Add(Lift(v1)) == Lift(currentShipTrajectory.endPoint);
    assert Lift(p2).Add(Lift(v2)) == Lift(prevShipTrajectory.endPoint);
    SegmentIntersectionAt(Lift(p1), Lift(v1), Lift(p2), Lift(v2))
  }

  /** For segments of the plane the planar factor is zero, so only the
      parallelism test decides; the candidate point is the crossing of the
      two carrier lines. */
  lemma PlanarCase(p1: Vec2, v1: Vec2, p2: Vec2, v2: Vec2)
    ensures Lift(p2).Sub(Lift(p1)).Dot(Lift(v1).Cross(Lift(v2))) == 0.0
    ensures Lift(v1).Cross(Lift(v2)).SqrMagnitude() == Cross2(v1, v2) * Cross2(v1, v2)
    ensures var r := SegmentIntersectionAt(Lift(p1), Lift(v1), Lift(p2), Lift(v2));
            Cross2(v1, v2) * Cross2(v1, v2) > Tolerance ==>
              r.point.z == 0.0 && OnCarrier(Flatten(r.point), p1, v1) && OnCarrier(Flatten(r.point), p2, v2)
  {
    PlanarCross(p1, v1, p2, v2);
    if Cross2(v1, v2) * Cross2(v1, v2) > Tolerance {
      PlanarCandidate(p1, v1, p2, v2);
      CrossingPoint(p1, v1, p2, v2, Cross2(p2.Sub(p1), v2) * Cross2(v1, v2) / (Cross2(v1, v2) * Cross2(v1, v2)));
    }
  }

  /** The candidate point the private overload computes for segments of
      the plane. */
  lemma PlanarCandidate(p1: Vec2, v1: Vec2, p2: Vec2, v2: Vec2)
    requires Cross2(v1, v2) * Cross2(v1, v2) > Tolerance
    ensures var k, c := Cross2(v1, v2), Cross2(p2.Sub(p1), v2);
            SegmentIntersectionAt(Lift(p1), Lift(v1), Lift(p2), Lift(v2)).point == Lift(p1).Add(Lift(v1).Scale(c * k / (k * k)))
  {
    PlanarCross(p1, v1, p2, v2);
  }

  /** The cross products of vectors of the plane point along z. */
  lemma PlanarCross(p1: Vec2, v1: Vec2, p2: Vec2, v2: Vec2)
    ensures Lift(v1).Cross(Lift(v2)) == Vec3(0.0, 0.0, Cross2(v1, v2))
    ensures Lift(p2).Sub(Lift(p1)).Cross(Lift(v2)) == Vec3(0.0, 0.0, Cross2(p2.Sub(p1), v2))
    ensures Lift(p2).Sub(Lift(p1)).Dot(Lift(v1).Cross(Lift(v2))) == 0.0
    ensures Lift(v1).Cross(Lift(v2)).SqrMagnitude() == Cross2(v1, v2) * Cross2(v1, v2)
    ensures Vec3(0.0, 0.0, Cross2(p2.Sub(p1), v2)).Dot(Vec3(0.0, 0.0, Cross2(v1, v2)))
            == Cross2(p2.Sub(p1), v2) * Cross2(v1, v2)
  {
    assert Lift(p2).Sub(Lift(p1)) == Lift(p2.Sub(p1));
  }

  /** With `s = c k / k^2` the point `p1 + v1 * s` is on both carrier lines. */
  lemma CrossingPoint(p1: Vec2, v1: Vec2, p2: Vec2, v2: Vec2, s: real)
    requires Cross2(v1, v2) * Cross2(v1, v2) > Tolerance
    requires s == Cross2(p2.Sub(p1), v2) * Cross2(v1, v2) / (Cross2(v1, v2) * Cross2(v1, v2))
    ensures var point := Lift(p1).Add(Lift(v1).Scale(s));
            point.z == 0.0 && OnCarrier(Flatten(point), p1, v1) && OnCarrier(Flatten(point), p2, v2)
  {
    CancelSquare(Cross2(p2.Sub(p1), v2), Cross2(v1, v2));
    assert Flatten(Lift(p1).Add(Lift(v1).Scale(s))) == p1.Add(v1.Scale(s));
    ScaledOnCarrier(p1, v1, s);
    CarrierOffset(p1, v1, p2, v2, s);
  }

  lemma CancelSquare(c: real, k: real)
    requires k * k > Tolerance
    ensures c * k / (k * k) * k == c
  {
    assert k != 0.0;
    assert (c / k) * (k * k) == c * k;
  }

  lemma ScaledOnCarrier(p: Vec2, d: Vec2, s: real)
    ensures OnCarrier(p.Add(d.Scale(s)), p, d)
  {
    assert p.Add(d.Scale(s)).Sub(p) == d.Scale(s);
    assert d.x * s * d.y == d.y * s * d.x;
  }

  /** How far the point `p1 + v1 * s` is off the second carrier line. */
  lemma CarrierOffset(p1: Vec2, v1: Vec2, p2: Vec2, v2: Vec2, s: real)
    ensures Cross2(p1.Add(v1.Scale(s)).Sub(p2), v2) == s * Cross2(v1, v2) - Cross2(p2.Sub(p1), v2)
  {
    var w := p1.Add(v1.Scale(s)).Sub(p2);
    assert w.x == v1.x * s - (p2.x - p1.x);
    assert w.y == v1.y * s - (p2.y - p1.y);
    assert w.x * v2.y == v1.x * s * v2.y - (p2.x - p1.x) * v2.y;
    assert w.y * v2.x == v1.y * s * v2.x - (p2.y - p1.y) * v2.x;
    assert s * Cross2(v1, v2) == v1.x * s * v2.y - v1.y * s * v2.x;
  }

  lemma ZeroFactor(a: real, k: real)
    requires k != 0.0 && a * k == 0.0
    ensures a == 0.0
  {
    assert a == (a * k) / k;
  }

  /** Two carrier lines that are not parallel cross in at most one point. */
  lemma {:induction false} CarrierCrossingUnique(p: Vec2, q: Vec2, a1: Vec2, d1: Vec2, a2: Vec2, d2: Vec2)
    requires Cross2(d1, d2) != 0.0
    requires OnCarrier(p, a1, d1) && OnCarrier(q, a1, d1)
    requires OnCarrier(p, a2, d2) && OnCarrier(q, a2, d2)
    ensures p == q
  {
    var w := p.Sub(q);
    var k := Cross2(d1, d2);
    assert Cross2(w, d1) == Cross2(p.Sub(a1), d1) - Cross2(q.Sub(a1), d1);
    assert Cross2(w, d2) == Cross2(p.Sub(a2), d2) - Cross2(q.Sub(a2), d2);
    assert w.x * d1.y == w.y * d1.x;
    assert w.x * d2.y == w.y * d2.x;
    assert w.x * k == d1.x * (w.x * d2.y) - d2.x * (w.x * d1.y);
    assert w.y * k == d1.x * (w.y * d2.y) - d2.x * (w.y * d1.y) by {
      assert w.y * k == w.y * d1.x * d2.y - w.y * d1.y * d2.x;
    }
    ZeroFactor(w.x, k);
    ZeroFactor(w.y, k);
  }

  /** Swapping the two trajectories gives the same answer and the same point. */
  lemma SegmentIntersectionSymmetric(a: Line, b: Line)
    ensures SegmentIntersection(a, b) == SegmentIntersection(b, a)
  {
    var k := Cross2(a.Direction(), b.Direction());
    SquareOfOpposite(k, Cross2(b.Direction(), a.Direction()));
    if k * k > Tolerance {
      CrossingSymmetric(a, b);
    } else {
      ParallelNotFound(a, b);
      ParallelNotFound(b, a);
    }
  }

  lemma ParallelNotFound(a: Line, b: Line)
    requires var k := Cross2(a.Direction(), b.Direction()); k * k <= Tolerance
    ensures SegmentIntersection(a, b) == Intersection(false, Zero3)
  {
  }

  lemma {:induction false} CrossingSymmetric(a: Line, b: Line)
    requires var k := Cross2(a.Direction(), b.Direction()); k * k > Tolerance
    requires var j := Cross2(b.Direction(), a.Direction()); j * j > Tolerance
    ensures SegmentIntersection(a, b) == SegmentIntersection(b, a)
  {
    var k := Cross2(a.Direction(), b.Direction());
    assert k != 0.0;
    IntersectionCharacterized(a, b);
    IntersectionCharacterized(b, a);
    SameCrossing(SegmentIntersection(a, b), SegmentIntersection(b, a), a, b);
  }

  lemma IntersectionCharacterized(a: Line, b: Line)
    requires var k := Cross2(a.Direction(), b.Direction()); k * k > Tolerance
    ensures Characterized(SegmentIntersection(a, b), a, b)
  {
  }

  /** What SegmentIntersection promises about a non-parallel pair: the point
      is on both carrier lines, in the plane, and is reported exactly when
      it is in both bounding boxes. */
  predicate Characterized(r: Intersection, a: Line, b: Line)
  {
    r.point.z == 0.0 &&
    OnCarrier(Flatten(r.point), a.startPoint, a.Direction()) &&
    OnCarrier(Flatten(r.point), b.startPoint, b.Direction()) &&
    (r.found <==> InBox(r.point, Lift(a.startPoint), Lift(a.endPoint)) && InBox(r.point, Lift(b.startPoint), Lift(b.endPoint)))
  }

  /** Two answers that both satisfy that description for crossing carrier
      lines are the same answer. */
  lemma SameCrossing(r1: Intersection, r2: Intersection, a: Line, b: Line)
    requires Cross2(a.Direction(), b.Direction()) != 0.0
    requires Characterized(r1, a, b) && Characterized(r2, b, a)
    ensures r1 == r2
  {
    CarrierCrossingUnique(Flatten(r1.point), Flatten(r2.point), a.startPoint, a.Direction(), b.startPoint, b.Direction());
    assert r1.point == r2.point;
  }

  lemma SquareOfOpposite(k: real, j: real)
    requires j == -k
    ensures j * j == k * k
  {}

  /** A point that lies on both segments is found, provided the segments
      are not (nearly) parallel. */
  lemma {:induction false} CrossingSegmentsAreFound(a: Line, b: Line, t: real, u: real)
    requires 0.0 <= t <= 1.0 && 0.0 <= u <= 1.0
    requires a.startPoint.Add(a.Direction().Scale(t)) == b.startPoint.Add(b.Direction().Scale(u))
    requires var k := Cross2(a.Direction(), b.Direction()); k * k > Tolerance
    ensures SegmentIntersection(a, b) == Intersection(true, Lift(a.startPoint.Add(a.Direction().Scale(t))))
  {
    var p := a.startPoint.Add(a.Direction().Scale(t));
    var r := SegmentIntersection(a, b);
    ScaledOnCarrier(a.startPoint, a.Direction(), t);
    ScaledOnCarrier(b.startPoint, b.Direction(), u);
    CarrierCrossingUnique(Flatten(r.point), p, a.startPoint, a.Direction(), b.startPoint, b.Direction());
    assert r.point == Lift(p);
    OnSegmentInBox(a, t);
    OnSegmentInBox(b, u);
  }

  /** A point of a segment lies in the segment's bounding box. */
  lemma OnSegmentInBox(l: Line, t: real)
    requires 0.0 <= t <= 1.0
    ensures InBox(Lift(l.startPoint.Add(l.Direction().Scale(t))), Lift(l.startPoint), Lift(l.endPoint))
  {
    BetweenEnds(l.startPoint.x, l.endPoint.x, t);
    BetweenEnds(l.startPoint.y, l.endPoint.y, t);
  }

  lemma BetweenEnds(a: real, b: real, t: real)
    requires 0.0 <= t <= 1.0
    ensures Between(a + (b - a) * t, a, b)
  {
    assert (b - a) * t - (b - a) == (b - a) * (t - 1.0);
    if a <= b {
      NonNegMul(b - a, t);
      NonNegMul(b - a, 1.0 - t);
    } else {
      NonNegMul(a - b, t);
      NonNegMul(a - b, 1.0 - t);
    }
  }
}
