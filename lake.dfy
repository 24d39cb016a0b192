/** Lake.cs: the lake whose closed boundary (the edge collider's points)
    ships start and end on, the ship-count range guard and the walk that
    turns a random fraction of the perimeter into a point on the boundary. */
module Lakes {
  import opened Geometry
  import opened Outcomes
  import opened Lines

  /** A draw of `System.Random.NextDouble()`. */
  type Fraction = u: real | 0.0 <= u < 1.0

  /** GetRandomInt: a range with `min > max` is refused; otherwise
      `Random.Next(min, max)`, which scales the draw `u` onto the
      half-open range and gives `min` for an empty one. */
  function GetRandomInt(min: int, max: int, u: Fraction): (r: Result<int>)
    ensures r.Failure? <==> min > max
    ensures r.Failure? ==> r.error == "Incorrect range of ship count"
    ensures r.Success? ==> min <= r.value && (r.value < max || r.value == min == max)
  {
    if min > max then
      Failure("Incorrect range of ship count")
    else
      ScaledDrawInRange(u, max - min);
      Success(min + (u * (max - min) as real).Floor)
  }

  /** The scaled draw falls in `[0, width)`, or is 0 for an empty range. */
  lemma ScaledDrawInRange(u: Fraction, width: nat)
    ensures 0 <= (u * width as real).Floor
    ensures (u * width as real).Floor < width || (u * width as real).Floor == 0 == width
  {
    var w := width as real;
    NonNegMul(u, w);
    if 0 < width {
      PosMul(1.0 - u, w);
      assert u * w < w;
    }
  }

  /** Boundary edge `i`, from point `i` to the next point round the closed
      boundary. */
  function EdgeVector(points: seq<Vec2>, i: nat): Vec2
    requires i < |points|
  {
    points[(i + 1) % |points|].Sub(points[i])
  }

  /** The length of boundary edge `i`. */
  function EdgeLength(points: seq<Vec2>, i: nat, mag: Magnitude): real
    requires i < |points|
  {
    Length2(mag, EdgeVector(points, i))
  }

  /** The length of the boundary from point 0 up to point `k`, along the
      first `k` edges. */
  function ArcTo(points: seq<Vec2>, k: nat, mag: Magnitude): real
    requires k <= |points|
  {
    if k == 0 then 0.0 else ArcTo(points, k - 1, mag) + EdgeLength(points, k - 1, mag)
  }

  /** The perimeter: every edge round the closed boundary, the closing edge
      from the last point back to the first included. */
  function Perimeter(points: seq<Vec2>, mag: Magnitude): real
  {
    ArcTo(points, |points|, mag)
  }

  /** Some boundary edge has positive length. */
  predicate HasPositiveEdge(points: seq<Vec2>)
  {
    exists i :: 0 <= i < |points| && 0.0 < EdgeVector(points, i).SqrMagnitude()
  }

  /** The arc length grows along the boundary, by exactly the length of
      each edge passed. */
  lemma {:induction false} ArcMonotone(points: seq<Vec2>, j: nat, k: nat, mag: Magnitude)
    requires IsMagnitude(mag)
    requires j <= k <= |points|
    ensures ArcTo(points, j, mag) <= ArcTo(points, k, mag)
    decreases k - j
  {
    if j < k {
      ArcMonotone(points, j, k - 1, mag);
      Length2Facts(mag, EdgeVector(points, k - 1));
    }
  }

  /** An edge of positive length is no longer than the perimeter, which
      is then positive too. */
  lemma {:induction false} EdgeWithinPerimeter(points: seq<Vec2>, i: nat, mag: Magnitude)
    requires IsMagnitude(mag)
    requires i < |points| && 0.0 < EdgeVector(points, i).SqrMagnitude()
    ensures 0.0 < EdgeLength(points, i, mag) <= Perimeter(points, mag)
  {
    Length2Facts(mag, EdgeVector(points, i));
    ArcMonotone(points, 0, i, mag);
    ArcMonotone(points, i + 1, |points|, mag);
  }

  /** A boundary with an edge of positive length, the first one or any
      other, has a positive perimeter. */
  lemma PositivePerimeter(points: seq<Vec2>, mag: Magnitude)
    requires IsMagnitude(mag)
    requires (0 < |points| && 0.0 < EdgeVector(points, 0).SqrMagnitude()) || HasPositiveEdge(points)
    ensures 0.0 < Perimeter(points, mag)
  {
    var i :| 0 <= i < |points| && 0.0 < EdgeVector(points, i).SqrMagnitude();
    EdgeWithinPerimeter(points, i, mag);
  }

  /** The point at fraction `t` of the way along edge `i`. */
  function OnEdge(points: seq<Vec2>, i: nat, t: real): Vec2
    requires i < |points|
  {
    points[i].Add(EdgeVector(points, i).Scale(t))
  }

  /** The boundary edge `i` as a segment. */
  function EdgeLine(points: seq<Vec2>, i: nat): (l: Line)
    requires i < |points|
    ensures l.Direction() == EdgeVector(points, i)
  {
    Line(points[i], points[(i + 1) % |points|])
  }

  /** A point a fraction `t` in [0, 1] along a boundary edge is on that
      edge: on its carrier line, and inside its bounding box by the segment
      test of Line.cs. */
  lemma OnEdgeIsOnBoundary(points: seq<Vec2>, i: nat, t: real)
    requires i < |points| && 0.0 <= t <= 1.0
    ensures var l := EdgeLine(points, i);
            OnCarrier(OnEdge(points, i, t), l.startPoint, l.Direction()) &&
            DoesPointBelongsSegment(Lift(OnEdge(points, i, t)), Lift(l.startPoint), Lift(l.endPoint))
  {
    var l := EdgeLine(points, i);
    ScaledOnCarrier(l.startPoint, l.Direction(), t);
    OnSegmentInBox(l, t);
  }

  /** The target arc length `perimeter * u` is shorter than the perimeter. */
  lemma PerimeterCovers(target: real, p: real, u: Fraction)
    requires 0.0 < p && target == p * u
    ensures 0.0 <= target < p
  {
    NonNegMul(p, u);
    assert p * (1.0 - u) == p - p * u;
    PosMul(p, 1.0 - u);
  }

  class Lake {
    /** `_edgeCollider.points`, baked once by RenderLake. */
    const points: seq<Vec2>
    /** `_isFirstRandomGetting`. */
    var isFirstRandomGetting: bool
    /** `_lakePerimeter`. */
    var lakePerimeter: real

    /** The perimeter is still 0 before the first request for a point and
        the true perimeter after it. */
    ghost predicate Valid(mag: Magnitude)
      reads this
    {
      (isFirstRandomGetting ==> lakePerimeter == 0.0) &&
      (!isFirstRandomGetting ==> lakePerimeter == Perimeter(points, mag))
    }

    /** A lake whose collider has been baked with the given points. */
    constructor (boundary: seq<Vec2>)
      ensures points == boundary
      ensures isFirstRandomGetting && lakePerimeter == 0.0
      ensures forall mag :: Valid(mag)
    {
      points := boundary;
      isFirstRandomGetting := true;
      lakePerimeter := 0.0;
    }

    /** FindLakePerimeter: adds the length of every edge between consecutive
        points, then the closing edge from the last point to the first, to
        `_lakePerimeter`. */
    method FindLakePerimeter(mag: Magnitude)
      requires 0 < |points|
      modifies this`lakePerimeter
      ensures lakePerimeter == old(lakePerimeter) + Perimeter(points, mag)
    {
      var n := |points|;
      var i := 0;
      ghost var start := lakePerimeter;
      while i < n - 1
        invariant 0 <= i <= n - 1
        invariant lakePerimeter == start + ArcTo(points, i, mag)
      {
        ModBelow(i + 1, n);
        lakePerimeter := lakePerimeter + Length2(mag, points[i + 1].Sub(points[i]));
        i := i + 1;
      }
      assert (n - 1 + 1) % n == 0;
      lakePerimeter := lakePerimeter + Length2(mag, points[0].Sub(points[n - 1]));
    }

    /** GetRandomPoint with the draw `u` of NextDouble as a parameter. On the
        first call the perimeter is computed. The walk then finds the edge
        that holds the arc length `perimeter * u` and interpolates along it.
        The result is the point of edge `edge` at fraction `t` of its length,
        and the arc length from point 0 to it is `perimeter * u`. The walk
        stops on an edge of zero length only when it stops on the first edge
        with nothing left of `perimeter * u`: the first edge is required to
        be positive, or else both the draw and some edge. */
    method GetRandomPoint(u: Fraction, mag: Magnitude) returns (point: Vec2, ghost edge: nat, ghost t: real)
      requires IsMagnitude(mag) && Valid(mag)
      requires 0 < |points|
      requires 0.0 < EdgeVector(points, 0).SqrMagnitude() || (0.0 < u && HasPositiveEdge(points))
      modifies this`isFirstRandomGetting, this`lakePerimeter
      ensures Valid(mag) && !isFirstRandomGetting
      ensures lakePerimeter == Perimeter(points, mag)
      ensures edge < |points| && 0.0 <= t <= 1.0
      ensures point == OnEdge(points, edge, t)
      ensures ArcTo(points, edge, mag) + t * EdgeLength(points, edge, mag) == lakePerimeter * u
    {
      EnsurePerimeter(mag);
      PositivePerimeter(points, mag);
      var i, padding := Walk(u, mag);
      Landing(points, u, lakePerimeter, i, padding, mag);
      edge := i - 1;
      t := padding / EdgeLength(points, edge, mag);
      point := PointOnEdge(i, padding, mag);
    }

    /** The end of the walk: the point `padding` along the edge from point
        `i - 1` to point `i`, indices taken modulo the number of points. */
    method PointOnEdge(i: nat, padding: real, mag: Magnitude) returns (point: Vec2)
      requires IsMagnitude(mag)
      requires 0 < i <= |points| && 0.0 < EdgeLength(points, i - 1, mag)
      ensures point == OnEdge(points, i - 1, padding / EdgeLength(points, i - 1, mag))
    {
      var n := |points|;
      WrapIndices(i, n);
      var vector2 := points[i % n].Sub(points[(i - 1) % n]);
      assert vector2 == EdgeVector(points, i - 1) && points[(i - 1) % n] == points[i - 1];
      assert Length2(mag, vector2) == EdgeLength(points, i - 1, mag);
      Length2Facts(mag, vector2);
      point := points[(i - 1) % n].Add(vector2.Scale(padding / Length2(mag, vector2)));
    }

    /** The `_isFirstRandomGetting` guard: the perimeter is accumulated on
        the first call only. */
    method EnsurePerimeter(mag: Magnitude)
      requires Valid(mag) && 0 < |points|
      modifies this`isFirstRandomGetting, this`lakePerimeter
      ensures Valid(mag) && !isFirstRandomGetting
      ensures lakePerimeter == Perimeter(points, mag)
      ensures !old(isFirstRandomGetting) ==> lakePerimeter == old(lakePerimeter)
    {
      if isFirstRandomGetting {
        FindLakePerimeter(mag);
        isFirstRandomGetting := false;
      }
    }

    /** The do-while walk: starting from `padding == perimeter * u`,
        subtract the length of each edge passed until the rest fits on the
        current edge. It stops at `i` with the rest of the target past point
        `i - 1` lying on edge `i - 1`. */
    method Walk(u: Fraction, mag: Magnitude) returns (i: nat, padding: real)
      requires IsMagnitude(mag) && 0 < |points|
      requires 0.0 < lakePerimeter == Perimeter(points, mag)
      ensures 0 < i <= |points|
      ensures 0.0 <= padding <= EdgeLength(points, i - 1, mag)
      ensures padding == lakePerimeter * u - ArcTo(points, i - 1, mag)
      ensures 1 < i ==> 0.0 < padding
    {
      var n := |points|;
      padding := lakePerimeter * u;
      ghost var target := padding;
      PerimeterCovers(target, lakePerimeter, u);
      var currentLength := 0.0;
      i := 0;
      while true
        invariant 0 <= i < n
        invariant 0.0 <= padding - currentLength == target - ArcTo(points, i, mag)
        invariant target < ArcTo(points, n, mag)
        invariant 0 < i ==> 0.0 < padding - currentLength
        decreases n - i
      {
        padding := padding - currentLength;
        WrapIndices(i + 1, n);
        currentLength := Length2(mag, points[(i + 1) % n].Sub(points[i % n]));
        assert currentLength == EdgeLength(points, i, mag);
        i := i + 1;
        if !(padding - currentLength > 0.0) {
          break;
        }
        BeforeLastEdge(points, i, target, mag);
      }
    }

    /** While part of the target arc length is left past point `i`, the
        walk has not yet passed the last edge. */
    static lemma BeforeLastEdge(points: seq<Vec2>, i: nat, target: real, mag: Magnitude)
      requires IsMagnitude(mag) && i <= |points|
      requires 0.0 < target - ArcTo(points, i, mag) && target < ArcTo(points, |points|, mag)
      ensures i < |points|
    {
    }

    /** The walk stops on an edge of positive length or with part of the
        target left: past the first edge the rest is positive, and on the
        first edge the rest is the whole target. */
    static lemma StopsOnPositiveEdge(points: seq<Vec2>, u: Fraction, perimeter: real, i: nat, padding: real, mag: Magnitude)
      requires IsMagnitude(mag) && 0 < i <= |points|
      requires perimeter == Perimeter(points, mag)
      requires 0.0 < EdgeVector(points, 0).SqrMagnitude() || (0.0 < u && HasPositiveEdge(points))
      requires padding == perimeter * u - ArcTo(points, i - 1, mag)
      requires 1 < i ==> 0.0 < padding
      ensures 0.0 < padding || 0.0 < EdgeVector(points, i - 1).SqrMagnitude()
    {
      if i == 1 && !(0.0 < EdgeVector(points, 0).SqrMagnitude()) {
        PositivePerimeter(points, mag);
        PosMul(perimeter, u);
      }
    }

    /** Where the walk stops, with what is left of `perimeter * u` past
        point `i - 1`: on an edge of positive length, at a fraction in
        [0, 1] of it. */
    static lemma Landing(points: seq<Vec2>, u: Fraction, perimeter: real, i: nat, padding: real, mag: Magnitude)
      requires IsMagnitude(mag) && 0 < i <= |points|
      requires perimeter == Perimeter(points, mag)
      requires 0.0 < EdgeVector(points, 0).SqrMagnitude() || (0.0 < u && HasPositiveEdge(points))
      requires 0.0 <= padding <= EdgeLength(points, i - 1, mag)
      requires padding == perimeter * u - ArcTo(points, i - 1, mag)
      requires 1 < i ==> 0.0 < padding
      ensures 0.0 < EdgeLength(points, i - 1, mag)
      ensures var t := padding / EdgeLength(points, i - 1, mag);
              0.0 <= t <= 1.0 && ArcTo(points, i - 1, mag) + t * EdgeLength(points, i - 1, mag) == perimeter * u
    {
      StopsOnPositiveEdge(points, u, perimeter, i, padding, mag);
      Interpolate(points, i - 1, padding, perimeter * u, mag);
    }

    /** The walk's indices taken modulo the number of points: edge `i - 1`
        runs from point `i - 1` to point `i mod n`. */
    static lemma WrapIndices(i: nat, n: nat)
      requires 0 < i <= n
      ensures (i - 1) % n == i - 1 && i % n == (i - 1 + 1) % n
    {
    }

    /** Where the walk stops: `padding` is the rest of the target arc length
        past point `edge`, and it fits on that edge, so it is a fraction of
        the edge's length. */
    static lemma Interpolate(points: seq<Vec2>, edge: nat, padding: real, target: real, mag: Magnitude)
      requires IsMagnitude(mag)
      requires edge < |points| && (0.0 < padding || 0.0 < EdgeVector(points, edge).SqrMagnitude())
      requires 0.0 <= padding <= EdgeLength(points, edge, mag)
      requires padding == target - ArcTo(points, edge, mag)
      ensures 0.0 < EdgeLength(points, edge, mag)
      ensures var t := padding / EdgeLength(points, edge, mag);
              0.0 <= t <= 1.0 && ArcTo(points, edge, mag) + t * EdgeLength(points, edge, mag) == target
    {
      Length2Facts(mag, EdgeVector(points, edge));
      FractionOf(padding, EdgeLength(points, edge, mag));
    }
  }
}
