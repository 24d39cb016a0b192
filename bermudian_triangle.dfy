/** BermudianTriangle.cs: the editable zone ("Bermuda triangle") on the
    lake, meant to stay convex. Its vertices are the spline points of a
    sprite shape, each shown by a marker. A vertex can be picked and dragged
    (a drag is kept only while the polygon passes the turn-sign test), and
    a double click on a vertex removes it while more than three remain. */
module BermudianTriangles {
  import opened Geometry
  import opened Outcomes

  /** How close (in world units) a click must be to a vertex to pick it. */
  const DetectionLengthEpsilon: real := 0.25
  /** The longest gap, in seconds, between the two clicks of a double click. */
  const DoubleClickDelay: real := 0.5
  /** A click this long after the first one starts the count again. */
  const ClickResetDelay: real := 1.0
  /** The polygon never loses a vertex below this count. */
  const MinimalPointCount: nat := 3
  /** Mathf.Epsilon, the smallest positive float. */
  const FloatEpsilon: real := 1.401298e-45

  const NotConvexMessage: string := "The polygon isn't convex"
  const MinimalCountMessage: string := "There is minimal point count, can't remove"

  /** IntoLocalPosition: a world position relative to the shape's origin. */
  function IntoLocalPosition(origin: Vec3, globalPosition: Vec3): (l: Vec3)
    ensures l.Add(origin) == globalPosition
  {
    globalPosition.Sub(origin)
  }

  /** IntoGlobalPosition: a position relative to the shape's origin in
      world coordinates. */
  function IntoGlobalPosition(origin: Vec3, localPosition: Vec3): (g: Vec3)
    ensures g.Sub(origin) == localPosition
  {
    localPosition.Add(origin)
  }

  /** The two conversions undo each other, in either order. */
  lemma LocalGlobalRoundTrip(origin: Vec3, v: Vec3)
    ensures IntoGlobalPosition(origin, IntoLocalPosition(origin, v)) == v
    ensures IntoLocalPosition(origin, IntoGlobalPosition(origin, v)) == v
  {
  }

  /** Mathf.Sign: 1 for zero and positive numbers, -1 for negative ones. */
  function MathfSign(f: real): (s: real)
    ensures s == 1.0 || s == -1.0
    ensures s == 1.0 <==> 0.0 <= f
  {
    if f >= 0.0 then 1.0 else -1.0
  }

  /** The vertex after vertex `i` round a closed polygon of `n` vertices. */
  function Next(i: nat, n: nat): (k: nat)
    requires i < n
    ensures k < n
  {
    if i + 1 == n then 0 else i + 1
  }

  /** Stepping round the polygon is counting modulo `n`. */
  lemma NextIsMod(i: nat, n: nat)
    requires i < n
    ensures Next(i, n) == (i + 1) % n
    ensures Next(Next(i, n), n) == (i + 2) % n
  {
    if i + 2 < n {
      ModBelow(i + 1, n);
      ModBelow(i + 2, n);
    } else if i + 2 == n {
      ModBelow(i + 1, n);
      ModWrap(i + 2, n);
    } else if n == 1 {
      ModWrap(i + 1, n);
    } else {
      ModWrap(i + 1, n);
      ModWrap(i + 2, n);
    }
  }

  /** The turn at the vertex after `i`: the cross product of the edge into
      it and the edge out of it. */
  function Turn(points: seq<Vec2>, i: nat): real
    requires i < |points|
  {
    var j := Next(i, |points|);
    var k := Next(j, |points|);
    Cross2(points[j].Sub(points[i]), points[k].Sub(points[j]))
  }

  /** The convexity test's verdict: every turn has the sign of the first. */
  predicate Convex(points: seq<Vec2>)
  {
    forall i :: 0 <= i < |points| ==> MathfSign(Turn(points, i)) == MathfSign(Turn(points, 0))
  }

  /** The vertex slot a vertex id refers to: the id is shifted by the
      vertex count `n` and taken modulo `n`. */
  function Slot(pointId: int, n: nat): (k: nat)
    requires 0 < n && 0 <= pointId + n
    ensures k < n
  {
    (pointId + n) % n
  }

  /** The id of an existing vertex is its own slot. */
  lemma SlotOfIndex(id: int, n: nat)
    requires 0 <= id < n
    ensures Slot(id, n) == id
  {
  }

  /** The polygon the convexity test examines: the shape's vertices, in the
      plane, with the one in slot `pointId` moved to `newPointPosition` and
      every other one where it is. */
  function Candidate(spline: seq<Vec3>, pointId: int, newPointPosition: Vec2): (points: seq<Vec2>)
    requires 0 < |spline| && 0 <= pointId + |spline|
    ensures |points| == |spline|
    ensures points[Slot(pointId, |spline|)] == newPointPosition
    ensures forall k :: 0 <= k < |spline| && k != Slot(pointId, |spline|) ==> points[k] == Flatten(spline[k])
  {
    Outline(spline)[Slot(pointId, |spline|) := newPointPosition]
  }

  /** The vertices in the plane. */
  function Outline(spline: seq<Vec3>): (points: seq<Vec2>)
    ensures |points| == |spline|
    ensures forall k :: 0 <= k < |spline| ==> points[k] == Flatten(spline[k])
  {
    seq(|spline|, k requires 0 <= k < |spline| => Flatten(spline[k]))
  }

  /** Moving a vertex and then taking the outline gives the polygon the
      convexity test examines for that move. */
  lemma CandidateOfMove(spline: seq<Vec3>, id: nat, moved: Vec3)
    requires id < |spline|
    ensures Outline(spline[id := moved]) == Candidate(spline, id, Flatten(moved))
  {
    SlotOfIndex(id, |spline|);
    var a, b := Outline(spline[id := moved]), Candidate(spline, id, Flatten(moved));
    assert forall k :: 0 <= k < |spline| ==> a[k] == b[k];
  }

  /** In a triangle all three turns are the same cross product, so every
      triangle passes the convexity test. This is about the test alone: a
      vertex of a triangle is never held, since a press on one throws. */
  lemma TriangleAlwaysConvex(points: seq<Vec2>)
    requires |points| == 3
    ensures Convex(points)
  {
    var a, b, c := points[0], points[1], points[2];
    assert Turn(points, 1) == Cross2(c.Sub(b), a.Sub(c));
    assert Turn(points, 2) == Cross2(a.Sub(c), b.Sub(a));
    assert Turn(points, 0) == Cross2(b.Sub(a), c.Sub(b));
    assert Cross2(c.Sub(b), a.Sub(c)) == Cross2(b.Sub(a), c.Sub(b));
    assert Cross2(a.Sub(c), b.Sub(a)) == Cross2(b.Sub(a), c.Sub(b));
    assert forall i :: 0 <= i < 3 ==> Turn(points, i) == Turn(points, 0);
  }

  /** The click is within reach of `vertex` (a local position). */
  function Hits(origin: Vec3, vertex: Vec3, click: Vec3, mag: Magnitude): bool
  {
    mag(click.Sub(IntoGlobalPosition(origin, vertex))) < DetectionLengthEpsilon
  }

  /** The first vertex from `from` on within reach of the click, if any. */
  function FirstHit(origin: Vec3, spline: seq<Vec3>, click: Vec3, mag: Magnitude, from: nat): (r: Option<nat>)
    requires from <= |spline|
    ensures r.Some? ==> from <= r.value < |spline| && Hits(origin, spline[r.value], click, mag)
    ensures r.Some? ==> forall k :: from <= k < r.value ==> !Hits(origin, spline[k], click, mag)
    ensures r.None? <==> forall k :: from <= k < |spline| ==> !Hits(origin, spline[k], click, mag)
    decreases |spline| - from
  {
    if from == |spline| then None
    else if Hits(origin, spline[from], click, mag) then Some(from)
    else FirstHit(origin, spline, click, mag, from + 1)
  }

  /** The drag as written checks the mouse position but stores the mouse
      position minus the click offset. In the quadrilateral Kite(), moving
      the third vertex with the check at (0.75, 0.65) passes, yet with an
      offset of (0.15, 0.15), shorter than the pick radius, the stored vertex
      (0.6, 0.5) makes the polygon concave. */
  lemma DragCheckMissesOffset()
    ensures var spline := Kite();
            var checked, offset := Vec3(0.75, 0.65, 0.0), Vec3(0.15, 0.15, 0.0);
            offset.SqrMagnitude() < DetectionLengthEpsilon * DetectionLengthEpsilon &&
            Convex(Candidate(spline, 2, Flatten(checked))) &&
            !Convex(Outline(spline[2 := checked.Sub(offset)]))
  {
    KiteWithMovedVertex(Vec3(0.75, 0.65, 0.0), Vec3(0.6, 0.5, 0.0));
    assert Vec3(0.75, 0.65, 0.0).Sub(Vec3(0.15, 0.15, 0.0)) == Vec3(0.6, 0.5, 0.0);
    OffsetWithinReach();
    CheckedKiteConvex();
    StoredKiteConcave();
  }

  /** The click offset (0.15, 0.15) is shorter than the pick radius. */
  lemma OffsetWithinReach()
    ensures Vec3(0.15, 0.15, 0.0).SqrMagnitude() < DetectionLengthEpsilon * DetectionLengthEpsilon
  {
    assert Vec3(0.15, 0.15, 0.0).SqrMagnitude() == 0.045;
  }

  /** With its third vertex at (0.75, 0.65) the kite still passes the
      test. */
  lemma CheckedKiteConvex()
    ensures Convex([Vec2(0.2, 0.1), Vec2(1.1, 0.3), Vec2(0.75, 0.65), Vec2(0.3, 0.9)])
  {
    QuadConvex(Vec2(0.2, 0.1), Vec2(1.1, 0.3), Vec2(0.75, 0.65), Vec2(0.3, 0.9));
  }

  /** With its third vertex at (0.6, 0.5) the kite turns left at the second
      vertex and right at the third. */
  lemma StoredKiteConcave()
    ensures !Convex([Vec2(0.2, 0.1), Vec2(1.1, 0.3), Vec2(0.6, 0.5), Vec2(0.3, 0.9)])
  {
    var q := [Vec2(0.2, 0.1), Vec2(1.1, 0.3), Vec2(0.6, 0.5), Vec2(0.3, 0.9)];
    assert Turn(q, 0) == 0.28;
    assert Turn(q, 1) == -0.14;
  }

  /** The kite with its third vertex moved, as seen by the convexity test. */
  lemma KiteWithMovedVertex(checked: Vec3, stored: Vec3)
    ensures Candidate(Kite(), 2, Flatten(checked)) ==
            [Vec2(0.2, 0.1), Vec2(1.1, 0.3), Flatten(checked), Vec2(0.3, 0.9)]
    ensures Outline(Kite()[2 := stored]) ==
            [Vec2(0.2, 0.1), Vec2(1.1, 0.3), Flatten(stored), Vec2(0.3, 0.9)]
  {
    SlotOfIndex(2, 4);
  }

  /** A quadrilateral that turns left at each of its four corners passes
      the test. */
  lemma QuadConvex(a: Vec2, b: Vec2, c: Vec2, d: Vec2)
    requires 0.0 <= Cross2(b.Sub(a), c.Sub(b)) && 0.0 <= Cross2(c.Sub(b), d.Sub(c))
    requires 0.0 <= Cross2(d.Sub(c), a.Sub(d)) && 0.0 <= Cross2(a.Sub(d), b.Sub(a))
    ensures Convex([a, b, c, d])
  {
    var q := [a, b, c, d];
    assert Turn(q, 0) == Cross2(b.Sub(a), c.Sub(b));
    assert Turn(q, 1) == Cross2(c.Sub(b), d.Sub(c));
    assert Turn(q, 2) == Cross2(d.Sub(c), a.Sub(d));
    assert Turn(q, 3) == Cross2(a.Sub(d), b.Sub(a));
    forall i | 0 <= i < 4
      ensures MathfSign(Turn(q, i)) == MathfSign(Turn(q, 0))
    {
      assert i == 0 || i == 1 || i == 2 || i == 3;
    }
  }

  /** The convexity test compares turn signs only, so it is not geometric
      convexity. A five-pointed star turns clockwise at every corner and
      passes, although its edges 0 and 2 cross at (2/3, 1). */
  lemma StarPassesTest()
    ensures var star := [Vec2(0.0, 3.0), Vec2(2.0, -3.0), Vec2(-3.0, 1.0), Vec2(3.0, 1.0), Vec2(-2.0, -3.0)];
            Convex(star) &&
            star[0].Add(star[1].Sub(star[0]).Scale(1.0 / 3.0)) == Vec2(2.0 / 3.0, 1.0) &&
            star[2].Add(star[3].Sub(star[2]).Scale(11.0 / 18.0)) == Vec2(2.0 / 3.0, 1.0)
  {
    var star := [Vec2(0.0, 3.0), Vec2(2.0, -3.0), Vec2(-3.0, 1.0), Vec2(3.0, 1.0), Vec2(-2.0, -3.0)];
    assert Turn(star, 0) == -22.0;
    assert Turn(star, 1) == -24.0;
    assert Turn(star, 2) == -24.0;
    assert Turn(star, 3) == -22.0;
    assert Turn(star, 4) == -24.0;
    forall i | 0 <= i < 5
      ensures MathfSign(Turn(star, i)) == MathfSign(Turn(star, 0))
    {
      assert i == 0 || i == 1 || i == 2 || i == 3 || i == 4;
    }
  }

  /** Mathf.Sign(0) is 1, so a straight corner counts as a left turn. A
      clockwise square with a vertex in the middle of its top side is
      convex but fails the test. */
  lemma StraightCornerFailsTest()
    ensures !Convex([Vec2(0.0, 0.0), Vec2(0.0, 1.0), Vec2(0.5, 1.0), Vec2(1.0, 1.0), Vec2(1.0, 0.0)])
  {
    var square := [Vec2(0.0, 0.0), Vec2(0.0, 1.0), Vec2(0.5, 1.0), Vec2(1.0, 1.0), Vec2(1.0, 0.0)];
    assert Turn(square, 0) == -0.5;
    assert Turn(square, 1) == 0.0;
  }

  /** A convex quadrilateral, counter-clockwise, as spline points. */
  function Kite(): (s: seq<Vec3>)
    ensures |s| == 4
  {
    [Vec3(0.2, 0.1, 0.0), Vec3(1.1, 0.3, 0.0), Vec3(0.9, 0.8, 0.0), Vec3(0.3, 0.9, 0.0)]
  }

  /** The turn walk of IsPolygonConvex: each turn's sign is compared with
      the previous one, kept in `signOfResult`; the first disagreement
      throws. */
  method CheckTurns(points: array<Vec2>) returns (r: Result<bool>)
    ensures r.Success? <==> Convex(points[..])
    ensures r.Success? ==> r.value
    ensures r.Failure? ==> r.error == NotConvexMessage
  {
    var totalPointCount := points.Length;
    ghost var polygon := points[..];
    var signOfResult := 0.0;
    var i := 0;
    while i < totalPointCount
      invariant 0 <= i <= totalPointCount
      invariant forall k :: 0 <= k < i ==> MathfSign(Turn(polygon, k)) == MathfSign(Turn(polygon, 0))
      invariant 0 < i ==> signOfResult == MathfSign(Turn(polygon, 0))
    {
      var dx1 := points[(i + 1) % totalPointCount].x - points[i].x;
      var dy1 := points[(i + 1) % totalPointCount].y - points[i].y;
      var dx2 := points[(i + 2) % totalPointCount].x - points[(i + 1) % totalPointCount].x;
      var dy2 := points[(i + 2) % totalPointCount].y - points[(i + 1) % totalPointCount].y;
      var z := dx1 * dy2 - dx2 * dy1;
      NextIsMod(i, totalPointCount);
      assert z == Turn(polygon, i);
      var sign := MathfSign(z);
      if i != 0 && Abs(signOfResult - sign) > FloatEpsilon {
        return Failure(NotConvexMessage);
      }
      signOfResult := sign;
      i := i + 1;
    }
    return Success(true);
  }

  class BermudianTriangle {
    /** `_spriteShapeController.transform.position`. */
    const origin: Vec3
    /** The spline's point positions, local to the shape. */
    var spline: seq<Vec3>
    /** `_points`: the local position of each vertex marker. */
    var markers: seq<Vec3>
    /** `_isTouch`. */
    var isTouch: bool
    /** `_isDoubleClick`. */
    var isDoubleClick: bool
    /** `_idPointToEdit`. */
    var idPointToEdit: int
    /** `_clicked`. */
    var clicked: int
    /** `_clickTime`. */
    var clickTime: real
    /** `_deltaBetweenClickAndSelect`. */
    var deltaBetweenClickAndSelect: Vec3

    /** One marker per vertex, never fewer than three vertices, a vertex id
        exactly while a vertex is held, and at most two clicks counted. */
    ghost predicate Valid()
      reads this
    {
      |markers| == |spline| && MinimalPointCount <= |spline| &&
      (isTouch ==> 0 <= idPointToEdit < |spline|) &&
      (!isTouch ==> idPointToEdit == -1) &&
      0 <= clicked <= 2
    }

    /** The shape after Awake: its vertices with their markers, nothing
        held, no click counted. */
    constructor (shapeOrigin: Vec3, vertices: seq<Vec3>, vertexMarkers: seq<Vec3>)
      requires |vertexMarkers| == |vertices| && MinimalPointCount <= |vertices|
      ensures Valid()
      ensures origin == shapeOrigin && spline == vertices && markers == vertexMarkers
      ensures !isTouch && !isDoubleClick && idPointToEdit == -1 && clicked == 0 && clickTime == 0.0
    {
      origin := shapeOrigin;
      spline, markers := vertices, vertexMarkers;
      isTouch, isDoubleClick, idPointToEdit := false, false, -1;
      clicked, clickTime := 0, 0.0;
      deltaBetweenClickAndSelect := Vec3(0.0, 0.0, 0.0);
    }

    /** IsPolygonConvex: copies the vertices into a fresh array, moves the
        one in slot `pointId`, and walks the turns keeping the sign of the
        last one; a turn whose sign differs from the previous one throws. */
    method IsPolygonConvex(pointId: int, newPointPosition: Vec2) returns (r: Result<bool>)
      requires 0 < |spline| && 0 <= pointId + |spline|
      ensures r.Success? <==> Convex(Candidate(spline, pointId, newPointPosition))
      ensures r.Success? ==> r.value
      ensures r.Failure? ==> r.error == NotConvexMessage
    {
      var totalPointCount := |spline|;
      var id := pointId + totalPointCount;
      var points := CopyVertices();
      points[id % totalPointCount] := newPointPosition;
      assert points[..] == Candidate(spline, pointId, newPointPosition);
      r := CheckTurns(points);
    }

    /** The vertices, in the plane, in a fresh array. */
    method CopyVertices() returns (points: array<Vec2>)
      ensures fresh(points) && points[..] == Outline(spline)
    {
      var totalPointCount := |spline|;
      points := new Vec2[totalPointCount];
      var i := 0;
      while i < totalPointCount
        invariant 0 <= i <= totalPointCount
        invariant forall k :: 0 <= k < i ==> points[k] == Flatten(spline[k])
      {
        points[i] := Flatten(spline[i]);
        i := i + 1;
      }
    }

    /** The drag step of Update, with the mouse's world position as a
        parameter. While a vertex is held, the mouse position in the plane
        is taken into local coordinates and checked for convexity; when it
        passes, the vertex and its marker move to that position minus the
        click offset. A failed check leaves everything as it was and shows
        its message. */
    method Update(mousePosition: Vec3) returns (shownError: Option<string>)
      requires Valid()
      modifies this`spline, this`markers
      ensures Valid()
      ensures !(isTouch && idPointToEdit != -1) ==>
                shownError == None && spline == old(spline) && markers == old(markers)
      ensures isTouch && idPointToEdit != -1 ==>
                var local := IntoLocalPosition(origin, Vec3(mousePosition.x, mousePosition.y, 0.0));
                var moved := local.Sub(deltaBetweenClickAndSelect);
                if Convex(Candidate(old(spline), idPointToEdit, Flatten(local))) then
                  shownError == None &&
                  spline == old(spline)[idPointToEdit := moved] &&
                  markers == old(markers)[idPointToEdit := moved]
                else
                  shownError == Some(NotConvexMessage) && spline == old(spline) && markers == old(markers)
    {
      shownError := None;
      if isTouch && idPointToEdit != -1 {
        var currentLocalPosition := IntoLocalPosition(origin, Vec3(mousePosition.x, mousePosition.y, 0.0));
        var convex := IsPolygonConvex(idPointToEdit, Flatten(currentLocalPosition));
        if convex.Failure? {
          shownError := Some(convex.error);
        } else if convex.value {
          spline := spline[idPointToEdit := currentLocalPosition.Sub(deltaBetweenClickAndSelect)];
          markers := markers[idPointToEdit := currentLocalPosition.Sub(deltaBetweenClickAndSelect)];
        }
      }
    }

    /** The drag step with the convexity test applied to the position that
        is actually stored: after a stored move the polygon always passes
        the test. */
    method UpdateChecked(mousePosition: Vec3) returns (shownError: Option<string>)
      requires Valid()
      modifies this`spline, this`markers
      ensures Valid()
      ensures !(isTouch && idPointToEdit != -1) ==>
                shownError == None && spline == old(spline) && markers == old(markers)
      ensures shownError == None && spline != old(spline) ==> Convex(Outline(spline))
      ensures isTouch && idPointToEdit != -1 ==>
                var local := IntoLocalPosition(origin, Vec3(mousePosition.x, mousePosition.y, 0.0));
                var moved := local.Sub(deltaBetweenClickAndSelect);
                if Convex(Outline(old(spline)[idPointToEdit := moved])) then
                  shownError == None &&
                  spline == old(spline)[idPointToEdit := moved] &&
                  markers == old(markers)[idPointToEdit := moved]
                else
                  shownError == Some(NotConvexMessage) && spline == old(spline) && markers == old(markers)
    {
      shownError := None;
      if isTouch && idPointToEdit != -1 {
        var currentLocalPosition := IntoLocalPosition(origin, Vec3(mousePosition.x, mousePosition.y, 0.0));
        var moved := currentLocalPosition.Sub(deltaBetweenClickAndSelect);
        CandidateOfMove(spline, idPointToEdit, moved);
        var convex := IsPolygonConvex(idPointToEdit, Flatten(moved));
        if convex.Failure? {
          shownError := Some(convex.error);
        } else if convex.value {
          spline := spline[idPointToEdit := moved];
          markers := markers[idPointToEdit := moved];
        }
      }
    }

    /** DetectPointSelection, for a press while no vertex is held. It looks
        for the first vertex within reach of the click. On a double click
        with more than three vertices that vertex and its marker are
        removed. Otherwise, with exactly three vertices, it throws;
        with more, the vertex is held for dragging together with the click
        offset. A click that reaches no vertex changes nothing. */
    method DetectPointSelection(clickPosition: Vec3, mag: Magnitude) returns (r: Result<bool>)
      requires Valid() && !isTouch
      modifies this`spline, this`markers, this`isTouch, this`idPointToEdit, this`deltaBetweenClickAndSelect
      ensures Valid()
      ensures var hit := FirstHit(origin, old(spline), clickPosition, mag, 0);
              var n := |old(spline)|;
              var kept := idPointToEdit == old(idPointToEdit) &&
                          deltaBetweenClickAndSelect == old(deltaBetweenClickAndSelect);
              if hit.None? then
                r == Success(false) && spline == old(spline) && markers == old(markers) && !isTouch && kept
              else if isDoubleClick && n > MinimalPointCount then
                var i := hit.value;
                r == Success(true) && !isTouch && kept &&
                spline == old(spline)[..i] + old(spline)[i + 1..] &&
                markers == old(markers)[..i] + old(markers)[i + 1..]
              else if n == MinimalPointCount then
                r == Failure(MinimalCountMessage) && spline == old(spline) && markers == old(markers) && !isTouch && kept
              else
                r == Success(true) && spline == old(spline) && markers == old(markers) &&
                isTouch && idPointToEdit == hit.value &&
                deltaBetweenClickAndSelect == clickPosition.Sub(IntoGlobalPosition(origin, old(spline)[hit.value]))
    {
      var i := 0;
      while i < |spline|
        invariant 0 <= i <= |spline|
        invariant forall k :: 0 <= k < i ==> !Hits(origin, spline[k], clickPosition, mag)
      {
        var deltaPosition := clickPosition.Sub(IntoGlobalPosition(origin, spline[i]));
        if mag(deltaPosition) < DetectionLengthEpsilon {
          if isDoubleClick && |spline| > MinimalPointCount {
            spline := spline[..i] + spline[i + 1..];
            markers := markers[..i] + markers[i + 1..];
            return Success(true);
          }
          if |spline| == MinimalPointCount {
            return Failure(MinimalCountMessage);
          }
          isTouch := true;
          idPointToEdit := i;
          deltaBetweenClickAndSelect := deltaPosition;
          return Success(true);
        }
        i := i + 1;
      }
      return Success(false);
    }

    /** OnPointerUp: the held vertex is released. */
    method OnPointerUp()
      requires Valid()
      modifies this`isTouch, this`idPointToEdit
      ensures Valid() && !isTouch && idPointToEdit == -1
    {
      isTouch := false;
      idPointToEdit := -1;
    }

    /** DetectDoubleClick with `Time.time` as the parameter `time`. A click
        counts; the first one of a series records its time. A later click
        less than half a second after that time is a double click and
        clears the count and the time. Otherwise the count restarts after a
        third click or more than a second after the first. */
    method DetectDoubleClick(time: real)
      requires Valid()
      modifies this`clicked, this`clickTime, this`isDoubleClick
      ensures Valid()
      ensures isDoubleClick <==> 1 <= old(clicked) && time - old(clickTime) < DoubleClickDelay
      ensures isDoubleClick ==> clicked == 0 && clickTime == 0.0
      ensures !isDoubleClick ==> clickTime == (if old(clicked) == 0 then time else old(clickTime))
      ensures !isDoubleClick ==>
                clicked == (if old(clicked) == 2 || time - clickTime > ClickResetDelay then 0 else old(clicked) + 1)
    {
      clicked := clicked + 1;
      if clicked == 1 {
        clickTime := time;
      }
      if clicked > 1 && time - clickTime < DoubleClickDelay {
        clicked := 0;
        clickTime := 0.0;
        isDoubleClick := true;
        return;
      }
      if clicked > 2 || time - clickTime > ClickResetDelay {
        clicked := 0;
      }
      isDoubleClick := false;
    }
  }
}
